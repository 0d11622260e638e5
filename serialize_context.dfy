/**
 * The serialize entry points of the native library. `Context::serialize`
 * walks the object into the context's output buffer on the host and copies
 * `total_length` bytes into a new Java byte array. `DPAContext::do_serialize`
 * returns null for an object of an unregistered class, hands an array of
 * references to the batched path when more than one device thread is
 * configured, and hands anything else to one DPA thread. The batched path
 * writes the array header itself, triggers the elements in batches of
 * `max_device_threads`, and appends each element's device output, 8-aligned
 * and without its meta header, then writes the total length at offset 0.
 */
module SerializeContexts {
  import opened Bytes
  import opened Wrappers
  import opened BasicTypes
  import opened ClassInfos
  import opened ClassRegistry
  import opened ClassResolvers
  import opened RWBuffers
  import opened RecordFormat
  import opened RecordParse
  import opened RecordRoundTrip
  import opened ObjectWalkers
  import opened Arith
  import KernelSerializer

  /** `Context::serialize`: the host walker fills the output buffer, and
      the first `total_length` bytes become the Java byte array. The array
      starts with its own length and parses back to the object's view. */
  method HostSerialize(r: ClassResolver, ghost c: Classes, out: array<Byte>, o: JObj) returns (jbytes: seq<Byte>)
    requires r.Valid() && c == RegistryClasses(r.infoById, r.infoByKlass) && out.Length < U64_MOD
    requires Encodable(c, o, UNREGISTERED_CLASS_ID)
    requires OBJECT_DATA_OFFSET + |Rec(c, OBJECT_DATA_OFFSET, o, UNREGISTERED_CLASS_ID)| <= out.Length
    modifies out
    ensures |jbytes| == OBJECT_DATA_OFFSET + |Rec(c, OBJECT_DATA_OFFSET, o, UNREGISTERED_CLASS_ID)|
    ensures out[..] == Serialized(old(out[..]), c, o)
    ensures jbytes == out[..|jbytes|]
    ensures Parse(c.infos, jbytes, OBJECT_DATA_OFFSET) == Ok((View(c, o, UNREGISTERED_CLASS_ID), |jbytes|))
  {
    ghost var a := out[..];
    var w := new ObjectWalker(r, out);
    assert w.c == c;
    var total := w.WalkRoot(o);
    jbytes := out[..total];
    ghost var ser := Serialized(a, c, o);
    assert jbytes == ser[..total];
    RegistrySound(r.infoById, r.infoByKlass, r.sig2id);
    KernelSerializer.CopiedParses(a, c, o);
  }

  /** Which way `DPAContext::do_serialize` sends an object. */
  datatype Route = Unregistered | Whole | Batched

  /** The dispatch of `do_serialize`: the dummy class info of an
      unregistered klass gives null; an array whose element field is a
      reference goes to the batched path when `max_device_threads > 1`;
      everything else is serialized by one device thread. */
  function RouteOf(info: Option<ClassRecord>, maxThreads: nat): (route: Route)
  {
    match info
    case None => Unregistered
    case Some(info) =>
      if IsArray(info) && maxThreads > 1 && |info.fields| >= 1 && IsReferenceType(info.fields[0].typ) then Batched
      else Whole
  }

  /** Only an unregistered class gives null; the batched path is taken
      only with several device threads, and only for an array of
      references, whose walker record is the array header followed by
      the element records. */
  lemma RouteSound(c: Classes, o: JObj, maxThreads: nat, eid: int, base: nat)
    requires !o.Null?
    ensures RouteOf(Info(c, o.klass), maxThreads) == Unregistered <==> Info(c, o.klass).None?
    ensures maxThreads <= 1 && Info(c, o.klass).Some? ==> RouteOf(Info(c, o.klass), maxThreads) == Whole
    ensures RouteOf(Info(c, o.klass), maxThreads) == Batched && Encodable(c, o, eid) && !IsEnum(Info(c, o.klass).value) ==>
              var info := Info(c, o.klass).value;
              o.Array? && |o.elems| == o.length as int
              && Rec(c, base, o, eid) == ArrayHeader(info.id, o.length, base) + ElemsOut(c, base, o, info, |o.elems|)
  {
    if RouteOf(Info(c, o.klass), maxThreads) == Batched && Encodable(c, o, eid) && !IsEnum(Info(c, o.klass).value) {
      RefArrayShape(c, base, o, eid, Info(c, o.klass).value);
    }
  }

  /** The array header, as `do_walk_array` writes it at `base`: the class
      id, `ARRAY_FLAG`, the length, and padding to the next multiple of 8. */
  function ArrayHeader(id: int, length: nat, base: nat): (h: seq<Byte>)
    ensures |h| == 8 + Pad8(base + 8)
  {
    LE16(id) + LE16(ARRAY_CODE) + LE32(length) + Zeros(Pad8(base + 8))
  }

  /** Every device output holds at least its meta header. */
  predicate Stripped(outs: seq<seq<Byte>>)
  {
    forall k :: 0 <= k < |outs| ==> OBJECT_DATA_OFFSET <= |outs[k]|
  }

  /** The element outputs appended after `start`, each from the next
      multiple of 8, with its first `OBJECT_DATA_OFFSET` bytes dropped. */
  function Pieces(start: nat, outs: seq<seq<Byte>>): (r: seq<Byte>)
    requires Stripped(outs)
    decreases |outs|
  {
    if outs == [] then []
    else
      var prev := Pieces(start, outs[..|outs| - 1]);
      var pos := start + |prev|;
      prev + Zeros(Pad8(pos)) + outs[|outs| - 1][OBJECT_DATA_OFFSET..]
  }

  /** One more element output: padding, then the output after its meta
      header. */
  lemma PiecesStep(start: nat, outs: seq<seq<Byte>>, k: nat)
    requires Stripped(outs) && k < |outs|
    ensures Pieces(start, outs[..k + 1])
            == Pieces(start, outs[..k]) + Zeros(Pad8(start + |Pieces(start, outs[..k])|)) + outs[k][OBJECT_DATA_OFFSET..]
  {
    assert outs[..k + 1][..k] == outs[..k];
  }

  /** The pieces of a prefix are no longer than those of the whole. */
  lemma {:induction false} PiecesGrow(start: nat, outs: seq<seq<Byte>>, k: nat)
    requires Stripped(outs) && k <= |outs|
    ensures |Pieces(start, outs[..k])| <= |Pieces(start, outs)|
    decreases |outs| - k
  {
    if k < |outs| {
      PiecesStep(start, outs, k);
      PiecesGrow(start, outs, k + 1);
    } else {
      assert outs[..k] == outs;
    }
  }

  /** What the batched path leaves after the meta header: the array
      header, then the element outputs. */
  function BatchedRecord(id: int, outs: seq<seq<Byte>>): (r: seq<Byte>)
    requires Stripped(outs)
  {
    ArrayHeader(id, |outs|, OBJECT_DATA_OFFSET) + Pieces(ElemsStart(OBJECT_DATA_OFFSET), outs)
  }

  /** `n_batch = (length + batch_size - 1) / batch_size` batches cover
      the array: every batch before the last is full, and the last one
      ends at `length`. */
  lemma BatchBounds(length: nat, batchSize: nat)
    requires batchSize > 0
    ensures var nBatch := (length + batchSize - 1) / batchSize;
            length <= nBatch * batchSize && (nBatch == 0 <==> length == 0)
            && (nBatch > 0 ==> (nBatch - 1) * batchSize < length)
  {
    var nBatch := (length + batchSize - 1) / batchSize;
    var rem := (length + batchSize - 1) % batchSize;
    assert length + batchSize - 1 == nBatch * batchSize + rem;
    if nBatch > 0 {
      MulSucc(nBatch - 1, batchSize);
    }
  }

  /** Tasks in batch i: `min(batch_size, length - i * batch_size)`.
      Every batch has at least one task and at most `batch_size`; the
      batches before i hand out exactly `i * batch_size` elements. */
  function BatchTasks(length: nat, batchSize: nat, i: nat): (n: nat)
    requires 0 < batchSize && i * batchSize < length
    ensures 0 < n <= batchSize && i * batchSize + n <= length
    ensures n < batchSize ==> i * batchSize + n == length
  {
    if batchSize < length - i * batchSize then batchSize else length - i * batchSize
  }

  /** The buffer of the batched path after k element outputs: the header
      and the first k outputs after the meta header, the cursor at their
      end, and room for the rest. */
  ghost predicate Filled(buf: seq<Byte>, off: nat, a: seq<Byte>, h: seq<Byte>, outs: seq<seq<Byte>>, k: nat)
  {
    Stripped(outs) && k <= |outs| && |buf| == |a|
    && OBJECT_DATA_OFFSET + |h| + |Pieces(ElemsStart(OBJECT_DATA_OFFSET), outs)| <= |a|
    && OBJECT_DATA_OFFSET + |h| + |Pieces(ElemsStart(OBJECT_DATA_OFFSET), outs[..k])| <= |a|
    && buf == Splice(a, OBJECT_DATA_OFFSET, h + Pieces(ElemsStart(OBJECT_DATA_OFFSET), outs[..k]))
    && off == OBJECT_DATA_OFFSET + |h| + |Pieces(ElemsStart(OBJECT_DATA_OFFSET), outs[..k])|
  }

  /** Batch i starts where the batches before it stopped: it is not
      empty, and after it either the next batch starts `batch_size`
      further on or, after the last batch, every element has been handed
      out. */
  lemma {:induction false} BatchAdvance(length: nat, batchSize: nat, i: nat)
    requires 0 < batchSize && i < (length + batchSize - 1) / batchSize
    ensures i * batchSize < length
    ensures var nBatch := (length + batchSize - 1) / batchSize;
            var next := i * batchSize + BatchTasks(length, batchSize, i);
            (i + 1 < nBatch ==> next == (i + 1) * batchSize) && (i + 1 == nBatch ==> next == length)
  {
    var nBatch := (length + batchSize - 1) / batchSize;
    BatchBounds(length, batchSize);
    MulMono(i, nBatch - 1, batchSize);
    MulSucc(i, batchSize);
    if i + 1 < nBatch {
      MulMono(i + 1, nBatch - 1, batchSize);
    }
  }

  /** One element output appended to the buffer of the batched path:
      `fill_next_align_8`, then `put` of the output after its meta
      header. */
  method AppendOutput(b: RWBuffer, ghost a: seq<Byte>, ghost h: seq<Byte>, outs: seq<seq<Byte>>, k: nat)
    requires |h| == ElemsStart(OBJECT_DATA_OFFSET) - OBJECT_DATA_OFFSET && k < |outs|
    requires Filled(b.buf[..], b.off, a, h, outs, k)
    modifies b, b.buf
    ensures Filled(b.buf[..], b.off, a, h, outs, k + 1)
  {
    ghost var start := ElemsStart(OBJECT_DATA_OFFSET);
    ghost var prev := Pieces(start, outs[..k]);
    ghost var q := b.off;
    PiecesStep(start, outs, k);
    PiecesGrow(start, outs, k + 1);
    var piece := outs[k][OBJECT_DATA_OFFSET..];
    b.FillNextAlign8();
    SpliceThenNext(a, OBJECT_DATA_OFFSET, h + prev, Zeros(Pad8(q)));
    b.Put(piece);
    SpliceThenNext(a, OBJECT_DATA_OFFSET, h + prev + Zeros(Pad8(q)), piece);
    assert h + prev + Zeros(Pad8(q)) + piece == h + (prev + Zeros(Pad8(q)) + piece);
  }

  /** The header of the batched path, written by `put` of the id, the
      flag and the length, then `fill_next_align_8`. */
  method PutBatchedHeader(b: RWBuffer, id: int, length: nat)
    requires b.off == OBJECT_DATA_OFFSET && OBJECT_DATA_OFFSET + |ArrayHeader(id, length, OBJECT_DATA_OFFSET)| <= b.buf.Length
    modifies b, b.buf
    ensures b.buf[..] == Splice(old(b.buf[..]), OBJECT_DATA_OFFSET, ArrayHeader(id, length, OBJECT_DATA_OFFSET))
    ensures b.off == ElemsStart(OBJECT_DATA_OFFSET)
  {
    ghost var a := b.buf[..];
    b.Put(LE16(id));
    b.Put(LE16(ARRAY_CODE));
    SpliceThenNext(a, OBJECT_DATA_OFFSET, LE16(id), LE16(ARRAY_CODE));
    b.Put(LE32(length));
    SpliceThenNext(a, OBJECT_DATA_OFFSET, LE16(id) + LE16(ARRAY_CODE), LE32(length));
    b.FillNextAlign8();
    SpliceThenNext(a, OBJECT_DATA_OFFSET, LE16(id) + LE16(ARRAY_CODE) + LE32(length), Zeros(Pad8(OBJECT_DATA_OFFSET + 8)));
  }

  /** The first loop of a batch: one device task triggered for each of
      the elements `first`, ..., `first + nTask - 1`, in order. */
  method TriggerBatch(triggered: seq<nat>, first: nat, nTask: nat) returns (after: seq<nat>)
    requires |triggered| == first && forall k :: 0 <= k < first ==> triggered[k] == k
    ensures |after| == first + nTask && forall k :: 0 <= k < first + nTask ==> after[k] == k
  {
    after := triggered;
    for j := 0 to nTask
      invariant |after| == first + j
      invariant forall k :: 0 <= k < first + j ==> after[k] == k
    {
      after := after + [first + j];
    }
  }

  /** The second loop of a batch: the outputs of the elements `first`,
      ..., `first + nTask - 1` appended in order. */
  method CollectBatch(b: RWBuffer, ghost a: seq<Byte>, ghost h: seq<Byte>, outs: seq<seq<Byte>>, first: nat, nTask: nat)
    requires |h| == ElemsStart(OBJECT_DATA_OFFSET) - OBJECT_DATA_OFFSET && first + nTask <= |outs|
    requires Filled(b.buf[..], b.off, a, h, outs, first)
    modifies b, b.buf
    ensures Filled(b.buf[..], b.off, a, h, outs, first + nTask)
  {
    for j := 0 to nTask
      invariant Filled(b.buf[..], b.off, a, h, outs, first + j)
    {
      AppendOutput(b, a, h, outs, first + j);
    }
  }

  /** The batch loop of `do_array_obj_serialize`: `n_batch` batches, each
      triggering its elements and then appending their outputs. Every
      element is triggered once, in index order, and every output is
      appended. */
  method RunBatches(b: RWBuffer, ghost a: seq<Byte>, ghost h: seq<Byte>, batchSize: nat, outs: seq<seq<Byte>>)
    returns (triggered: seq<nat>)
    requires 0 < batchSize && |h| == ElemsStart(OBJECT_DATA_OFFSET) - OBJECT_DATA_OFFSET
    requires Filled(b.buf[..], b.off, a, h, outs, 0)
    modifies b, b.buf
    ensures Filled(b.buf[..], b.off, a, h, outs, |outs|)
    ensures |triggered| == |outs| && forall k :: 0 <= k < |triggered| ==> triggered[k] == k
  {
    var length := |outs|;
    var nBatch := (length + batchSize - 1) / batchSize;
    BatchBounds(length, batchSize);
    triggered := [];
    var done: nat := 0;
    for i := 0 to nBatch
      invariant done <= length && |triggered| == done
      invariant forall k :: 0 <= k < done ==> triggered[k] == k
      invariant i < nBatch ==> done == i * batchSize
      invariant i == nBatch ==> done == length
      invariant Filled(b.buf[..], b.off, a, h, outs, done)
    {
      BatchAdvance(length, batchSize, i);
      var nTask := BatchTasks(length, batchSize, i);
      triggered := TriggerBatch(triggered, done, nTask);
      CollectBatch(b, a, h, outs, done, nTask);
      done := done + nTask;
    }
  }

  /** The end of `do_array_obj_serialize`: `total_length`, the cursor cut
      to `uint32_t`, written into the meta header, and that many bytes
      copied out. */
  method WriteTotal(b: RWBuffer, ghost a: seq<Byte>, id: int, outs: seq<seq<Byte>>) returns (jbytes: seq<Byte>)
    requires b.buf.Length < U64_MOD
    requires Filled(b.buf[..], b.off, a, ArrayHeader(id, |outs|, OBJECT_DATA_OFFSET), outs, |outs|)
    modifies b.buf
    ensures |jbytes| == (OBJECT_DATA_OFFSET + |BatchedRecord(id, outs)|) % U32_MOD
    ensures b.buf[..] == Splice(Splice(a, OBJECT_DATA_OFFSET, BatchedRecord(id, outs)), 0, LE(|jbytes|, 8))
    ensures |jbytes| <= b.buf.Length && jbytes == b.buf[..|jbytes|]
  {
    assert outs[..|outs|] == outs;
    var total := b.off % U32_MOD;
    Pow256Widths();
    b.PutIntAt(total, 8, 0);
    jbytes := b.buf[..total];
  }

  /** `do_array_obj_serialize`: the header, then the batches, then the
      total length. `outs[k]` is what the device thread for element k
      copied back. The elements are triggered once each, in index order;
      the buffer holds the header and the element outputs after the meta
      header; the total length, cut to `uint32_t`, goes to offset 0 and
      sizes the result. */
  method SerializeArrayBatched(out: array<Byte>, id: int, batchSize: nat, outs: seq<seq<Byte>>)
    returns (triggered: seq<nat>, jbytes: seq<Byte>)
    requires 0 < batchSize && |outs| + batchSize <= U32_MOD && Stripped(outs)
    requires OBJECT_DATA_OFFSET + |BatchedRecord(id, outs)| <= out.Length < U64_MOD
    modifies out
    ensures |triggered| == |outs| && forall k :: 0 <= k < |triggered| ==> triggered[k] == k
    ensures |jbytes| == (OBJECT_DATA_OFFSET + |BatchedRecord(id, outs)|) % U32_MOD
    ensures out[..] == Splice(Splice(old(out[..]), OBJECT_DATA_OFFSET, BatchedRecord(id, outs)), 0, LE(|jbytes|, 8))
    ensures |jbytes| <= out.Length && jbytes == out[..|jbytes|]
  {
    ghost var a := out[..];
    var b := new RWBuffer(out);
    b.Skip(OBJECT_DATA_OFFSET);
    ghost var start := ElemsStart(OBJECT_DATA_OFFSET);
    PiecesGrow(start, outs, 0);
    PutBatchedHeader(b, id, |outs|);
    ghost var h := ArrayHeader(id, |outs|, OBJECT_DATA_OFFSET);
    assert outs[..0] == [];
    assert h + Pieces(start, outs[..0]) == h;
    triggered := RunBatches(b, a, h, batchSize, outs);
    jbytes := WriteTotal(b, a, id, outs);
  }

  /** `do_obj_serialize`: one device thread serializes the object with
      the class tables the host registered, and the `length` bytes it
      copies back become the Java byte array. The array starts with its
      own length and parses back to the object's view. */
  method ObjSerialize(r: ClassResolver, ghost c: Classes, dOut: array<Byte>, addr: nat, o: JObj, hOutput: U64)
    returns (jbytes: seq<Byte>)
    requires r.Valid() && c == RegistryClasses(r.infoById, r.infoByKlass) && addr % 8 == 0 && dOut.Length < U64_MOD
    requires Encodable(c, o, UNREGISTERED_CLASS_ID)
    requires OBJECT_DATA_OFFSET + |Rec(c, OBJECT_DATA_OFFSET, o, UNREGISTERED_CLASS_ID)| <= dOut.Length
    modifies dOut
    ensures |jbytes| == OBJECT_DATA_OFFSET + |Rec(c, OBJECT_DATA_OFFSET, o, UNREGISTERED_CLASS_ID)|
    ensures jbytes == Serialized(old(dOut[..]), c, o)[..|jbytes|]
    ensures Parse(c.infos, jbytes, OBJECT_DATA_OFFSET) == Ok((View(c, o, UNREGISTERED_CLASS_ID), |jbytes|))
  {
    ghost var a := dOut[..];
    var res, copied := KernelSerializer.DoSerialize(r.infoById, r.infoByKlass, dOut, addr, o, hOutput);
    jbytes := copied;
    RegistrySound(r.infoById, r.infoByKlass, r.sig2id);
    KernelSerializer.CopiedParses(a, c, o);
  }

  /** `DPAContext::do_serialize`: null for an unregistered class, the
      batched path for an array of references when several device threads
      are configured, one device thread otherwise. `outs` stands for what
      the device threads of the batched path copy back, one per element. */
  method DoSerialize(r: ClassResolver, ghost c: Classes, maxThreads: nat, out: array<Byte>, dOut: array<Byte>, addr: nat,
                     o: JObj, hOutput: U64, outs: seq<seq<Byte>>)
    returns (result: Option<seq<Byte>>)
    requires r.Valid() && c == RegistryClasses(r.infoById, r.infoByKlass) && !o.Null? && maxThreads < U32_MOD
    requires RouteOf(Info(c, o.klass), maxThreads) == Whole ==>
               addr % 8 == 0 && dOut.Length < U64_MOD && Encodable(c, o, UNREGISTERED_CLASS_ID)
               && OBJECT_DATA_OFFSET + |Rec(c, OBJECT_DATA_OFFSET, o, UNREGISTERED_CLASS_ID)| <= dOut.Length
    requires RouteOf(Info(c, o.klass), maxThreads) == Batched ==>
               o.Array? && |outs| == o.length as int && |outs| + maxThreads <= U32_MOD && Stripped(outs)
               && OBJECT_DATA_OFFSET + |BatchedRecord(Info(c, o.klass).value.id, outs)| <= out.Length < U64_MOD
    modifies out, dOut
    ensures result.None? <==> Info(c, o.klass).None?
    ensures RouteOf(Info(c, o.klass), maxThreads) == Whole ==>
              result == Some(Serialized(old(dOut[..]), c, o)[..OBJECT_DATA_OFFSET + |Rec(c, OBJECT_DATA_OFFSET, o, UNREGISTERED_CLASS_ID)|])
    ensures RouteOf(Info(c, o.klass), maxThreads) == Batched ==>
              result.Some? && |result.value| <= out.Length && result.value == out[..|result.value|]
              && out[..] == Splice(Splice(old(out[..]), OBJECT_DATA_OFFSET, BatchedRecord(Info(c, o.klass).value.id, outs)),
                                   0, LE(|result.value|, 8))
  {
    var info := r.GetByKlass(o.klass);
    assert LookupKlass(r.infoById, r.infoByKlass, o.klass) == info;
    assert Info(c, o.klass) == info;
    match RouteOf(info, maxThreads)
    case Unregistered =>
      return None;
    case Batched =>
      var triggered, jbytes := SerializeArrayBatched(out, info.value.id, maxThreads, outs);
      return Some(jbytes);
    case Whole =>
      var jbytes := ObjSerialize(r, c, dOut, addr, o, hOutput);
      return Some(jbytes);
  }

  /** The element output a device thread copies back for a non-null
      element is the meta header and the element's record, so the batched
      path appends that record. */
  lemma KernelPiece(a: seq<Byte>, c: Classes, e: JObj)
    requires Encodable(c, e, UNREGISTERED_CLASS_ID)
    requires OBJECT_DATA_OFFSET + |Rec(c, OBJECT_DATA_OFFSET, e, UNREGISTERED_CLASS_ID)| <= |a| < U64_MOD
    ensures var copied := Serialized(a, c, e)[..OBJECT_DATA_OFFSET + |Rec(c, OBJECT_DATA_OFFSET, e, UNREGISTERED_CLASS_ID)|];
            OBJECT_DATA_OFFSET <= |copied| && copied[OBJECT_DATA_OFFSET..] == Rec(c, OBJECT_DATA_OFFSET, e, UNREGISTERED_CLASS_ID)
  {
    SerializedLayout(a, c, e);
  }
}
