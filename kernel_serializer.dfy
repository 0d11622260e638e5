/**
 * The DPA kernel's serializer: the same record format as `ObjectWalker`,
 * written by the device into its output buffer through the `buffer_t`
 * helpers, with the class of each object found by a binary search of the
 * klass-ordered table the host registered. Each method is proved to leave
 * exactly the record `Rec` behind the write pointer's old position, so
 * the device's output is byte for byte the host walker's (`Serialized`),
 * and the host reader's `Parse` gives the object's view back.
 */
module KernelSerializer {
  import opened Bytes
  import opened Wrappers
  import opened BasicTypes
  import opened ClassInfos
  import opened ClassRegistry
  import opened RWBuffers
  import opened RecordFormat
  import opened RecordParse
  import opened RecordRoundTrip
  import opened ObjectWalkers
  import opened KernelBuffers

  /** A position with every key before it below `key` and every key from it
      on above `key` is the lower bound, and holds no key equal to `key`. */
  lemma {:induction false} LowerBoundBetween(keys: seq<U64>, key: U64, p: nat)
    requires p <= |keys|
    requires forall i :: 0 <= i < p ==> keys[i] < key
    requires forall i :: p <= i < |keys| ==> keys[i] > key
    ensures LowerBound(keys, key) == p
  {
    if p > 0 {
      assert keys[0] < key;
      assert forall i :: 0 <= i < p - 1 ==> keys[1..][i] == keys[i + 1];
      LowerBoundBetween(keys[1..], key, p - 1);
    }
  }

  /** `get_class_info_by_klass`: binary search of the klass-ordered table,
      with 32-bit bounds `l` and `r`. It finds what the registry's lookup
      finds; a klass the table lacks is `UNREACHABLE_CRIT` on the device
      and `None` here. */
  method GetClassInfoByKlass(infos: seq<ClassRecord>, order: seq<nat>, klass: U64) returns (found: Option<ClassRecord>)
    requires IsOrdering(infos, order) && StrictlySorted(KlassKeys(infos, order)) && |order| < U32_MOD
    ensures found == LookupKlass(infos, order, klass)
  {
    ghost var keys := KlassKeys(infos, order);
    var l: nat, r: nat := 0, |order|;
    while l < r
      invariant l <= r <= |order|
      invariant forall i :: 0 <= i < l ==> keys[i] < klass
      invariant forall i :: r <= i < |order| ==> keys[i] > klass
      decreases r - l
    {
      var m := (r - l) / 2 + l;
      var info := infos[order[m]];
      if info.klass == klass {
        LowerBoundOfSorted(keys, klass, m);
        return Some(info);
      } else if info.klass < klass {
        l := m + 1;
      } else {
        r := m;
      }
    }
    LowerBoundBetween(keys, klass, l);
    return None;
  }

  /** On a valid registry the device's search finds exactly the registered
      record with the klass, and nothing when none has it. */
  lemma {:induction false} DeviceLookupFinds(infos: seq<ClassRecord>, order: seq<nat>, sig2id: map<seq<char>, int>,
                                             klass: U64, j: nat)
    requires CoreValid(infos, order, sig2id)
    ensures j < |infos| && infos[j].klass == klass ==> Info(RegistryClasses(infos, order), klass) == Some(infos[j])
    ensures Info(RegistryClasses(infos, order), klass).Some? ==>
              Info(RegistryClasses(infos, order), klass).value.klass == klass
  {
    LookupKlassFinds(infos, order, sig2id, klass, j);
  }

  /** An enum record: the class id, the enum flags and the ordinal. */
  lemma EnumRecShape(c: Classes, b: nat, o: JObj, eid: int, info: ClassRecord)
    requires o.Enum? && Encodable(c, o, eid) && info == Info(c, o.klass).value
    ensures Rec(c, b, o, eid) == LE16(info.id) + LE16(ENUM_CODE) + LE32(o.ordinal)
  {
  }

  /** `se_output_t`: the length of the serialized bytes and where on the
      host they were copied. */
  datatype SeOutput = SeOutput(length: nat, hOutput: U64)

  class DeviceSerializer {
    /** `meta_idx`: the registered records and the klass-ordered table of
        their indices. */
    const infos: seq<ClassRecord>
    const order: seq<nat>
    /** The same tables as the codec sees them. */
    ghost const c: Classes
    /** `ctx->outbuf`. */
    const b: DeviceBuffer

    /** The tables the device searches are a sorted permutation of the
        records, with 32-bit positions, and the search finds what the
        codec's lookup finds; the output buffer is 8-aligned. */
    ghost predicate Valid()
    {
      IsOrdering(infos, order) && StrictlySorted(KlassKeys(infos, order)) && |order| < U32_MOD
      && c.infos == infos
      && (forall k: U64 {:trigger LookupKlass(infos, order, k)} :: LookupKlass(infos, order, k) == Info(c, k))
      && b.addr % 8 == 0
    }

    /** The tables registered by `register_class_infos` and the output
        buffer `do_serialize` sets up, its write pointer at `start`. */
    constructor (infos: seq<ClassRecord>, order: seq<nat>, out: array<Byte>, addr: nat, start: nat)
      requires IsOrdering(infos, order) && StrictlySorted(KlassKeys(infos, order)) && |order| < U32_MOD
      requires addr % 8 == 0
      ensures Valid() && this.infos == infos && this.order == order && c == RegistryClasses(infos, order)
      ensures b.mem == out && b.addr == addr && b.cur == start && fresh(b)
    {
      this.infos := infos;
      this.order := order;
      c := RegistryClasses(infos, order);
      b := new DeviceBuffer(out, addr, out.Length, start);
    }

    /** `fill_next_align_8` on the aligned buffer: the padding the record
        format uses for the offset. */
    method Align()
      requires Valid() && b.cur + Pad8(b.cur) <= b.mem.Length
      modifies b, b.mem
      ensures b.mem[..] == Splice(old(b.mem[..]), old(b.cur), Zeros(Pad8(old(b.cur))))
      ensures b.cur == old(b.cur) + Pad8(old(b.cur)) && b.cur % 8 == 0
    {
      Pad8Shift(b.addr / 8, b.cur);
      b.FillNextAlign8();
    }

    /** `put_u32`. */
    method PutU32(x: int)
      requires b.cur + 4 <= b.mem.Length
      modifies b, b.mem
      ensures b.mem[..] == Splice(old(b.mem[..]), old(b.cur), LE32(x)) && b.cur == old(b.cur) + 4
    {
      Pow256Widths();
      b.PutU(x % U32_MOD, 4);
    }

    /** `put_u16(id)` then `put_u16(flag)`. */
    method PutHeader(id: int, flag: nat)
      requires b.cur + 4 <= b.mem.Length
      modifies b, b.mem
      ensures b.mem[..] == Splice(old(b.mem[..]), old(b.cur), LE16(id) + LE16(flag)) && b.cur == old(b.cur) + 4
    {
      ghost var a := b.mem[..];
      Pow256Widths();
      b.PutU(id % U16_MOD, 2);
      SpliceThenNext(a, old(b.cur), LE16(id), LE16(flag));
      b.PutU(flag % U16_MOD, 2);
    }

    /** The start of `_do_serialize_object`: the header, then the padding
        up to `obj_base`. */
    method PutObjectHeader(id: int)
      requires Valid() && b.cur + 4 + Pad8(b.cur + 4) <= b.mem.Length
      modifies b, b.mem
      ensures b.mem[..] == Splice(old(b.mem[..]), old(b.cur), LE16(id) + LE16(OBJECT_CODE) + Zeros(Pad8(old(b.cur) + 4)))
      ensures b.cur == old(b.cur) + 4 + Pad8(old(b.cur) + 4)
    {
      ghost var a := b.mem[..];
      ghost var base := b.cur;
      PutHeader(id, OBJECT_CODE);
      SpliceThenNext(a, base, LE16(id) + LE16(OBJECT_CODE), Zeros(Pad8(base + 4)));
      Align();
    }

    /** The start of `_do_serialize_array`: the header, the u32 length,
        then the padding up to the elements. */
    method PutArrayHeader(id: int, length: nat)
      requires Valid() && b.cur + 8 + Pad8(b.cur + 8) <= b.mem.Length
      modifies b, b.mem
      ensures b.mem[..] == Splice(old(b.mem[..]), old(b.cur),
                                  LE16(id) + LE16(ARRAY_CODE) + LE32(length) + Zeros(Pad8(old(b.cur) + 8)))
      ensures b.cur == old(b.cur) + 8 + Pad8(old(b.cur) + 8)
    {
      ghost var a := b.mem[..];
      ghost var base := b.cur;
      ghost var w := LE16(id) + LE16(ARRAY_CODE);
      PutHeader(id, ARRAY_CODE);
      SpliceThenNext(a, base, w, LE32(length));
      PutU32(length);
      SpliceThenNext(a, base, w + LE32(length), Zeros(Pad8(base + 8)));
      Align();
    }

    /** `_do_serialize_recur(h_object, expected_id)`: aligns the write
        pointer, writes the record of `o` there and returns its offset. A
        null reference is written under the expected id; any other object
        under the id of the class the search finds for its klass. */
    method Recur(o: JObj, eid: int) returns (base: nat)
      requires Valid() && Encodable(c, o, eid)
      requires b.cur + Pad8(b.cur) + |Rec(c, b.cur + Pad8(b.cur), o, eid)| <= b.mem.Length
      modifies b, b.mem
      ensures base == old(b.cur) + Pad8(old(b.cur))
      ensures b.mem[..] == Splice(old(b.mem[..]), old(b.cur), Zeros(Pad8(old(b.cur))) + Rec(c, base, o, eid))
      ensures b.cur == base + |Rec(c, base, o, eid)|
      decreases o, 4
    {
      ghost var a := b.mem[..];
      ghost var start := b.cur;
      Align();
      base := b.cur;
      ghost var mid := b.mem[..];
      if o.Null? {
        PutHeader(eid, NULL_CODE);
      } else {
        SerializeNonNull(o, eid);
      }
      assert b.mem[..] == Splice(mid, base, Rec(c, base, o, eid));
      SpliceThenNext(a, start, Zeros(Pad8(start)), Rec(c, base, o, eid));
    }

    /** The dispatch of `_do_serialize_recur` on a non-null object: the
        class the search finds for its klass decides between an enum
        record, an instance and an array. */
    method SerializeNonNull(o: JObj, eid: int)
      requires Valid() && !o.Null? && Encodable(c, o, eid)
      requires b.cur % 8 == 0 && b.cur + |Rec(c, b.cur, o, eid)| <= b.mem.Length
      modifies b, b.mem
      ensures b.mem[..] == Splice(old(b.mem[..]), old(b.cur), Rec(c, old(b.cur), o, eid))
      ensures b.cur == old(b.cur) + |Rec(c, old(b.cur), o, eid)|
      decreases o, 3
    {
      var found := GetClassInfoByKlass(infos, order, o.klass);
      var info := found.value;
      if IsEnum(info) {
        ghost var s := b.mem[..];
        ghost var base := b.cur;
        EnumRecShape(c, base, o, eid, info);
        PutHeader(info.id, ENUM_CODE);
        SpliceThenNext(s, base, LE16(info.id) + LE16(ENUM_CODE), LE32(o.ordinal));
        PutU32(o.ordinal);
      } else if IsObject(info) {
        SerializeObject(o, eid, info);
      } else if IsArray(info) {
        SerializeArray(o, eid, info);
      } else {
        assert false;
      }
    }

    /** A member's record appended after what is written so far at `base`
        (`h + x`): `_do_serialize_recur` on the member. */
    method Append(e: JObj, id: int, ghost a: seq<Byte>, ghost base: nat, ghost h: seq<Byte>, ghost x: seq<Byte>)
      returns (at: nat)
      requires Valid() && Encodable(c, e, id) && |a| == b.mem.Length && base + |h| + |x| <= |a|
      requires b.mem[..] == Splice(a, base, h + x) && b.cur == base + |h| + |x|
      requires b.cur + Pad8(b.cur) + |Rec(c, b.cur + Pad8(b.cur), e, id)| <= b.mem.Length
      modifies b, b.mem
      ensures at == old(b.cur) + Pad8(old(b.cur))
      ensures b.mem[..] == Splice(a, base, h + (x + Zeros(Pad8(old(b.cur))) + Rec(c, at, e, id)))
      ensures b.cur == at + |Rec(c, at, e, id)|
      decreases e, 5
    {
      ghost var q := b.cur;
      at := Recur(e, id);
      AppendAt(a, base, h, x, q, Zeros(Pad8(q)), Rec(c, at, e, id));
    }

    /** `_do_serialize_object`: the header, `obj_size - header_size` bytes
        of the body copied from the object, then for each reference field
        the member's record appended and its offset written over the slot
        with `put_u32_at`. */
    method SerializeObject(o: JObj, eid: int, info: ClassRecord)
      requires Valid() && o.Instance? && Encodable(c, o, eid) && info == Info(c, o.klass).value
      requires b.cur % 8 == 0 && b.cur + |Rec(c, b.cur, o, eid)| <= b.mem.Length
      modifies b, b.mem
      ensures b.mem[..] == Splice(old(b.mem[..]), old(b.cur), Rec(c, old(b.cur), o, eid))
      ensures b.cur == old(b.cur) + |Rec(c, old(b.cur), o, eid)|
      decreases o, 2
    {
      ghost var a := b.mem[..];
      var base := b.cur;
      InstanceRecShape(c, base, o, eid, info);
      PutObjectHeader(info.id);
      var objBase := b.cur;
      ghost var h := LE16(info.id) + LE16(OBJECT_CODE) + Zeros(Pad8(base + 4));
      SpliceThenNext(a, base, h, o.body);
      b.Put(o.body);
      assert h + o.body + [] == h + o.body;
      SerializeFields(o, info, base, objBase, a, h);
    }

    /** The field loop of `_do_serialize_object`: primitive fields are
        skipped, reference fields serialized in order. */
    method SerializeFields(o: JObj, info: ClassRecord, base: nat, objBase: nat, ghost a: seq<Byte>, ghost h: seq<Byte>)
      requires Valid() && o.Instance? && InstanceOk(c, o, info) && |o.refs| == info.nNonStatic
      requires |h| == 4 + Pad8(base + 4) && objBase == base + |h| && |a| == b.mem.Length
      requires base + |h| + |o.body| + |FieldsOut(c, base, o, info, |o.refs|).1| <= b.mem.Length
      requires b.mem[..] == Splice(a, base, h + FieldsOut(c, base, o, info, 0).0 + FieldsOut(c, base, o, info, 0).1)
      requires b.cur == objBase + |o.body| + |FieldsOut(c, base, o, info, 0).1|
      modifies b, b.mem
      ensures b.mem[..] == Splice(a, base, h + FieldsOut(c, base, o, info, |o.refs|).0 + FieldsOut(c, base, o, info, |o.refs|).1)
      ensures b.cur == objBase + |o.body| + |FieldsOut(c, base, o, info, |o.refs|).1|
      decreases o, 1
    {
      for i := 0 to info.nNonStatic
        invariant base + |h| + |o.body| + |FieldsOut(c, base, o, info, i).1| <= b.mem.Length
        invariant b.mem[..] == Splice(a, base, h + FieldsOut(c, base, o, info, i).0 + FieldsOut(c, base, o, info, i).1)
        invariant b.cur == objBase + |o.body| + |FieldsOut(c, base, o, info, i).1|
      {
        if IsPrimitiveType(info.fields[i].typ) {
          FieldsOutPrimStep(c, base, o, info, i + 1);
        } else {
          SerializeField(o, info, base, objBase, i, a, h);
        }
      }
    }

    /** One reference field: the member's record appended, then its offset
        written over the slot at `obj_base + f->offset`. */
    method SerializeField(o: JObj, info: ClassRecord, base: nat, objBase: nat, i: nat, ghost a: seq<Byte>, ghost h: seq<Byte>)
      requires Valid() && o.Instance? && InstanceOk(c, o, info) && i < |o.refs| && !IsPrimitiveType(info.fields[i].typ)
      requires |h| == 4 + Pad8(base + 4) && objBase == base + |h| && |a| == b.mem.Length
      requires base + |h| + |o.body| + |FieldsOut(c, base, o, info, |o.refs|).1| <= b.mem.Length
      requires base + |h| + |o.body| + |FieldsOut(c, base, o, info, i).1| <= b.mem.Length
      requires b.mem[..] == Splice(a, base, h + FieldsOut(c, base, o, info, i).0 + FieldsOut(c, base, o, info, i).1)
      requires b.cur == base + |h| + |o.body| + |FieldsOut(c, base, o, info, i).1|
      modifies b, b.mem
      ensures base + |h| + |o.body| + |FieldsOut(c, base, o, info, i + 1).1| <= b.mem.Length
      ensures b.mem[..] == Splice(a, base, h + FieldsOut(c, base, o, info, i + 1).0 + FieldsOut(c, base, o, info, i + 1).1)
      ensures b.cur == base + |h| + |o.body| + |FieldsOut(c, base, o, info, i + 1).1|
      decreases o, 0
    {
      var f := info.fields[i];
      ghost var prev := FieldsOut(c, base, o, info, i);
      ghost var q := b.cur;
      RefFieldStep(c, base, o, info, i, q, b.mem.Length);
      ghost var next := FieldsOut(c, base, o, info, i + 1);
      var fOffset := objBase + f.offset;
      var memberOffset := Append(o.refs[i], f.id, a, base, h + prev.0, prev.1);
      assert h + prev.0 + (prev.1 + Zeros(Pad8(q)) + Rec(c, memberOffset, o.refs[i], f.id)) == h + prev.0 + next.1;
      ghost var mid := b.mem[..];
      ghost var patch := LE32(memberOffset);
      Pow256Widths();
      assert patch == LE(memberOffset % U32_MOD, 4);
      b.PutUAt(memberOffset % U32_MOD, 4, fOffset);
      assert next.0 == Splice(prev.0, f.offset, patch);
      FieldPatched(a, base, h, prev.0, next.1, f.offset, patch, mid, b.mem[..]);
    }

    /** `_do_serialize_array`: the header with the length, then each
        element's record in order, or `length * type_size` raw bytes. */
    method SerializeArray(o: JObj, eid: int, info: ClassRecord)
      requires Valid() && o.Array? && Encodable(c, o, eid) && info == Info(c, o.klass).value
      requires b.cur % 8 == 0 && b.cur + |Rec(c, b.cur, o, eid)| <= b.mem.Length
      modifies b, b.mem
      ensures b.mem[..] == Splice(old(b.mem[..]), old(b.cur), Rec(c, old(b.cur), o, eid))
      ensures b.cur == old(b.cur) + |Rec(c, old(b.cur), o, eid)|
      decreases o, 2
    {
      ghost var a := b.mem[..];
      var base := b.cur;
      var length := o.length;
      PutArrayHeader(info.id, length);
      ghost var h := LE16(info.id) + LE16(ARRAY_CODE) + LE32(length) + Zeros(Pad8(base + 8));
      var elem := info.fields[0];
      if IsReferenceType(elem.typ) {
        RefArrayShape(c, base, o, eid, info);
        assert h + [] == h;
        SerializeElems(o, info, base, a, h);
      } else if IsPrimitiveType(elem.typ) {
        PrimArrayRecShape(c, base, o, eid, info);
        assert |o.raw| == length * TypeSize(elem.typ);
        SpliceThenNext(a, base, h, o.raw);
        b.Put(o.raw);
      } else {
        assert false;
      }
    }

    /** The element loop of `_do_serialize_array` for references: each
        element's record, in index order. */
    method SerializeElems(o: JObj, info: ClassRecord, base: nat, ghost a: seq<Byte>, ghost h: seq<Byte>)
      requires Valid() && o.Array? && HasElemType(info) && ArrayOk(c, o, info) && IsReferenceType(info.fields[0].typ)
      requires |h| == ElemsStart(base) - base && |a| == b.mem.Length
      requires ElemsStart(base) + |ElemsOut(c, base, o, info, |o.elems|)| <= b.mem.Length
      requires b.mem[..] == Splice(a, base, h + ElemsOut(c, base, o, info, 0))
      requires b.cur == ElemsStart(base) + |ElemsOut(c, base, o, info, 0)|
      modifies b, b.mem
      ensures b.mem[..] == Splice(a, base, h + ElemsOut(c, base, o, info, |o.elems|))
      ensures b.cur == ElemsStart(base) + |ElemsOut(c, base, o, info, |o.elems|)|
      decreases o, 1
    {
      for i := 0 to |o.elems|
        invariant ElemsStart(base) + |ElemsOut(c, base, o, info, i)| <= b.mem.Length
        invariant b.mem[..] == Splice(a, base, h + ElemsOut(c, base, o, info, i))
        invariant b.cur == ElemsStart(base) + |ElemsOut(c, base, o, info, i)|
      {
        ElemsOutGrows(c, base, o, info, i + 1, |o.elems|);
        SerializeElem(o, info, base, i, a, h);
      }
    }

    /** One element of a reference array: its record, appended. */
    method SerializeElem(o: JObj, info: ClassRecord, base: nat, i: nat, ghost a: seq<Byte>, ghost h: seq<Byte>)
      requires Valid() && o.Array? && HasElemType(info) && ArrayOk(c, o, info) && IsReferenceType(info.fields[0].typ)
      requires i < |o.elems| && |h| == ElemsStart(base) - base && |a| == b.mem.Length
      requires ElemsStart(base) + |ElemsOut(c, base, o, info, i + 1)| <= b.mem.Length
      requires b.mem[..] == Splice(a, base, h + ElemsOut(c, base, o, info, i))
      requires b.cur == ElemsStart(base) + |ElemsOut(c, base, o, info, i)|
      modifies b, b.mem
      ensures b.mem[..] == Splice(a, base, h + ElemsOut(c, base, o, info, i + 1))
      ensures b.cur == ElemsStart(base) + |ElemsOut(c, base, o, info, i + 1)|
      decreases o, 0
    {
      ElemMember(c, o, info, i);
      ElemsOutStep(c, base, o, info, i + 1, b.cur);
      var _ := Append(o.elems[i], info.fields[0].id, a, base, h, ElemsOut(c, base, o, info, i));
    }

    /** `_do_serialize` on a buffer whose write pointer `do_serialize` set
        to `OBJECT_DATA_OFFSET`: the root's record with no expected id, then
        `total_length = cur_p - p` stored in the meta header and returned. */
    method SerializeRoot(o: JObj) returns (total: nat)
      requires Valid() && b.cur == OBJECT_DATA_OFFSET && b.mem.Length < U64_MOD
      requires Encodable(c, o, UNREGISTERED_CLASS_ID)
      requires OBJECT_DATA_OFFSET + |Rec(c, OBJECT_DATA_OFFSET, o, UNREGISTERED_CLASS_ID)| <= b.mem.Length
      modifies b, b.mem
      ensures total == OBJECT_DATA_OFFSET + |Rec(c, OBJECT_DATA_OFFSET, o, UNREGISTERED_CLASS_ID)|
      ensures b.mem[..] == Serialized(old(b.mem[..]), c, o)
    {
      ghost var a := b.mem[..];
      ghost var rec := Rec(c, OBJECT_DATA_OFFSET, o, UNREGISTERED_CLASS_ID);
      assert Pad8(OBJECT_DATA_OFFSET) == 0;
      var root := Recur(o, UNREGISTERED_CLASS_ID);
      assert Zeros(0) + rec == rec;
      assert b.mem[..] == Splice(a, OBJECT_DATA_OFFSET, rec);
      total := b.cur;
      Pow256Widths();
      b.PutUAt(total, 8, 0);
    }
  }

  /** `do_serialize`: the output buffer's write pointer set past the meta
      header, the object serialized, and the first `length` bytes copied
      to the host at `hOutput`. The buffer holds what the host walker
      writes for the object. */
  method DoSerialize(infos: seq<ClassRecord>, order: seq<nat>, out: array<Byte>, addr: nat, o: JObj, hOutput: U64)
    returns (res: SeOutput, copied: seq<Byte>)
    requires IsOrdering(infos, order) && StrictlySorted(KlassKeys(infos, order)) && |order| < U32_MOD
    requires addr % 8 == 0 && out.Length < U64_MOD
    requires Encodable(RegistryClasses(infos, order), o, UNREGISTERED_CLASS_ID)
    requires OBJECT_DATA_OFFSET + |Rec(RegistryClasses(infos, order), OBJECT_DATA_OFFSET, o, UNREGISTERED_CLASS_ID)| <= out.Length
    modifies out
    ensures res.hOutput == hOutput
    ensures res.length == OBJECT_DATA_OFFSET + |Rec(RegistryClasses(infos, order), OBJECT_DATA_OFFSET, o, UNREGISTERED_CLASS_ID)|
    ensures out[..] == Serialized(old(out[..]), RegistryClasses(infos, order), o)
    ensures copied == out[..res.length]
  {
    var s := new DeviceSerializer(infos, order, out, addr, OBJECT_DATA_OFFSET);
    var length := s.SerializeRoot(o);
    copied := out[..length];
    res := SeOutput(length, hOutput);
  }

  /** The request and reply payloads of the message queue: an id and the
      `se_input_t` / `se_output_t` they carry. */
  datatype Request = Request(id: U64, root: JObj)
  datatype Reply = Reply(id: U64, out: SeOutput)

  /** `comch_cons_comp`: serialize the object a request names and answer
      under the request's id. */
  method ConsumeCompletion(infos: seq<ClassRecord>, order: seq<nat>, out: array<Byte>, addr: nat,
                           req: Request, hOutput: U64) returns (reply: Reply, copied: seq<Byte>)
    requires IsOrdering(infos, order) && StrictlySorted(KlassKeys(infos, order)) && |order| < U32_MOD
    requires addr % 8 == 0 && out.Length < U64_MOD
    requires Encodable(RegistryClasses(infos, order), req.root, UNREGISTERED_CLASS_ID)
    requires OBJECT_DATA_OFFSET + |Rec(RegistryClasses(infos, order), OBJECT_DATA_OFFSET, req.root, UNREGISTERED_CLASS_ID)|
             <= out.Length
    modifies out
    ensures reply.id == req.id && reply.out.hOutput == hOutput
    ensures reply.out.length == OBJECT_DATA_OFFSET
                                + |Rec(RegistryClasses(infos, order), OBJECT_DATA_OFFSET, req.root, UNREGISTERED_CLASS_ID)|
    ensures copied == Serialized(old(out[..]), RegistryClasses(infos, order), req.root)[..reply.out.length]
  {
    var res;
    res, copied := DoSerialize(infos, order, out, addr, req.root, hOutput);
    reply := Reply(req.id, res);
  }

  /** What the host receives from the device: the `length` bytes copied
      hold the total length in the meta header, and parsing them at
      `OBJECT_DATA_OFFSET` gives the root's view back, ending exactly at the
      total length. */
  lemma {:induction false} CopiedParses(a: seq<Byte>, c: Classes, o: JObj)
    requires Sound(c) && Encodable(c, o, UNREGISTERED_CLASS_ID)
    requires OBJECT_DATA_OFFSET + |Rec(c, OBJECT_DATA_OFFSET, o, UNREGISTERED_CLASS_ID)| <= |a| < U64_MOD
    ensures var total := OBJECT_DATA_OFFSET + |Rec(c, OBJECT_DATA_OFFSET, o, UNREGISTERED_CLASS_ID)|;
            var copied := Serialized(a, c, o)[..total];
            FromLE(copied[..OBJECT_DATA_OFFSET]) == total
            && Parse(c.infos, copied, OBJECT_DATA_OFFSET) == Ok((View(c, o, UNREGISTERED_CLASS_ID), total))
  {
    var rec := Rec(c, OBJECT_DATA_OFFSET, o, UNREGISTERED_CLASS_ID);
    var total := OBJECT_DATA_OFFSET + |rec|;
    var bytes := Serialized(a, c, o);
    var copied := bytes[..total];
    SerializedLayout(a, c, o);
    assert copied[..OBJECT_DATA_OFFSET] == bytes[..OBJECT_DATA_OFFSET];
    assert copied[OBJECT_DATA_OFFSET..OBJECT_DATA_OFFSET + |rec|] == bytes[OBJECT_DATA_OFFSET..OBJECT_DATA_OFFSET + |rec|];
    assert Pad8(OBJECT_DATA_OFFSET) == 0;
    RoundTrip(c, copied, OBJECT_DATA_OFFSET, o, UNREGISTERED_CLASS_ID);
  }
}
