/**
 * `ObjectWalker`: serializes a Java object graph into a byte buffer, one
 * record per object (see `RecordFormat`). The walker writes through an
 * `RWBuffer` cursor; each method below is proved to leave exactly the
 * record `Rec` behind the cursor's old position, so that the reader's
 * `Parse` gives the object's view back (`SerializedParses`).
 */
module ObjectWalkers {
  import opened Bytes
  import opened BasicTypes
  import opened ClassInfos
  import opened ClassRegistry
  import opened ClassResolvers
  import opened RWBuffers
  import opened RecordFormat
  import opened RecordParse
  import opened RecordRoundTrip
  import opened Wrappers

  /** Appending `z + s` at `at`, right after `h + x`, extends what was
      written at `base`. */
  lemma AppendAt(a: seq<Byte>, base: nat, h: seq<Byte>, x: seq<Byte>, at: nat, z: seq<Byte>, s: seq<Byte>)
    requires at == base + |h| + |x| && at + |z| + |s| <= |a|
    ensures Splice(Splice(a, base, h + x), at, z + s) == Splice(a, base, h + (x + z + s))
  {
    SpliceThenNext(a, base, h + x, z + s);
    assert h + x + (z + s) == h + (x + z + s);
  }

  /** The offset of a member's record written over its slot, at `slotAt`
      inside the body, changes the body and nothing else. */
  lemma PatchSlot(a: seq<Byte>, base: nat, h: seq<Byte>, body: seq<Byte>, t: seq<Byte>, slotAt: nat, slot: nat, v: seq<Byte>)
    requires base + |h| + |body| + |t| <= |a|
    requires slotAt == base + |h| + slot && slot + |v| <= |body|
    ensures Splice(Splice(a, base, h + body + t), slotAt, v) == Splice(a, base, h + Splice(body, slot, v) + t)
  {
    SpliceWithin(a, base, h + body + t, |h| + slot, v);
    SpliceMiddle(h, body, t, slot, v);
  }

  /** The slot patch of a reference field, on the buffer written so far:
      the body with the slot overwritten, then the records after it. */
  lemma FieldPatched(a: seq<Byte>, base: nat, h: seq<Byte>, body: seq<Byte>, tail: seq<Byte>, slot: nat, v: seq<Byte>,
                     mid: seq<Byte>, after: seq<Byte>)
    requires base + |h| + |body| + |tail| <= |a| && slot + |v| <= |body|
    requires mid == Splice(a, base, h + body + tail)
    requires after == Splice(mid, base + |h| + slot, v)
    ensures after == Splice(a, base, h + Splice(body, slot, v) + tail)
  {
    PatchSlot(a, base, h, body, tail, base + |h| + slot, slot, v);
  }

  /** One field of the walk appends nothing or a member record. */
  lemma FieldsOutStepGrows(c: Classes, b: nat, o: JObj, info: ClassRecord, k: nat, j: nat)
    requires o.Instance? && InstanceOk(c, o, info) && j == k + 1 && j <= |o.refs|
    ensures |FieldsOut(c, b, o, info, k).1| <= |FieldsOut(c, b, o, info, j).1|
  {
    if IsPrimitiveType(info.fields[k].typ) {
      FieldsOutPrimStep(c, b, o, info, j);
    } else {
      FieldsOutRefStep(c, b, o, info, j, BodyStart(b) + |o.body| + |FieldsOut(c, b, o, info, k).1|);
    }
  }

  /** The walk over the first i fields only ever appends member records. */
  lemma {:induction false} FieldsOutGrows(c: Classes, b: nat, o: JObj, info: ClassRecord, i: nat, j: nat)
    requires o.Instance? && InstanceOk(c, o, info) && i <= j <= |o.refs|
    ensures |FieldsOut(c, b, o, info, i).1| <= |FieldsOut(c, b, o, info, j).1|
    decreases j
  {
    if i < j {
      var k := j - 1;
      FieldsOutGrows(c, b, o, info, i, k);
      FieldsOutStepGrows(c, b, o, info, k, j);
    }
  }

  /** What the walk of reference field i needs: the member is encodable,
      its slot lies in the body, its record fits in the buffer, and the
      loop's state after the field is the slot patched with the member's
      aligned offset and the member's record appended. */
  lemma RefFieldStep(c: Classes, base: nat, o: JObj, info: ClassRecord, i: nat, q: nat, len: nat)
    requires o.Instance? && InstanceOk(c, o, info) && i < |o.refs| && !IsPrimitiveType(info.fields[i].typ)
    requires q == BodyStart(base) + |o.body| + |FieldsOut(c, base, o, info, i).1|
    requires BodyStart(base) + |o.body| + |FieldsOut(c, base, o, info, |o.refs|).1| <= len
    ensures Encodable(c, o.refs[i], info.fields[i].id) && info.fields[i].offset + 4 <= |o.body|
    ensures q + Pad8(q) + |Rec(c, q + Pad8(q), o.refs[i], info.fields[i].id)| <= len
    ensures BodyStart(base) + |o.body| + |FieldsOut(c, base, o, info, i + 1).1| <= len
    ensures FieldsOut(c, base, o, info, i + 1)
            == (Splice(FieldsOut(c, base, o, info, i).0, info.fields[i].offset, LE32(q + Pad8(q))),
                FieldsOut(c, base, o, info, i).1 + Zeros(Pad8(q)) + Rec(c, q + Pad8(q), o.refs[i], info.fields[i].id))
  {
    RefMember(c, o, info, i);
    FieldsOutRefStep(c, base, o, info, i + 1, q);
    FieldsOutBodyStep(c, base, o, info, i + 1, q);
    FieldsOutGrows(c, base, o, info, i + 1, |o.refs|);
  }

  /** The element records written for the first i elements only grow. */
  lemma {:induction false} ElemsOutGrows(c: Classes, b: nat, o: JObj, info: ClassRecord, i: nat, j: nat)
    requires o.Array? && HasElemType(info) && ArrayOk(c, o, info)
    requires IsReferenceType(info.fields[0].typ) && i <= j <= |o.elems|
    ensures |ElemsOut(c, b, o, info, i)| <= |ElemsOut(c, b, o, info, j)|
    decreases j
  {
    if i < j {
      ElemsOutGrows(c, b, o, info, i, j - 1);
      ElemsOutStep(c, b, o, info, j, ElemsStart(b) + |ElemsOut(c, b, o, info, j - 1)|);
    }
  }

  /** An instance record: its header, then the fields' loop result. */
  lemma InstanceRecShape(c: Classes, b: nat, o: JObj, eid: int, info: ClassRecord)
    requires o.Instance? && Encodable(c, o, eid) && info == Info(c, o.klass).value
    ensures !IsEnum(info) && IsObject(info) && InstanceOk(c, o, info)
    ensures |o.refs| == info.nNonStatic && |o.body| == ObjectBodySize(info)
    ensures Rec(c, b, o, eid) == LE16(info.id) + LE16(OBJECT_CODE) + Zeros(Pad8(b + 4))
                                 + FieldsOut(c, b, o, info, |o.refs|).0 + FieldsOut(c, b, o, info, |o.refs|).1
  {
  }

  /** A primitive array record: its header, then the raw element bytes. */
  lemma PrimArrayRecShape(c: Classes, b: nat, o: JObj, eid: int, info: ClassRecord)
    requires o.Array? && Encodable(c, o, eid) && info == Info(c, o.klass).value
    requires !IsReferenceType(info.fields[0].typ)
    ensures HasElemType(info) && ArrayOk(c, o, info) && IsPrimitiveType(info.fields[0].typ)
    ensures Rec(c, b, o, eid) == LE16(info.id) + LE16(ARRAY_CODE) + LE32(o.length) + Zeros(Pad8(b + 8)) + o.raw
  {
  }

  /** A reference slot of an instance holds an encodable member. */
  lemma RefMember(c: Classes, o: JObj, info: ClassRecord, i: nat)
    requires o.Instance? && InstanceOk(c, o, info) && i < |o.refs|
    requires !IsPrimitiveType(info.fields[i].typ)
    ensures IsReferenceType(info.fields[i].typ) && Encodable(c, o.refs[i], info.fields[i].id)
  {
  }

  /** An element of a reference array is encodable under the element
      class's id. */
  lemma ElemMember(c: Classes, o: JObj, info: ClassRecord, i: nat)
    requires o.Array? && HasElemType(info) && ArrayOk(c, o, info) && IsReferenceType(info.fields[0].typ)
    requires i < |o.elems|
    ensures Encodable(c, o.elems[i], info.fields[0].id)
  {
  }

  class ObjectWalker {
    /** The resolver's tables: its records by id and its lookup by klass.
        The walker only looks classes up, so they stay as they were when
        the walker was made. */
    const c: Classes
    /** The output buffer with its write cursor. */
    const b: RWBuffer

    constructor (r: ClassResolver, out: array<Byte>)
      requires r.Valid()
      ensures c == RegistryClasses(r.infoById, r.infoByKlass) && b.buf == out && b.off == 0 && fresh(b)
      ensures forall k: U64 :: Info(c, k) == r.GetByKlass(k)
    {
      c := RegistryClasses(r.infoById, r.infoByKlass);
      b := new RWBuffer(out);
    }

    /** `put<uint32_t>` at the cursor. */
    method PutU32(x: int)
      requires b.off + 4 <= b.buf.Length
      modifies b, b.buf
      ensures b.buf[..] == Splice(old(b.buf[..]), old(b.off), LE32(x)) && b.off == old(b.off) + 4
    {
      Pow256Widths();
      b.PutInt(x % U32_MOD, 4);
    }

    /** The two words every record starts with: `put<int16_t>(id)` and
        `put<uint16_t>(flag)`. */
    method PutHeader(id: int, flag: nat)
      requires b.off + 4 <= b.buf.Length
      modifies b, b.buf
      ensures b.buf[..] == Splice(old(b.buf[..]), old(b.off), LE16(id) + LE16(flag)) && b.off == old(b.off) + 4
    {
      ghost var a := b.buf[..];
      Pow256Widths();
      b.PutInt(id % U16_MOD, 2);
      SpliceThenNext(a, old(b.off), LE16(id), LE16(flag));
      b.PutInt(flag % U16_MOD, 2);
    }

    /** The start of an instance record: the header, then zeros up to
        the next multiple of 8, where the body goes. */
    method PutObjectHeader(id: int)
      requires b.off + 4 + Pad8(b.off + 4) <= b.buf.Length
      modifies b, b.buf
      ensures b.buf[..] == Splice(old(b.buf[..]), old(b.off), LE16(id) + LE16(OBJECT_CODE) + Zeros(Pad8(old(b.off) + 4)))
      ensures b.off == old(b.off) + 4 + Pad8(old(b.off) + 4)
    {
      ghost var a := b.buf[..];
      ghost var base := b.off;
      PutHeader(id, OBJECT_CODE);
      SpliceThenNext(a, base, LE16(id) + LE16(OBJECT_CODE), Zeros(Pad8(base + 4)));
      b.FillNextAlign8();
    }

    /** The start of an array record: the header, the u32 length, then
        zeros up to the next multiple of 8, where the elements go. */
    method PutArrayHeader(id: int, length: nat)
      requires b.off + 8 + Pad8(b.off + 8) <= b.buf.Length
      modifies b, b.buf
      ensures b.buf[..] == Splice(old(b.buf[..]), old(b.off),
                                  LE16(id) + LE16(ARRAY_CODE) + LE32(length) + Zeros(Pad8(old(b.off) + 8)))
      ensures b.off == old(b.off) + 8 + Pad8(old(b.off) + 8)
    {
      ghost var a := b.buf[..];
      ghost var base := b.off;
      ghost var w := LE16(id) + LE16(ARRAY_CODE);
      PutHeader(id, ARRAY_CODE);
      SpliceThenNext(a, base, w, LE32(length));
      PutU32(length);
      SpliceThenNext(a, base, w + LE32(length), Zeros(Pad8(base + 8)));
      b.FillNextAlign8();
    }

    /** `walk(obj, expected_id)`: aligns the cursor to 8, writes the record
        of `o` there and returns its offset. A null reference is written
        under the id the parent expects; any other object is written under
        its class's id, dispatched on the class kind. */
    method Walk(o: JObj, eid: int) returns (base: nat)
      requires Encodable(c, o, eid)
      requires b.off + Pad8(b.off) + |Rec(c, b.off + Pad8(b.off), o, eid)| <= b.buf.Length
      modifies b, b.buf
      ensures base == old(b.off) + Pad8(old(b.off))
      ensures b.buf[..] == Splice(old(b.buf[..]), old(b.off), Zeros(Pad8(old(b.off))) + Rec(c, base, o, eid))
      ensures b.off == base + |Rec(c, base, o, eid)|
      decreases o, 3
    {
      ghost var a := b.buf[..];
      ghost var start := b.off;
      b.FillNextAlign8();
      base := b.off;
      ghost var rec := Rec(c, base, o, eid);
      if o.Null? {
        PutHeader(eid, NULL_CODE);
      } else {
        var found := Info(c, o.klass);
        var info := found.value;
        if IsEnum(info) {
          ghost var s := b.buf[..];
          PutHeader(info.id, ENUM_CODE);
          SpliceThenNext(s, base, LE16(info.id) + LE16(ENUM_CODE), LE32(o.ordinal));
          PutU32(o.ordinal);
          assert b.off % 8 == 0;
        } else if IsObject(info) {
          WalkObject(o, eid, info);
        } else if IsArray(info) {
          WalkArray(o, eid, info);
        } else {
          assert false;
        }
      }
      SpliceThenNext(a, start, Zeros(Pad8(start)), rec);
    }

    /** A member's record appended after what is written so far at
        `base` (`h + x`): `walk` on the member, which aligns first. */
    method Append(e: JObj, id: int, ghost a: seq<Byte>, ghost base: nat, ghost h: seq<Byte>, ghost x: seq<Byte>)
      returns (at: nat)
      requires Encodable(c, e, id) && |a| == b.buf.Length && base + |h| + |x| <= |a|
      requires b.buf[..] == Splice(a, base, h + x) && b.off == base + |h| + |x|
      requires b.off + Pad8(b.off) + |Rec(c, b.off + Pad8(b.off), e, id)| <= b.buf.Length
      modifies b, b.buf
      ensures at == old(b.off) + Pad8(old(b.off))
      ensures b.buf[..] == Splice(a, base, h + (x + Zeros(Pad8(old(b.off))) + Rec(c, at, e, id)))
      ensures b.off == at + |Rec(c, at, e, id)|
      decreases e, 4
    {
      ghost var q := b.off;
      at := Walk(e, id);
      AppendAt(a, base, h, x, q, Zeros(Pad8(q)), Rec(c, at, e, id));
    }

    /** `do_walk_object`: the header, the body copied verbatim, then for
        each reference field the member's record appended and its offset
        written over the slot. */
    method WalkObject(o: JObj, eid: int, info: ClassRecord)
      requires o.Instance? && Encodable(c, o, eid) && info == Info(c, o.klass).value
      requires b.off % 8 == 0 && b.off + |Rec(c, b.off, o, eid)| <= b.buf.Length
      modifies b, b.buf
      ensures b.buf[..] == Splice(old(b.buf[..]), old(b.off), Rec(c, old(b.off), o, eid))
      ensures b.off == old(b.off) + |Rec(c, old(b.off), o, eid)|
      decreases o, 2
    {
      ghost var a := b.buf[..];
      var base := b.off;
      InstanceRecShape(c, base, o, eid, info);
      PutObjectHeader(info.id);
      var objBase := b.off;
      ghost var h := LE16(info.id) + LE16(OBJECT_CODE) + Zeros(Pad8(base + 4));
      SpliceThenNext(a, base, h, o.body);
      b.Put(o.body);
      assert h + o.body + [] == h + o.body;
      WalkFields(o, info, base, objBase, a, h);
    }

    /** The field loop of `do_walk_object`: a reference field gets its
        member's record appended and its slot patched; a primitive field
        stays as the body has it. */
    method WalkFields(o: JObj, info: ClassRecord, base: nat, objBase: nat, ghost a: seq<Byte>, ghost h: seq<Byte>)
      requires o.Instance? && InstanceOk(c, o, info) && |o.refs| == info.nNonStatic
      requires |h| == 4 + Pad8(base + 4) && objBase == base + |h| && |a| == b.buf.Length
      requires base + |h| + |o.body| + |FieldsOut(c, base, o, info, |o.refs|).1| <= b.buf.Length
      requires b.buf[..] == Splice(a, base, h + FieldsOut(c, base, o, info, 0).0 + FieldsOut(c, base, o, info, 0).1)
      requires b.off == objBase + |o.body| + |FieldsOut(c, base, o, info, 0).1|
      modifies b, b.buf
      ensures b.buf[..] == Splice(a, base, h + FieldsOut(c, base, o, info, |o.refs|).0 + FieldsOut(c, base, o, info, |o.refs|).1)
      ensures b.off == objBase + |o.body| + |FieldsOut(c, base, o, info, |o.refs|).1|
      decreases o, 1
    {
      for i := 0 to info.nNonStatic
        invariant base + |h| + |o.body| + |FieldsOut(c, base, o, info, i).1| <= b.buf.Length
        invariant b.buf[..] == Splice(a, base, h + FieldsOut(c, base, o, info, i).0 + FieldsOut(c, base, o, info, i).1)
        invariant b.off == objBase + |o.body| + |FieldsOut(c, base, o, info, i).1|
      {
        if IsPrimitiveType(info.fields[i].typ) {
          FieldsOutPrimStep(c, base, o, info, i + 1);
        } else {
          WalkField(o, info, base, objBase, i, a, h);
        }
      }
    }

    /** One reference field of `do_walk_object`: the member's record is
        appended, then its offset overwrites the field's slot. */
    method WalkField(o: JObj, info: ClassRecord, base: nat, objBase: nat, i: nat, ghost a: seq<Byte>, ghost h: seq<Byte>)
      requires o.Instance? && InstanceOk(c, o, info) && i < |o.refs| && !IsPrimitiveType(info.fields[i].typ)
      requires |h| == 4 + Pad8(base + 4) && objBase == base + |h| && |a| == b.buf.Length
      requires base + |h| + |o.body| + |FieldsOut(c, base, o, info, |o.refs|).1| <= b.buf.Length
      requires base + |h| + |o.body| + |FieldsOut(c, base, o, info, i).1| <= b.buf.Length
      requires b.buf[..] == Splice(a, base, h + FieldsOut(c, base, o, info, i).0 + FieldsOut(c, base, o, info, i).1)
      requires b.off == base + |h| + |o.body| + |FieldsOut(c, base, o, info, i).1|
      modifies b, b.buf
      ensures base + |h| + |o.body| + |FieldsOut(c, base, o, info, i + 1).1| <= b.buf.Length
      ensures b.buf[..] == Splice(a, base, h + FieldsOut(c, base, o, info, i + 1).0 + FieldsOut(c, base, o, info, i + 1).1)
      ensures b.off == base + |h| + |o.body| + |FieldsOut(c, base, o, info, i + 1).1|
      decreases o, 0
    {
      var f := info.fields[i];
      ghost var prev := FieldsOut(c, base, o, info, i);
      ghost var q := b.off;
      RefMember(c, o, info, i);
      FieldsOutRefStep(c, base, o, info, i + 1, q);
      FieldsOutBodyStep(c, base, o, info, i + 1, q);
      FieldsOutGrows(c, base, o, info, i + 1, |o.refs|);
      var fOffset := objBase + f.offset;
      var memberOffset := Append(o.refs[i], f.id, a, base, h + prev.0, prev.1);
      Pow256Widths();
      b.PutIntAt(memberOffset % U32_MOD, 4, fOffset);
      PatchSlot(a, base, h, prev.0, prev.1 + Zeros(Pad8(q)) + Rec(c, memberOffset, o.refs[i], f.id),
                fOffset, f.offset, LE32(memberOffset));
    }

    /** `do_walk_array`: the header with the length, then either each
        element's record in order or the elements' raw bytes. */
    method WalkArray(o: JObj, eid: int, info: ClassRecord)
      requires o.Array? && Encodable(c, o, eid) && info == Info(c, o.klass).value
      requires b.off % 8 == 0 && b.off + |Rec(c, b.off, o, eid)| <= b.buf.Length
      modifies b, b.buf
      ensures b.buf[..] == Splice(old(b.buf[..]), old(b.off), Rec(c, old(b.off), o, eid))
      ensures b.off == old(b.off) + |Rec(c, old(b.off), o, eid)|
      decreases o, 2
    {
      ghost var a := b.buf[..];
      var base := b.off;
      var length := o.length;
      PutArrayHeader(info.id, length);
      ghost var h := LE16(info.id) + LE16(ARRAY_CODE) + LE32(length) + Zeros(Pad8(base + 8));
      var elem := info.fields[0];
      if IsReferenceType(elem.typ) {
        RefArrayShape(c, base, o, eid, info);
        assert h + [] == h;
        WalkElems(o, info, base, a, h);
      } else if IsPrimitiveType(elem.typ) {
        PrimArrayRecShape(c, base, o, eid, info);
        assert info.dim == 1;
        SpliceThenNext(a, base, h, o.raw);
        b.Put(o.raw);
      } else {
        assert false;
      }
    }

    /** The element loop of `do_walk_array` for an array of references:
        each element's record in index order. */
    method WalkElems(o: JObj, info: ClassRecord, base: nat, ghost a: seq<Byte>, ghost h: seq<Byte>)
      requires o.Array? && HasElemType(info) && ArrayOk(c, o, info) && IsReferenceType(info.fields[0].typ)
      requires |h| == ElemsStart(base) - base && |a| == b.buf.Length
      requires ElemsStart(base) + |ElemsOut(c, base, o, info, |o.elems|)| <= b.buf.Length
      requires b.buf[..] == Splice(a, base, h + ElemsOut(c, base, o, info, 0))
      requires b.off == ElemsStart(base) + |ElemsOut(c, base, o, info, 0)|
      modifies b, b.buf
      ensures b.buf[..] == Splice(a, base, h + ElemsOut(c, base, o, info, |o.elems|))
      ensures b.off == ElemsStart(base) + |ElemsOut(c, base, o, info, |o.elems|)|
      decreases o, 1
    {
      for i := 0 to |o.elems|
        invariant ElemsStart(base) + |ElemsOut(c, base, o, info, i)| <= b.buf.Length
        invariant b.buf[..] == Splice(a, base, h + ElemsOut(c, base, o, info, i))
        invariant b.off == ElemsStart(base) + |ElemsOut(c, base, o, info, i)|
      {
        ElemsOutGrows(c, base, o, info, i + 1, |o.elems|);
        WalkElem(o, info, base, i, a, h);
      }
    }

    /** One element of a reference array: its record, appended. */
    method WalkElem(o: JObj, info: ClassRecord, base: nat, i: nat, ghost a: seq<Byte>, ghost h: seq<Byte>)
      requires o.Array? && HasElemType(info) && ArrayOk(c, o, info) && IsReferenceType(info.fields[0].typ)
      requires i < |o.elems| && |h| == ElemsStart(base) - base && |a| == b.buf.Length
      requires ElemsStart(base) + |ElemsOut(c, base, o, info, i + 1)| <= b.buf.Length
      requires b.buf[..] == Splice(a, base, h + ElemsOut(c, base, o, info, i))
      requires b.off == ElemsStart(base) + |ElemsOut(c, base, o, info, i)|
      modifies b, b.buf
      ensures b.buf[..] == Splice(a, base, h + ElemsOut(c, base, o, info, i + 1))
      ensures b.off == ElemsStart(base) + |ElemsOut(c, base, o, info, i + 1)|
      decreases o, 0
    {
      ElemMember(c, o, info, i);
      ElemsOutStep(c, base, o, info, i + 1, b.off);
      var _ := Append(o.elems[i], info.fields[0].id, a, base, h, ElemsOut(c, base, o, info, i));
    }

    /** `ObjectWalker::walk(obj, resolver, ...)`: leaves room for the meta
        header, walks the root with no expected id, and stores the final
        offset in the header as `total_length`, which it returns. */
    static method Serialize(resolver: ClassResolver, out: array<Byte>, o: JObj) returns (total: nat)
      requires resolver.Valid() && out.Length < U64_MOD
      requires Encodable(RegistryClasses(resolver.infoById, resolver.infoByKlass), o, UNREGISTERED_CLASS_ID)
      requires OBJECT_DATA_OFFSET
               + |Rec(RegistryClasses(resolver.infoById, resolver.infoByKlass), OBJECT_DATA_OFFSET, o, UNREGISTERED_CLASS_ID)|
               <= out.Length
      modifies out
      ensures total == OBJECT_DATA_OFFSET
                       + |Rec(RegistryClasses(resolver.infoById, resolver.infoByKlass), OBJECT_DATA_OFFSET, o, UNREGISTERED_CLASS_ID)|
      ensures out[..] == Serialized(old(out[..]), RegistryClasses(resolver.infoById, resolver.infoByKlass), o)
    {
      var w := new ObjectWalker(resolver, out);
      total := w.WalkRoot(o);
    }

    /** The body of `ObjectWalker::walk` on a fresh walker: the meta header
        skipped, the root's record after it, then the total length written
        into the header. */
    method WalkRoot(o: JObj) returns (total: nat)
      requires b.off == 0 && b.buf.Length < U64_MOD && Encodable(c, o, UNREGISTERED_CLASS_ID)
      requires OBJECT_DATA_OFFSET + |Rec(c, OBJECT_DATA_OFFSET, o, UNREGISTERED_CLASS_ID)| <= b.buf.Length
      modifies b, b.buf
      ensures total == OBJECT_DATA_OFFSET + |Rec(c, OBJECT_DATA_OFFSET, o, UNREGISTERED_CLASS_ID)|
      ensures b.buf[..] == Serialized(old(b.buf[..]), c, o)
    {
      b.Skip(OBJECT_DATA_OFFSET);
      assert Pad8(OBJECT_DATA_OFFSET) == 0;
      var root := Walk(o, UNREGISTERED_CLASS_ID);
      assert Zeros(0) + Rec(c, root, o, UNREGISTERED_CLASS_ID) == Rec(c, root, o, UNREGISTERED_CLASS_ID);
      total := b.off;
      Pow256Widths();
      b.PutIntAt(total, 8, 0);
    }
  }

  /** The buffer `ObjectWalker::walk` leaves: the root's record at
      `OBJECT_DATA_OFFSET`, and the total length in the meta header. */
  function Serialized(a: seq<Byte>, c: Classes, o: JObj): (r: seq<Byte>)
    requires Encodable(c, o, UNREGISTERED_CLASS_ID)
    requires OBJECT_DATA_OFFSET + |Rec(c, OBJECT_DATA_OFFSET, o, UNREGISTERED_CLASS_ID)| <= |a| < U64_MOD
    ensures |r| == |a|
  {
    var rec := Rec(c, OBJECT_DATA_OFFSET, o, UNREGISTERED_CLASS_ID);
    Pow256Widths();
    Splice(Splice(a, OBJECT_DATA_OFFSET, rec), 0, LE(OBJECT_DATA_OFFSET + |rec|, 8))
  }

  /** The layout of a serialized buffer: the total length in the meta
      header, the root's record right after it. */
  lemma SerializedLayout(a: seq<Byte>, c: Classes, o: JObj)
    requires Encodable(c, o, UNREGISTERED_CLASS_ID)
    requires OBJECT_DATA_OFFSET + |Rec(c, OBJECT_DATA_OFFSET, o, UNREGISTERED_CLASS_ID)| <= |a| < U64_MOD
    ensures var bytes := Serialized(a, c, o);
            var rec := Rec(c, OBJECT_DATA_OFFSET, o, UNREGISTERED_CLASS_ID);
            FromLE(bytes[..OBJECT_DATA_OFFSET]) == OBJECT_DATA_OFFSET + |rec| && At(bytes, OBJECT_DATA_OFFSET, rec)
  {
    var rec := Rec(c, OBJECT_DATA_OFFSET, o, UNREGISTERED_CLASS_ID);
    var total := OBJECT_DATA_OFFSET + |rec|;
    var mid := Splice(a, OBJECT_DATA_OFFSET, rec);
    Pow256Widths();
    PutGetRoundTrip(mid, 0, total, 8);
    SpliceKeeps(mid, 0, LE(total, 8), OBJECT_DATA_OFFSET, total);
  }

  /** What a serialized buffer gives the reader: the meta header holds the
      total length, and parsing at `OBJECT_DATA_OFFSET` gives back the
      root's view, ending exactly at the total length. */
  lemma {:induction false} SerializedParses(a: seq<Byte>, c: Classes, o: JObj)
    requires Sound(c) && Encodable(c, o, UNREGISTERED_CLASS_ID)
    requires OBJECT_DATA_OFFSET + |Rec(c, OBJECT_DATA_OFFSET, o, UNREGISTERED_CLASS_ID)| <= |a| < U64_MOD
    ensures var bytes := Serialized(a, c, o);
            var total := OBJECT_DATA_OFFSET + |Rec(c, OBJECT_DATA_OFFSET, o, UNREGISTERED_CLASS_ID)|;
            FromLE(bytes[..OBJECT_DATA_OFFSET]) == total
            && Parse(c.infos, bytes, OBJECT_DATA_OFFSET) == Ok((View(c, o, UNREGISTERED_CLASS_ID), total))
  {
    SerializedLayout(a, c, o);
    assert Pad8(OBJECT_DATA_OFFSET) == 0;
    RoundTrip(c, Serialized(a, c, o), OBJECT_DATA_OFFSET, o, UNREGISTERED_CLASS_ID);
  }
}
