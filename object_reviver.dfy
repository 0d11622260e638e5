/**
 * `ObjectReviver`: reads a serialized buffer back into Java values through
 * an `RWBuffer` cursor. Each method is proved to consume exactly the bytes
 * `RecordParse.Parse` consumes and to build the value it describes; the
 * reviver's `root` is the first object or array it allocates, which is
 * what `revive` hands back.
 *
 * A JNI handle is abstracted as the offset of the record the object was
 * built from: `root == Some(p)` stands for the handle of the object whose
 * record starts at p, `None` for `nullptr`.
 */
module ObjectRevivers {
  import opened Bytes
  import opened BasicTypes
  import opened ClassInfos
  import opened ClassRegistry
  import opened ClassResolvers
  import opened RWBuffers
  import opened RecordFormat
  import opened RecordParse
  import opened RecordRoundTrip
  import opened ObjectWalkers
  import opened Wrappers

  /** Values for which the reader allocates a new Java object: an enum
      constant already exists and null is no object. */
  predicate Allocated(v: Revived)
  {
    v.RObject? || v.RPrimArray? || v.RRefArray?
  }

  /** `root` after reading a record at p: set by the first allocation only. */
  function RootAfter(before: Option<nat>, v: Revived, p: nat): (root: Option<nat>)
  {
    if before.Some? || !Allocated(v) then before else Some(p)
  }

  /** What `revive` returns for a buffer: the root record's value when the
      reader allocated it, otherwise null. */
  function Revival(infos: seq<ClassRecord>, bytes: seq<Byte>): (r: Result<Option<Revived>>)
    ensures r.Ok? <==> Parse(infos, bytes, OBJECT_DATA_OFFSET).Ok?
    ensures r.Ok? && r.value.Some? ==> Allocated(r.value.value) && r.value.value == Parse(infos, bytes, OBJECT_DATA_OFFSET).value.0
    ensures r.Ok? && r.value.None? ==> !Allocated(Parse(infos, bytes, OBJECT_DATA_OFFSET).value.0)
  {
    match Parse(infos, bytes, OBJECT_DATA_OFFSET)
    case Err(e) => Err(e)
    case Ok((v, _)) => Ok(if Allocated(v) then Some(v) else None)
  }

  /** Once a field fails, every longer prefix of the field loop fails. */
  lemma {:induction false} FieldsErrSticks(infos: seq<ClassRecord>, bytes: seq<Byte>, fieldBase: nat, start: nat,
                                           info: ClassRecord, i: nat, j: nat)
    requires start <= |bytes| && i <= j <= |info.fields|
    requires ParseFields(infos, bytes, fieldBase, start, info, i).Err?
    ensures ParseFields(infos, bytes, fieldBase, start, info, j).Err?
    decreases j
  {
    if j > i {
      FieldsErrSticks(infos, bytes, fieldBase, start, info, i, j - 1);
    }
  }

  /** Once an element fails, every longer prefix of the element loop fails. */
  lemma {:induction false} ElemsErrSticks(infos: seq<ClassRecord>, bytes: seq<Byte>, start: nat, i: nat, j: nat)
    requires start <= |bytes| && i <= j
    requires ParseElems(infos, bytes, start, i).Err?
    ensures ParseElems(infos, bytes, start, j).Err?
    decreases j
  {
    if j > i {
      ElemsErrSticks(infos, bytes, start, i, j - 1);
    }
  }

  class ObjectReviver {
    /** The class table `get_class_info(id)` reads. */
    const infos: seq<ClassRecord>
    /** The input buffer and the read cursor. */
    const b: RWBuffer
    /** The handle `revive` returns. */
    var root: Option<nat>

    constructor (classes: seq<ClassRecord>, input: array<Byte>)
      ensures infos == classes && b.buf == input && b.off == 0 && root == None && fresh(b)
    {
      infos := classes;
      b := new RWBuffer(input);
      root := None;
    }

    /** `parse(expected_id)`: the record at the next 8-aligned offset. */
    method ParseRec(expectedId: int) returns (r: Result<Revived>)
      modifies this, b
      ensures old(root).Some? ==> root == old(root)
      ensures var res := Parse(infos, b.buf[..], old(b.off));
              r.Ok? == res.Ok?
              && (r.Ok? ==> r.value == res.value.0 && b.off == res.value.1
                            && root == RootAfter(old(root), r.value, old(b.off) + Pad8(old(b.off))))
      decreases b.buf.Length - b.off, 3
    {
      b.SkipNextAlign8();
      var p := b.off;
      if p + 4 > b.buf.Length {
        return Err("record past the input");
      }
      Pow256Widths();
      var raw := b.GetInt(2);
      var id := I16(raw);
      var flag := b.GetInt(2);
      if IsNullF(flag) {
        return Ok(RNull);
      }
      if IsRedirectF(flag) {
        return Err("can not be redirect");
      }
      var found := ById(infos, id);
      if found.None? {
        return Err("unknown class id");
      }
      var info := found.value;
      if IsEnum(info) {
        if !IsEnumF(flag) {
          return Err("flag is not an enum flag");
        }
        if p + 8 > b.buf.Length {
          return Err("record past the input");
        }
        var ordinal := b.GetInt(4);
        if ordinal >= |info.enums| {
          return Err("ordinal outside the enum table");
        }
        return Ok(REnum(GetEnum(info, ordinal)));
      } else if IsObject(info) {
        if !IsObjectF(flag) {
          return Err("flag is not an object flag");
        }
        r := DoParseObject(p, info);
      } else {
        if !IsArrayF(flag) {
          return Err("flag is not an array flag");
        }
        r := DoParseArray(p, info);
      }
    }

    /** `do_parse_object(base, info)`: allocate, skip the body, then store
        each non-static field in order. */
    method DoParseObject(p: nat, info: ClassRecord) returns (r: Result<Revived>)
      requires b.off == p + 4 <= b.buf.Length
      modifies this, b
      ensures old(root).Some? ==> root == old(root)
      ensures var res := ParseObject(infos, b.buf[..], p, info);
              r.Ok? == res.Ok?
              && (r.Ok? ==> r.value == res.value.0 && b.off == res.value.1 && root == RootAfter(old(root), r.value, p))
      decreases b.buf.Length - p, 2
    {
      b.SkipNextAlign8();
      if root.None? {
        root := Some(p);
      }
      var fieldBase := b.off;
      b.Skip(ObjectBodySize(info));
      var end := b.off;
      if end > b.buf.Length {
        return Err("body past the input");
      }
      if info.nNonStatic > |info.fields| {
        return Err("field table too short");
      }
      var sets := ReadFields(p, fieldBase, info);
      if sets.Err? {
        return Err(sets.reason);
      }
      r := Ok(RObject(info.klass, sets.value));
    }

    /** The field loop of `do_parse_object`. */
    method ReadFields(p: nat, fieldBase: nat, info: ClassRecord) returns (r: Result<seq<FieldSet>>)
      requires p < b.off <= b.buf.Length && info.nNonStatic <= |info.fields| && root.Some?
      modifies this, b
      ensures root == old(root)
      ensures var res := ParseFields(infos, b.buf[..], fieldBase, old(b.off), info, info.nNonStatic);
              r.Ok? == res.Ok? && (r.Ok? ==> r.value == res.value.0 && b.off == res.value.1)
      decreases b.buf.Length - p, 1
    {
      var end := b.off;
      var sets: seq<FieldSet> := [];
      var i := 0;
      while i < info.nNonStatic
        invariant i <= info.nNonStatic && p < end <= b.off <= b.buf.Length && root == old(root)
        invariant ParseFields(infos, b.buf[..], fieldBase, end, info, i) == Ok((sets, b.off))
      {
        var s := ReviveField(p, fieldBase, end, info, i, sets);
        if s.Err? {
          FieldsErrSticks(infos, b.buf[..], fieldBase, end, info, i + 1, info.nNonStatic);
          return Err(s.reason);
        }
        sets := sets + [s.value];
        i := i + 1;
      }
      r := Ok(sets);
    }

    /** One turn of the field loop: a primitive read from the body at the
        field's offset, or the member's record read at the cursor. */
    method ReviveField(p: nat, fieldBase: nat, end: nat, info: ClassRecord, i: nat, ghost sets: seq<FieldSet>)
      returns (r: Result<FieldSet>)
      requires p < end <= b.off <= b.buf.Length && i < |info.fields| && root.Some?
      requires ParseFields(infos, b.buf[..], fieldBase, end, info, i) == Ok((sets, b.off))
      modifies this, b
      ensures root == old(root)
      ensures var res := ParseFields(infos, b.buf[..], fieldBase, end, info, i + 1);
              r.Ok? == res.Ok? && (r.Ok? ==> res.value == (sets + [r.value], b.off))
      decreases b.buf.Length - p, 0
    {
      var f := info.fields[i];
      if IsPrimitiveType(f.typ) {
        var at := fieldBase + f.offset;
        if at + TypeSize(f.typ) > b.buf.Length {
          return Err("field past the input");
        }
        return Ok(SetPrim(f.jFieldId, f.typ, b.GetAt(at, TypeSize(f.typ))));
      } else if IsReferenceType(f.typ) {
        var v := ParseRec(f.id);
        if v.Err? {
          return Err(v.reason);
        }
        return Ok(SetRef(f.jFieldId, v.value));
      }
      return Err("unreachable field type");
    }

    /** `do_parse_array(base, info)`: the length, padding, a new array, then
        the element bytes or one record per element. */
    method DoParseArray(p: nat, info: ClassRecord) returns (r: Result<Revived>)
      requires b.off == p + 4 <= b.buf.Length
      modifies this, b
      ensures old(root).Some? ==> root == old(root)
      ensures var res := ParseArray(infos, b.buf[..], p, info);
              r.Ok? == res.Ok?
              && (r.Ok? ==> r.value == res.value.0 && b.off == res.value.1 && root == RootAfter(old(root), r.value, p))
      decreases b.buf.Length - p, 2
    {
      if p + 8 > b.buf.Length || !HasElemType(info) {
        return Err("record past the input or no element slot");
      }
      Pow256Widths();
      var length := b.GetInt(4);
      b.SkipNextAlign8();
      if b.off > b.buf.Length {
        return Err("record past the input");
      }
      var elem := info.fields[0];
      if IsPrimitiveType(elem.typ) {
        if root.None? {
          root := Some(p);
        }
        r := ReadPrimElems(info, length);
        return;
      }
      if !IsReferenceType(elem.typ) {
        return Err("unreachable element type");
      }
      var elemInfo := ById(infos, elem.id);
      if elemInfo.None? {
        return Err("unknown element class");
      }
      if root.None? {
        root := Some(p);
      }
      var vs := ReadElems(p, elem.id, length);
      if vs.Err? {
        return Err(vs.reason);
      }
      r := Ok(RRefArray(elemInfo.value.klass, length, vs.value));
    }

    /** The primitive branch of `do_parse_array`: the copy takes the
        `array_body_size(length)` bytes the writer put there. */
    method ReadPrimElems(info: ClassRecord, length: U32) returns (r: Result<Revived>)
      requires HasElemType(info) && IsPrimitiveType(info.fields[0].typ) && b.off <= b.buf.Length
      modifies b
      ensures var res := ParsePrimArray(b.buf[..], old(b.off), info, length);
              r.Ok? == res.Ok? && (r.Ok? ==> r.value == res.value.0 && b.off == res.value.1)
    {
      if info.dim != 1 {
        return Err("primitive elements need one dimension");
      }
      var size := ArrayBodySize(info, length);
      if b.off + size > b.buf.Length {
        return Err("elements past the input");
      }
      var data := b.Get(size);
      r := Ok(RPrimArray(info.fields[0].typ, length, data));
    }

    /** The reference branch of `do_parse_array`: one record per element. */
    method ReadElems(p: nat, elemId: int, length: U32) returns (r: Result<seq<Revived>>)
      requires p < b.off <= b.buf.Length && root.Some?
      modifies this, b
      ensures root == old(root)
      ensures var res := ParseElems(infos, b.buf[..], old(b.off), length);
              r.Ok? == res.Ok? && (r.Ok? ==> r.value == res.value.0 && b.off == res.value.1)
      decreases b.buf.Length - p, 0
    {
      var start := b.off;
      var vs: seq<Revived> := [];
      var i := 0;
      while i < length
        invariant i <= length && p < start <= b.off <= b.buf.Length && root == old(root)
        invariant ParseElems(infos, b.buf[..], start, i) == Ok((vs, b.off))
      {
        var v := ParseRec(elemId);
        if v.Err? {
          ElemsErrSticks(infos, b.buf[..], start, i + 1, length);
          return Err(v.reason);
        }
        vs := vs + [v.value];
        i := i + 1;
      }
      r := Ok(vs);
    }

    /** `revive(klass, in)`: skip the meta header, read the root record and
        return the handle of the first object allocated. A class the
        resolver does not know fails the `is_dummy` assertion. */
    static method Revive(resolver: ClassResolver, klass: U64, input: array<Byte>) returns (r: Result<Option<Revived>>)
      requires resolver.Valid()
      ensures resolver.GetByKlass(klass).None? ==> r.Err?
      ensures resolver.GetByKlass(klass).Some? ==>
                var res := Revival(resolver.infoById, input[..]);
                r.Ok? == res.Ok? && (r.Ok? ==> r.value == res.value)
    {
      var info := resolver.GetByKlass(klass);
      if info.None? {
        return Err("class is not registered");
      }
      var rv := new ObjectReviver(resolver.infoById, input);
      rv.b.Skip(OBJECT_DATA_OFFSET);
      var v := rv.ParseRec(info.value.id);
      if v.Err? {
        return Err(v.reason);
      }
      r := Ok(if rv.root.Some? then Some(v.value) else None);
    }
  }

  /** `revive` of what `serialize` wrote: the root's view for an object or
      an array root, and null for an enum root, whose constant the reader
      never allocates. */
  lemma ReviveSerialized(a: seq<Byte>, c: Classes, o: JObj)
    requires Sound(c) && Encodable(c, o, UNREGISTERED_CLASS_ID)
    requires OBJECT_DATA_OFFSET + |Rec(c, OBJECT_DATA_OFFSET, o, UNREGISTERED_CLASS_ID)| <= |a| < U64_MOD
    ensures !o.Null?
    ensures Revival(c.infos, Serialized(a, c, o))
            == Ok(if o.Enum? then None else Some(View(c, o, UNREGISTERED_CLASS_ID)))
  {
    SerializedParses(a, c, o);
  }

  /** The primitive copy as written (`ParsePrimArrayAsWritten`) breaks the
      round trip: for an array of elements wider than a byte, such as
      `long[]{6, 6, 6}`, what it builds from the record the walker wrote is
      not the array's view. */
  lemma PrimArrayAsWrittenLoses(c: Classes, bytes: seq<Byte>, b: nat, o: JObj, eid: int)
    requires o.Array? && Encodable(c, o, eid)
    requires !IsReferenceType(Info(c, o.klass).value.fields[0].typ)
    requires TypeSize(Info(c, o.klass).value.fields[0].typ) > 1 && o.length > 0
    requires At(bytes, b, Rec(c, b, o, eid))
    ensures var w := ParsePrimArrayAsWritten(bytes, ElemsStart(b), Info(c, o.klass).value, o.length);
            var i := ParsePrimArray(bytes, ElemsStart(b), Info(c, o.klass).value, o.length);
            w.Ok? && i == Ok((View(c, o, eid), b + |Rec(c, b, o, eid)|)) && w.value.0 != View(c, o, eid)
  {
    var info := Info(c, o.klass).value;
    PrimArrayRecShape(c, b, o, eid, info);
    var h := LE16(info.id) + LE16(ARRAY_CODE) + LE32(o.length) + Zeros(Pad8(b + 8));
    assert |h| == ElemsStart(b) - b;
    assert Rec(c, b, o, eid) == h + o.raw;
    assert bytes[ElemsStart(b)..ElemsStart(b) + |o.raw|] == o.raw by {
      assert bytes[b..b + |h| + |o.raw|] == h + o.raw;
      assert bytes[b..b + |h| + |o.raw|][|h|..] == o.raw;
    }
    PrimArrayAsWrittenTruncates(bytes, ElemsStart(b), info, o.length);
  }
}
