/**
 * The record format `ObjectWalker` writes: every record starts at an
 * 8-aligned offset with a 2-byte class id and a 2-byte flag.
 *
 *   null:     | expected id | NULL_FLAG |
 *   enum:     | id | ENUM_FLAG|OBJECT_FLAG | ordinal (u32) |
 *   instance: | id | OBJECT_FLAG | padding | body | member records... |
 *   array:    | id | ARRAY_FLAG | length (u32) | padding | raw elements or element records... |
 *
 * A member record follows its parent, padded to 8, and the parent's body
 * slot for that reference field is overwritten with the member's offset.
 *
 * The Java heap is abstracted: an object value carries its class pointer,
 * the raw bytes of its body (or of its primitive elements) and, for each
 * reference slot, the object the compressed pointer in that slot leads to.
 */
module RecordFormat {
  import opened Bytes
  import opened BasicTypes
  import opened ClassInfos
  import opened ClassRegistry
  import opened Wrappers
  import opened RWBuffers

  /** A Java object as the walker sees it. `refs` has one entry per
      non-static field slot; primitive slots hold `Null`. */
  datatype JObj =
    | Null
    | Enum(klass: U64, ordinal: U32)
    | Instance(klass: U64, body: seq<Byte>, refs: seq<JObj>)
    | Array(klass: U64, length: U32, raw: seq<Byte>, elems: seq<JObj>)

  /** The class tables the walker consults: the records by id and
      `get_class_info(klass)`, the lookup by klass. */
  datatype Classes = Classes(infos: seq<ClassRecord>, byKlass: map<U64, ClassRecord>)

  /** `get_class_info(klass)` on the tables. */
  function Info(c: Classes, klass: U64): (r: Option<ClassRecord>)
  {
    if klass in c.byKlass then Some(c.byKlass[klass]) else None
  }

  /** What the codec needs of the tables: a record found by klass has that
      klass and sits under its own id, which fits in 16 bits. */
  predicate Sound(c: Classes)
  {
    forall k: U64 {:trigger Info(c, k)} :: Info(c, k).Some? ==>
      var info := Info(c, k).value;
      info.klass == k && KnownId(c, info.id) && info.id <= MAX_CLASS_ID
      && c.infos[info.id - MIN_CLASS_ID] == info
  }

  /** The tables of a registry: its records and its binary search by klass. */
  function RegistryClasses(infos: seq<ClassRecord>, order: seq<nat>): (c: Classes)
    requires IsOrdering(infos, order)
    ensures c.infos == infos && forall k: U64 {:trigger LookupKlass(infos, order, k)} :: Info(c, k) == LookupKlass(infos, order, k)
  {
    Classes(infos, map k: U64 | 0 <= k < U64_MOD && LookupKlass(infos, order, k).Some? :: LookupKlass(infos, order, k).value)
  }

  /** The registry invariant gives the codec what it needs. */
  lemma RegistrySound(infos: seq<ClassRecord>, order: seq<nat>, sig2id: map<seq<char>, int>)
    requires CoreValid(infos, order, sig2id)
    ensures Sound(RegistryClasses(infos, order))
  {
    var c := RegistryClasses(infos, order);
    forall k: U64
      ensures Info(c, k).Some? ==>
                var info := Info(c, k).value;
                info.klass == k && KnownId(c, info.id) && info.id <= MAX_CLASS_ID
                && c.infos[info.id - MIN_CLASS_ID] == info
    {
      LookupKlassSpec(infos, order, sig2id, k);
    }
  }

  /** `put<int16_t>` / `put<uint16_t>`: the two's-complement low 16 bits. */
  function LE16(x: int): (r: seq<Byte>)
    ensures |r| == 2
    ensures 0 <= x < U16_MOD ==> FromLE(r) == x
  {
    Pow256Widths();
    FromLEOfLE(x % U16_MOD, 2);
    LE(x % U16_MOD, 2)
  }

  /** `put<uint32_t>`: the low 32 bits. */
  function LE32(x: int): (r: seq<Byte>)
    ensures |r| == 4
    ensures 0 <= x < U32_MOD ==> FromLE(r) == x
  {
    Pow256Widths();
    FromLEOfLE(x % U32_MOD, 4);
    LE(x % U32_MOD, 4)
  }

  /** The flag values the walker writes. */
  const NULL_CODE: nat := NULL_FLAG
  /** `ENUM_FLAG | OBJECT_FLAG`: the two flags lie in different nibbles. */
  const ENUM_CODE: nat := ENUM_FLAG + OBJECT_FLAG
  const OBJECT_CODE: nat := OBJECT_FLAG
  const ARRAY_CODE: nat := ARRAY_FLAG

  /** Field slot i lies inside a body of `size` bytes. */
  predicate SlotFits(f: FieldInfo, size: nat)
  {
    IsBasicType(f.typ) && f.offset + TypeSize(f.typ) <= size
  }

  /** Two field slots share no byte. */
  predicate Apart(f: FieldInfo, g: FieldInfo)
    requires IsBasicType(f.typ) && IsBasicType(g.typ)
  {
    f.offset + TypeSize(f.typ) <= g.offset || g.offset + TypeSize(g.typ) <= f.offset
  }

  /** The layout an instance class has: each non-static field is primitive
      or a reference, lies inside the body, and no two overlap. */
  predicate InstanceLayout(info: ClassRecord, size: nat)
  {
    info.nNonStatic <= |info.fields|
    && (forall i :: 0 <= i < info.nNonStatic ==>
          SlotFits(info.fields[i], size)
          && (IsPrimitiveType(info.fields[i].typ) || IsReferenceType(info.fields[i].typ)))
    && (forall i, j :: 0 <= i < j < info.nNonStatic ==> Apart(info.fields[i], info.fields[j]))
  }

  /** A record id a reader can look up. */
  predicate KnownId(c: Classes, id: int)
  {
    MIN_CLASS_ID <= id < MIN_CLASS_ID + |c.infos|
  }

  /** What `walk(obj, expected_id)` relies on: a null reference has an
      expected id; any other object's class is registered (the info is not
      the dummy) with a kind matching the object; enum ordinals are in the
      enum table; instance bodies have the class's body size and its slots;
      a primitive array is one-dimensional and its bytes are
      `array_body_size(length)`; a reference array has `length` elements of
      its element class; and every member is encodable in turn. */
  predicate Encodable(c: Classes, o: JObj, eid: int)
    decreases o
  {
    match o
    case Null => eid != UNREGISTERED_CLASS_ID
    case Enum(k, ord) =>
      Info(c, k).Some? && IsEnum(Info(c, k).value) && ord < |Info(c, k).value.enums|
    case Instance(k, body, refs) =>
      Info(c, k).Some? && !IsEnum(Info(c, k).value) && IsObject(Info(c, k).value)
      && InstanceOk(c, o, Info(c, k).value)
    case Array(k, len, raw, elems) =>
      Info(c, k).Some? && !IsEnum(Info(c, k).value) && IsArray(Info(c, k).value)
      && HasElemType(Info(c, k).value)
      && (IsReferenceType(Info(c, k).value.fields[0].typ) ==> KnownId(c, Info(c, k).value.fields[0].id))
      && ArrayOk(c, o, Info(c, k).value)
  }

  predicate InstanceOk(c: Classes, o: JObj, info: ClassRecord)
    requires o.Instance?
    decreases o, 0
  {
    |o.body| == ObjectBodySize(info) && InstanceLayout(info, |o.body|) && |o.refs| == info.nNonStatic
    && forall i :: 0 <= i < |o.refs| ==>
         if IsReferenceType(info.fields[i].typ) then Encodable(c, o.refs[i], info.fields[i].id)
         else o.refs[i] == Null
  }

  predicate ArrayOk(c: Classes, o: JObj, info: ClassRecord)
    requires o.Array? && HasElemType(info)
    decreases o, 0
  {
    var elem := info.fields[0];
    if IsReferenceType(elem.typ) then
      |o.elems| == o.length && o.raw == []
      && forall j :: 0 <= j < |o.elems| ==> Encodable(c, o.elems[j], elem.id)
    else
      IsPrimitiveType(elem.typ) && info.dim == 1 && o.elems == []
      && o.length * TypeSize(elem.typ) < U32_MOD && |o.raw| == ArrayBodySize(info, o.length)
  }

  /** The record `walk` writes for `o` at `base`, once every member record
      has been appended and every reference slot patched. */
  function Rec(c: Classes, base: nat, o: JObj, eid: int): (r: seq<Byte>)
    requires Encodable(c, o, eid)
    ensures |r| >= 4
    decreases o
  {
    match o
    case Null => LE16(eid) + LE16(NULL_CODE)
    case Enum(k, ord) => LE16(Info(c, k).value.id) + LE16(ENUM_CODE) + LE32(ord)
    case Instance(k, body, refs) =>
      var info := Info(c, k).value;
      var out := FieldsOut(c, base, o, info, |refs|);
      LE16(info.id) + LE16(OBJECT_CODE) + Zeros(Pad8(base + 4)) + out.0 + out.1
    case Array(k, len, raw, elems) =>
      var info := Info(c, k).value;
      LE16(info.id) + LE16(ARRAY_CODE) + LE32(len) + Zeros(Pad8(base + 8))
      + (if IsReferenceType(info.fields[0].typ) then ElemsOut(c, base, o, info, |elems|) else raw)
  }

  /** Where the body of an instance record at `base` starts. */
  function BodyStart(base: nat): (r: nat)
  {
    base + 4 + Pad8(base + 4)
  }

  /** The loop of `do_walk_object` over the first i fields: the body as
      patched so far and the member records appended after it. */
  function FieldsOut(c: Classes, base: nat, o: JObj, info: ClassRecord, i: nat): (out: (seq<Byte>, seq<Byte>))
    requires o.Instance? && InstanceOk(c, o, info) && i <= |o.refs|
    ensures |out.0| == |o.body|
    decreases o, 1, i
  {
    if i == 0 then (o.body, [])
    else
      var prev := FieldsOut(c, base, o, info, i - 1);
      var f := info.fields[i - 1];
      if IsPrimitiveType(f.typ) then prev
      else
        var pos := BodyStart(base) + |prev.0| + |prev.1|;
        var mb := pos + Pad8(pos);
        (Splice(prev.0, f.offset, LE32(mb)), prev.1 + Zeros(Pad8(pos)) + Rec(c, mb, o.refs[i - 1], f.id))
  }

  /** Where the elements of an array record at `base` start. */
  function ElemsStart(base: nat): (r: nat)
  {
    base + 8 + Pad8(base + 8)
  }

  /** The element loop of `do_walk_array` over the first i elements. */
  function ElemsOut(c: Classes, base: nat, o: JObj, info: ClassRecord, i: nat): (out: seq<Byte>)
    requires o.Array? && HasElemType(info) && ArrayOk(c, o, info)
    requires IsReferenceType(info.fields[0].typ) && i <= |o.elems|
    decreases o, 1, i
  {
    if i == 0 then []
    else
      var prev := ElemsOut(c, base, o, info, i - 1);
      var pos := ElemsStart(base) + |prev|;
      var mb := pos + Pad8(pos);
      prev + Zeros(Pad8(pos)) + Rec(c, mb, o.elems[i - 1], info.fields[0].id)
  }
}
