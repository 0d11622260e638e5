/**
 * The record decoder `ObjectReviver::parse`: it reads a record at the next
 * 8-aligned offset, looks its class up by id and rebuilds the Java value.
 * JNI is abstracted: the value it builds records, for an object, the class
 * allocated and each `Set<Type>Field` call in field order, and for an array
 * the element class or type, the length and the elements stored.
 *
 * Every `die`, failed assertion or read past the input in the source is an
 * `Err` here.
 */
module RecordParse {
  import opened Bytes
  import opened BasicTypes
  import opened ClassInfos
  import opened Wrappers
  import opened RWBuffers

  /** A revived Java value. */
  datatype Revived =
    | RNull
    | REnum(constant: ObjWithHandle)
    | RObject(klass: U64, sets: seq<FieldSet>)
    | RPrimArray(elemType: int, length: U32, data: seq<Byte>)
    | RRefArray(elemKlass: U64, length: U32, elems: seq<Revived>)

  /** One field store on a new object: a primitive value as its bytes, or a
      reference. */
  datatype FieldSet =
    | SetPrim(jFieldId: U64, typ: int, value: seq<Byte>)
    | SetRef(jFieldId: U64, target: Revived)

  /** `get<uint16_t>` at k. */
  function U16At(bytes: seq<Byte>, k: nat): (x: nat)
    requires k + 2 <= |bytes|
    ensures x < U16_MOD
  {
    Pow256Widths();
    FromLE(bytes[k..k + 2])
  }

  /** `get<uint32_t>` at k. */
  function U32At(bytes: seq<Byte>, k: nat): (x: U32)
    requires k + 4 <= |bytes|
  {
    Pow256Widths();
    FromLE(bytes[k..k + 4])
  }

  /** `class_id_t` is `int16_t`: the two's-complement reading of 16 bits. */
  function I16(x: nat): (id: int)
    requires x < U16_MOD
    ensures -0x8000 <= id < 0x8000
    ensures x < 0x8000 ==> id == x
  {
    if x < 0x8000 then x else x - U16_MOD
  }

  /** `get_class_info(id)`: `id2index` needs an id of at least
      MIN_CLASS_ID, and past the last record the dummy comes back. */
  function ById(infos: seq<ClassRecord>, id: int): (r: Option<ClassRecord>)
    ensures r.Some? <==> MIN_CLASS_ID <= id < MIN_CLASS_ID + |infos|
    ensures r.Some? ==> r.value == infos[id - MIN_CLASS_ID]
  {
    if MIN_CLASS_ID <= id < MIN_CLASS_ID + |infos| then Some(infos[id - MIN_CLASS_ID]) else None
  }

  /** `parse(expected_id)` at `pos`: the value and the offset after the
      record. The expected id is not consulted by the reader. */
  function Parse(infos: seq<ClassRecord>, bytes: seq<Byte>, pos: nat): (r: Result<(Revived, nat)>)
    ensures r.Ok? ==> pos < r.value.1 <= |bytes|
    decreases |bytes| - pos, 2
  {
    var p := pos + Pad8(pos);
    if p + 4 > |bytes| then Err("record past the input")
    else
      var id := I16(U16At(bytes, p));
      var flag := U16At(bytes, p + 2);
      if IsNullF(flag) then Ok((RNull, p + 4))
      else if IsRedirectF(flag) then Err("can not be redirect")
      else match ById(infos, id)
        case None => Err("unknown class id")
        case Some(info) => ParseKind(infos, bytes, p, info, flag)
  }

  /** The record kind comes from the class; the flag must agree with it. */
  function ParseKind(infos: seq<ClassRecord>, bytes: seq<Byte>, p: nat, info: ClassRecord, flag: nat)
    : (r: Result<(Revived, nat)>)
    requires p + 4 <= |bytes|
    ensures r.Ok? ==> p < r.value.1 <= |bytes|
    decreases |bytes| - p, 1
  {
    if IsEnum(info) then
      if !IsEnumF(flag) then Err("flag is not an enum flag") else ParseEnum(bytes, p, info)
    else if IsObject(info) then
      if !IsObjectF(flag) then Err("flag is not an object flag") else ParseObject(infos, bytes, p, info)
    else if !IsArrayF(flag) then Err("flag is not an array flag")
    else ParseArray(infos, bytes, p, info)
  }

  /** An enum record: `get_enum` of the ordinal that follows the flag. */
  function ParseEnum(bytes: seq<Byte>, p: nat, info: ClassRecord): (r: Result<(Revived, nat)>)
    requires p + 4 <= |bytes|
    ensures r.Ok? ==> r.value.1 == p + 8 <= |bytes|
  {
    if p + 8 > |bytes| then Err("record past the input")
    else
      var ordinal := U32At(bytes, p + 4);
      if ordinal < |info.enums| then Ok((REnum(GetEnum(info, ordinal)), p + 8))
      else Err("ordinal outside the enum table")
  }

  /** `do_parse_object(base, info)`: the body is skipped as one block, then
      the fields are visited in order. */
  function ParseObject(infos: seq<ClassRecord>, bytes: seq<Byte>, p: nat, info: ClassRecord): (r: Result<(Revived, nat)>)
    requires p + 4 <= |bytes|
    ensures r.Ok? ==> p < r.value.1 <= |bytes|
    decreases |bytes| - p, 0
  {
    var fieldBase := p + 4 + Pad8(p + 4);
    var end := fieldBase + ObjectBodySize(info);
    if end > |bytes| then Err("body past the input")
    else if info.nNonStatic > |info.fields| then Err("field table too short")
    else match ParseFields(infos, bytes, fieldBase, end, info, info.nNonStatic)
      case Err(e) => Err(e)
      case Ok((sets, q)) => Ok((RObject(info.klass, sets), q))
  }

  /** The field loop of `do_parse_object` over the first i fields: the
      stores made and the offset reached. A primitive field is read from the
      body at its offset; a reference field is the next record. */
  function ParseFields(infos: seq<ClassRecord>, bytes: seq<Byte>, fieldBase: nat, start: nat,
                       info: ClassRecord, i: nat): (r: Result<(seq<FieldSet>, nat)>)
    requires start <= |bytes| && i <= |info.fields|
    ensures r.Ok? ==> |r.value.0| == i && start <= r.value.1 <= |bytes|
    decreases |bytes| - start, 3, i
  {
    if i == 0 then Ok(([], start))
    else match ParseFields(infos, bytes, fieldBase, start, info, i - 1)
      case Err(e) => Err(e)
      case Ok((sets, q)) =>
        var f := info.fields[i - 1];
        if IsPrimitiveType(f.typ) then
          var at := fieldBase + f.offset;
          if at + TypeSize(f.typ) > |bytes| then Err("field past the input")
          else Ok((sets + [SetPrim(f.jFieldId, f.typ, bytes[at..at + TypeSize(f.typ)])], q))
        else if IsReferenceType(f.typ) then
          match Parse(infos, bytes, q)
          case Err(e) => Err(e)
          case Ok((v, q')) => Ok((sets + [SetRef(f.jFieldId, v)], q'))
        else Err("unreachable field type")
  }

  /** `do_parse_array(base, info)`: the length, padding, then the raw
      elements or one record per element. */
  function ParseArray(infos: seq<ClassRecord>, bytes: seq<Byte>, p: nat, info: ClassRecord): (r: Result<(Revived, nat)>)
    requires p + 4 <= |bytes|
    ensures r.Ok? ==> p < r.value.1 <= |bytes|
    decreases |bytes| - p, 0
  {
    if p + 8 > |bytes| || !HasElemType(info) then Err("record past the input or no element slot")
    else
      var length := U32At(bytes, p + 4);
      var start := p + 8 + Pad8(p + 8);
      var elem := info.fields[0];
      if start > |bytes| then Err("record past the input")
      else if IsPrimitiveType(elem.typ) then ParsePrimArray(bytes, start, info, length)
      else if !IsReferenceType(elem.typ) then Err("unreachable element type")
      else match ById(infos, elem.id)
        case None => Err("unknown element class")
        case Some(elemInfo) =>
          match ParseElems(infos, bytes, start, length)
          case Err(e) => Err(e)
          case Ok((vs, q)) => Ok((RRefArray(elemInfo.klass, length, vs), q))
  }

  /** Primitive elements: the `array_body_size(length)` bytes after the
      header become the new array's contents. */
  function ParsePrimArray(bytes: seq<Byte>, start: nat, info: ClassRecord, length: U32): (r: Result<(Revived, nat)>)
    requires HasElemType(info) && IsPrimitiveType(info.fields[0].typ) && start <= |bytes|
    ensures r.Ok? ==> r.value.1 == start + ArrayBodySize(info, length) <= |bytes|
  {
    var size := ArrayBodySize(info, length);
    if info.dim != 1 then Err("primitive elements need one dimension")
    else if start + size > |bytes| then Err("elements past the input")
    else Ok((RPrimArray(info.fields[0].typ, length, bytes[start..start + size]), start + size))
  }

  /** Primitive elements as `do_parse_array` copies them: the JNI region
      copy is given the element count `length` as its byte count, so only
      the first `length` bytes reach the new array, while the cursor still
      moves past `array_body_size(length)` bytes. */
  function ParsePrimArrayAsWritten(bytes: seq<Byte>, start: nat, info: ClassRecord, length: U32): (r: Result<(Revived, nat)>)
    requires HasElemType(info) && IsPrimitiveType(info.fields[0].typ) && start <= |bytes|
    ensures r.Ok? ==> r.value.1 == start + ArrayBodySize(info, length) <= |bytes|
    ensures r.Ok? ==> r.value.0.RPrimArray? && |r.value.0.data| == length
  {
    var size := ArrayBodySize(info, length);
    if info.dim != 1 then Err("primitive elements need one dimension")
    else if start + size > |bytes| || start + length > |bytes| then Err("elements past the input")
    else Ok((RPrimArray(info.fields[0].typ, length, bytes[start..start + length]), start + size))
  }

  /** For elements wider than a byte the copy as written keeps only a
      prefix of the elements' bytes: the array it builds differs from the
      one the elements' bytes describe, though both stop at the same
      offset. */
  lemma PrimArrayAsWrittenTruncates(bytes: seq<Byte>, start: nat, info: ClassRecord, length: U32)
    requires HasElemType(info) && IsPrimitiveType(info.fields[0].typ) && info.dim == 1
    requires TypeSize(info.fields[0].typ) > 1 && length > 0
    requires length * TypeSize(info.fields[0].typ) < U32_MOD
    requires start + length * TypeSize(info.fields[0].typ) <= |bytes|
    ensures var w := ParsePrimArrayAsWritten(bytes, start, info, length);
            var i := ParsePrimArray(bytes, start, info, length);
            w.Ok? && i.Ok? && w.value.1 == i.value.1
            && w.value.0.data == i.value.0.data[..length] && |w.value.0.data| < |i.value.0.data|
  {
    var ts := TypeSize(info.fields[0].typ);
    assert length * ts >= length * 2 == length + length;
  }

  /** The element loop of `do_parse_array` over the first i elements. */
  function ParseElems(infos: seq<ClassRecord>, bytes: seq<Byte>, start: nat, i: nat): (r: Result<(seq<Revived>, nat)>)
    requires start <= |bytes|
    ensures r.Ok? ==> |r.value.0| == i && start <= r.value.1 <= |bytes|
    decreases |bytes| - start, 3, i
  {
    if i == 0 then Ok(([], start))
    else match ParseElems(infos, bytes, start, i - 1)
      case Err(e) => Err(e)
      case Ok((vs, q)) =>
        match Parse(infos, bytes, q)
        case Err(e) => Err(e)
        case Ok((v, q')) => Ok((vs + [v], q'))
  }
}
