/**
 * Class-info records: the per-class description the serializer keeps for
 * every registered Java class (`class_info_t`), its size accessors and kind
 * predicates, and the two builders that lay a fresh record out for an
 * instance klass and for an array klass.
 *
 * A record lives in an arena as a header, a field table, an enum table (for
 * enums only) and a fixed-size signature area; here it is a value whose
 * `*Off` fields keep the offsets of those areas inside the allocation.
 */
module ClassInfos {
  import opened Bytes
  import opened BasicTypes

  /** `sizeof(class_info_t)`, `sizeof(field_info_t)`, `sizeof(obj_with_handle_t)`
      and the size of one enum pointer in `mirror_size`. */
  const CLASS_INFO_SIZE: nat := 24
  const FIELD_INFO_SIZE: nat := 24
  const OBJ_WITH_HANDLE_SIZE: nat := 16
  const OBJECT_POINTER_SIZE: nat := 8
  const MAX_SIGNATURE_LENGTH: nat := 80
  /** Serialized data starts after the 8-byte `total_length` header. */
  const OBJECT_DATA_OFFSET: nat := 8
  /** Mark word plus compressed klass pointer: where an enum's ordinal sits. */
  const ENUM_ORDINAL_OFFSET: nat := 12

  /** `field_info_t`: class id of a reference field, offset after the object
      header, basic type, access flags and the JNI field id. */
  datatype FieldInfo = FieldInfo(id: int, offset: U16, typ: int, flag: U16, jFieldId: U64)

  /** `obj_with_handle_t`: an enum constant and its JNI global handle. */
  datatype ObjWithHandle = ObjWithHandle(obj: U64, handle: U64)

  /** `class_info_t` together with its trailing areas. */
  datatype ClassRecord = ClassRecord(
    klass: U64,
    id: int,
    enumRefArrOff: U16,
    klassCptr: U32,
    objSize: U16,
    headerSize: Byte,
    nNonStatic: Byte,
    nStatic: Byte,
    dim: Byte,
    sigOff: U16,
    fields: seq<FieldInfo>,
    enums: seq<ObjWithHandle>,
    sig: seq<char>)

  /** What a freshly built record's field slots hold: every byte 0xFF. */
  const BLANK_FIELD: FieldInfo := FieldInfo(-1, 0xFFFF, -1, 0xFFFF, U64_MAX)

  /** `is_enum`: the enum table offset is set. */
  predicate IsEnum(r: ClassRecord) { r.enumRefArrOff != 0 }

  /** `is_array`: one or more dimensions. */
  predicate IsArray(r: ClassRecord) { r.dim >= 1 }

  /** `is_object`: no dimension. */
  predicate IsObject(r: ClassRecord) { r.dim == 0 }

  /** Every record is exactly one of object and array. */
  lemma KindsComplementary(r: ClassRecord)
    ensures IsArray(r) <==> !IsObject(r)
  {
  }

  /** `n_field`: static and non-static fields together. */
  function NField(r: ClassRecord): (n: nat)
    ensures n >= r.nNonStatic && n >= r.nStatic && n - r.nStatic == r.nNonStatic
  {
    r.nNonStatic + r.nStatic
  }

  /** `object_body_size`: `obj_size - header_size` in 32-bit unsigned
      arithmetic. Below the header it wraps to a value near 2^32. */
  function ObjectBodySize(r: ClassRecord): (n: U32)
    ensures r.headerSize <= r.objSize ==> n + r.headerSize == r.objSize
    ensures r.headerSize > r.objSize ==> n > U32_MOD - 0x100
  {
    (r.objSize - r.headerSize) % U32_MOD
  }

  /** The element type sits in the one field slot of an array record. */
  predicate HasElemType(r: ClassRecord)
  {
    |r.fields| >= 1 && IsBasicType(r.fields[0].typ)
  }

  /** `array_body_size(length)`: 32-bit `length * type_size(element type)`. */
  function ArrayBodySize(r: ClassRecord, length: U32): (n: U32)
    requires HasElemType(r)
    ensures length * TypeSize(r.fields[0].typ) < U32_MOD ==> n == length * TypeSize(r.fields[0].typ)
    ensures !IsPrimitiveType(r.fields[0].typ) && !IsReferenceType(r.fields[0].typ) ==> n == 0
  {
    (length * TypeSize(r.fields[0].typ)) % U32_MOD
  }

  /** `array_size(length)`: header plus body, in 32-bit arithmetic. */
  function ArraySize(r: ClassRecord, length: U32): (n: U32)
    requires HasElemType(r)
    ensures r.headerSize + ArrayBodySize(r, length) < U32_MOD ==> n == r.headerSize + ArrayBodySize(r, length)
  {
    (r.headerSize + ArrayBodySize(r, length)) % U32_MOD
  }

  /** `mirror_size`: header, non-static field table and, for enums, one
      pointer per static field. */
  function MirrorSize(r: ClassRecord): (n: nat)
    ensures n >= CLASS_INFO_SIZE + r.nNonStatic * FIELD_INFO_SIZE
  {
    CLASS_INFO_SIZE + r.nNonStatic * FIELD_INFO_SIZE + (if IsEnum(r) then r.nStatic * OBJECT_POINTER_SIZE else 0)
  }

  /** `size`: the mirror plus the signature area. */
  function Size(r: ClassRecord): (n: nat)
    ensures n == MirrorSize(r) + MAX_SIGNATURE_LENGTH
  {
    MirrorSize(r) + MAX_SIGNATURE_LENGTH
  }

  /** `set_enum(ordinal, obj, handle)`: fill one slot of the enum table. */
  function SetEnum(r: ClassRecord, ordinal: nat, obj: U64, handle: U64): (r': ClassRecord)
    requires ordinal < |r.enums|
    ensures |r'.enums| == |r.enums|
    ensures r' == r.(enums := r'.enums)
  {
    r.(enums := r.enums[ordinal := ObjWithHandle(obj, handle)])
  }

  /** `get_enum(ordinal)`. */
  function GetEnum(r: ClassRecord, ordinal: nat): (e: ObjWithHandle)
    requires ordinal < |r.enums|
    ensures e in r.enums
  {
    r.enums[ordinal]
  }

  /** Reading a slot after setting it gives back what was set, and the other
      slots keep their contents. */
  lemma GetAfterSetEnum(r: ClassRecord, ordinal: nat, obj: U64, handle: U64, other: nat)
    requires ordinal < |r.enums| && other < |r.enums|
    ensures GetEnum(SetEnum(r, ordinal, obj, handle), ordinal) == ObjWithHandle(obj, handle)
    ensures other != ordinal ==> GetEnum(SetEnum(r, ordinal, obj, handle), other) == GetEnum(r, other)
  {
  }

  /** The text a C string holds: the characters before the first NUL. */
  function CString(s: seq<char>): (t: seq<char>)
  {
    if s == [] || s[0] == '\0' then [] else [s[0]] + CString(s[1..])
  }

  /** The C string is the longest NUL-free prefix: it is a prefix, holds no
      NUL, and is followed by a NUL unless it fills the whole area. */
  lemma {:induction false} CStringIsPrefix(s: seq<char>)
    ensures var t := CString(s);
            |t| <= |s| && t == s[..|t|] && '\0' !in t && (|t| < |s| ==> s[|t|] == '\0')
  {
    if s != [] && s[0] != '\0' {
      CStringIsPrefix(s[1..]);
    }
  }

  /** `signature()`. */
  function Signature(r: ClassRecord): (v: seq<char>)
  {
    CString(r.sig)
  }

  /** `n` copies of `c`: the `memset(sig, '?', ...)` fill. */
  function Repeat(c: char, n: nat): (s: seq<char>)
    ensures |s| == n && forall i :: 0 <= i < n ==> s[i] == c
  {
    if n == 0 then [] else [c] + Repeat(c, n - 1)
  }

  /** A C string stored in a '?'-filled area reads back as the text. */
  lemma {:induction false} CStringOfStored(text: seq<char>, rest: seq<char>)
    requires '\0' !in text
    ensures CString(text + ['\0'] + rest) == text
  {
    if text != [] {
      assert (text + ['\0'] + rest)[1..] == text[1..] + ['\0'] + rest;
      CStringOfStored(text[1..], rest);
    }
  }

  /** What an instance klass tells the builder: its address and compressed
      address, name, object size and counts of all and of static fields. */
  datatype InstanceShape = InstanceShape(
    klass: U64, klassCptr: U32, name: seq<char>, objSize: U16, nField: Byte, nStatic: Byte)

  /** `needed_size` of `from_instance_klass`: header and field table, then
      the enum table of `n_static - 1` entries for enums, then the signature. */
  function InstanceNeededSize(nNonStatic: nat, nStatic: nat, isEnum: bool): (n: nat)
    requires isEnum ==> nStatic > 1
    ensures n == CLASS_INFO_SIZE + nNonStatic * FIELD_INFO_SIZE
            + (if isEnum then (nStatic - 1) * OBJ_WITH_HANDLE_SIZE else 0) + MAX_SIGNATURE_LENGTH
  {
    CLASS_INFO_SIZE + nNonStatic * FIELD_INFO_SIZE
    + (if isEnum then (nStatic - 1) * OBJ_WITH_HANDLE_SIZE else 0) + MAX_SIGNATURE_LENGTH
  }

  /** The precondition `from_instance_klass` asserts: the name fits the
      signature area with 'L', ';' and NUL, and an enum has constants but no
      instance fields. */
  predicate InstanceBuildable(k: InstanceShape, isEnum: bool)
  {
    k.nStatic <= k.nField
    && |k.name| + 2 < MAX_SIGNATURE_LENGTH && '\0' !in k.name
    && (isEnum ==> k.nStatic > 1 && k.nField == k.nStatic)
  }

  /** `from_instance_klass(klass, is_enum)`: a record with no id yet, header
      size 255 (lowered later to the first field offset), blank field slots,
      and the signature `L<name>;` padded with '?'. */
  function FromInstanceKlass(k: InstanceShape, isEnum: bool): (r: ClassRecord)
    requires InstanceBuildable(k, isEnum)
    ensures r.id == UNREGISTERED_CLASS_ID && r.headerSize == 0xFF && r.dim == 0
    ensures r.klass == k.klass && r.objSize == k.objSize
    ensures r.nNonStatic + r.nStatic == k.nField && r.nStatic == k.nStatic
    ensures NField(r) == k.nField
    ensures IsEnum(r) <==> isEnum
    ensures IsObject(r) && !IsArray(r)
    ensures isEnum ==> r.enumRefArrOff == CLASS_INFO_SIZE + r.nNonStatic * FIELD_INFO_SIZE
    ensures r.sigOff + MAX_SIGNATURE_LENGTH == InstanceNeededSize(r.nNonStatic, r.nStatic, isEnum)
    ensures |r.fields| == r.nNonStatic && forall i :: 0 <= i < |r.fields| ==> r.fields[i] == BLANK_FIELD
    ensures |r.enums| == (if isEnum then k.nStatic - 1 else 0)
    ensures |r.sig| == MAX_SIGNATURE_LENGTH && Signature(r) == ['L'] + k.name + [';']
    ensures forall i :: |k.name| + 3 <= i < MAX_SIGNATURE_LENGTH ==> r.sig[i] == '?'
  {
    var nNonStatic := k.nField - k.nStatic;
    var fieldsEnd := CLASS_INFO_SIZE + nNonStatic * FIELD_INFO_SIZE;
    var enumOff := if isEnum then fieldsEnd else 0;
    var sigOff := InstanceNeededSize(nNonStatic, k.nStatic, isEnum) - MAX_SIGNATURE_LENGTH;
    var text := ['L'] + k.name + [';'];
    var rest := Repeat('?', MAX_SIGNATURE_LENGTH - |text| - 1);
    CStringOfStored(text, rest);
    ClassRecord(
      k.klass, UNREGISTERED_CLASS_ID, enumOff, k.klassCptr, k.objSize, 0xFF,
      nNonStatic, k.nStatic, 0, sigOff,
      seq(nNonStatic, _ => BLANK_FIELD),
      seq(if isEnum then k.nStatic - 1 else 0, _ => ObjWithHandle(0, 0)),
      text + ['\0'] + rest)
  }

  /** `size()` agrees with the space `from_instance_klass` allocates except
      for enums: it counts 8 bytes per static field where 16 bytes per
      constant (one fewer than the static fields) are allocated, so the two
      agree for an enum only when it has exactly two static fields. */
  lemma SizeVersusAllocation(k: InstanceShape, isEnum: bool)
    requires InstanceBuildable(k, isEnum)
    ensures var r := FromInstanceKlass(k, isEnum);
            Size(r) == InstanceNeededSize(r.nNonStatic, r.nStatic, isEnum) <==> !isEnum || k.nStatic == 2
  {
  }

  /** The size `size()` evidently means: the header, the field table, the
      enum table as the builders lay it out (16 bytes per constant) and the
      signature area. */
  function RecordSize(r: ClassRecord): (n: nat)
    ensures n >= CLASS_INFO_SIZE + MAX_SIGNATURE_LENGTH
  {
    CLASS_INFO_SIZE + r.nNonStatic * FIELD_INFO_SIZE + |r.enums| * OBJ_WITH_HANDLE_SIZE + MAX_SIGNATURE_LENGTH
  }

  /** The corrected size is exactly what `from_instance_klass` allocates,
      for enums too, and it ends where the signature area ends. */
  lemma RecordSizeIsAllocation(k: InstanceShape, isEnum: bool)
    requires InstanceBuildable(k, isEnum)
    ensures var r := FromInstanceKlass(k, isEnum);
            RecordSize(r) == InstanceNeededSize(r.nNonStatic, r.nStatic, isEnum)
            && RecordSize(r) == r.sigOff + MAX_SIGNATURE_LENGTH
  {
  }

  /** Three constants give four static fields (the constants and `$VALUES`):
      `size()` counts 32 bytes of enum table where 48 are allocated. */
  lemma SizeShortForThreeConstants(k: InstanceShape)
    requires InstanceBuildable(k, true) && k.nStatic == 4
    ensures var r := FromInstanceKlass(k, true);
            Size(r) + 16 == InstanceNeededSize(r.nNonStatic, r.nStatic, true) == RecordSize(r)
  {
  }

  /** What an array klass tells the builder. */
  datatype ArrayShape = ArrayShape(
    klass: U64, klassCptr: U32, sig: seq<char>, dim: Byte, headerSize: Byte)

  /** `from_array_klass`: one element slot, to be typed by the walker. */
  const ARRAY_NEEDED_SIZE: nat := CLASS_INFO_SIZE + FIELD_INFO_SIZE + MAX_SIGNATURE_LENGTH

  predicate ArrayBuildable(k: ArrayShape)
  {
    |k.sig| < MAX_SIGNATURE_LENGTH && '\0' !in k.sig && k.dim >= 1
  }

  /** `from_array_klass(klass)`: header size and object size are the array
      header, one field slot of type T_ILLEGAL at offset 0 with no id, and
      the signature stored as is. */
  function FromArrayKlass(k: ArrayShape): (r: ClassRecord)
    requires ArrayBuildable(k)
    ensures r.id == UNREGISTERED_CLASS_ID && r.objSize == r.headerSize == k.headerSize
    ensures r.klass == k.klass && r.dim == k.dim && IsArray(r) && !IsEnum(r)
    ensures r.nNonStatic == 1 && r.nStatic == 0 && |r.fields| == 1
    ensures r.fields[0].typ == T_ILLEGAL && r.fields[0].id == UNREGISTERED_CLASS_ID && r.fields[0].offset == 0
    ensures r.sigOff + MAX_SIGNATURE_LENGTH == ARRAY_NEEDED_SIZE
    ensures |r.sig| == MAX_SIGNATURE_LENGTH && Signature(r) == k.sig
  {
    var rest := Repeat('?', MAX_SIGNATURE_LENGTH - |k.sig| - 1);
    CStringOfStored(k.sig, rest);
    ClassRecord(
      k.klass, UNREGISTERED_CLASS_ID, 0, k.klassCptr, k.headerSize, k.headerSize,
      1, 0, k.dim, CLASS_INFO_SIZE + FIELD_INFO_SIZE,
      [FieldInfo(UNREGISTERED_CLASS_ID, 0, T_ILLEGAL, 0, 0)],  // flag and JNI id are not written
      [],
      k.sig + ['\0'] + rest)
  }
}
