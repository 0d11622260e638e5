/**
 * The HotSpot basic-type codes the serializer uses, their sizes and
 * descriptor characters, and the 16-bit record flags: a control nibble
 * (null, enum, redirect) and a type nibble (object, array).
 */
module BasicTypes {
  const T_BOOLEAN: int := 4
  const T_CHAR: int := 5
  const T_FLOAT: int := 6
  const T_DOUBLE: int := 7
  const T_BYTE: int := 8
  const T_SHORT: int := 9
  const T_INT: int := 10
  const T_LONG: int := 11
  const T_OBJECT: int := 12
  const T_ARRAY: int := 13
  const T_VOID: int := 14
  const T_ADDRESS: int := 15
  const T_NARROWOOP: int := 16
  const T_METADATA: int := 17
  const T_NARROWKLASS: int := 18
  const T_CONFLICT: int := 19
  const T_ILLEGAL: int := 20

  /** Class ids are positive and above every legal basic type; a negative id
      means null. */
  const MIN_CLASS_ID: int := T_ILLEGAL
  const MAX_CLASS_ID: int := 0x7FFF
  const UNREGISTERED_CLASS_ID: int := -1

  /** The flag word's two nibbles: the control nibble (mask 0x0F) and the
      type nibble (mask 0xF0). Flags are kept as numbers; `f & 0x0F` is
      `CtrlNibble(f)` and `f & 0xF0` is `TypeNibble(f)`. */
  const CTRL_FLAG_MASK: nat := 0x0F
  const NULL_FLAG: nat := 0x1
  const ENUM_FLAG: nat := 0x2
  const REDIRECT_FLAG: nat := 0x3
  const TYPE_FLAG_MASK: nat := 0xF0
  const OBJECT_FLAG: nat := 0x10
  const ARRAY_FLAG: nat := 0x20

  /** The primitive descriptor characters. */
  const PRIMITIVE_SIGS: seq<char> := "ZCFDBSIJ"

  /** A code the switch tables handle: T_BOOLEAN through T_ILLEGAL. */
  predicate IsBasicType(t: int)
  {
    T_BOOLEAN <= t <= T_ILLEGAL
  }

  /** `is_primitive_type`. */
  predicate IsPrimitiveType(t: int)
  {
    T_BOOLEAN <= t <= T_LONG
  }

  /** `is_reference_type`. */
  predicate IsReferenceType(t: int)
  {
    T_OBJECT <= t <= T_ARRAY
  }

  /** `type_size`: the bytes a field of the type takes in an object body,
      with compressed oops for references. Other codes are unreachable. */
  function TypeSize(t: int): (n: nat)
    requires IsBasicType(t)
    ensures IsPrimitiveType(t) ==> n in {1, 2, 4, 8}
    ensures IsReferenceType(t) ==> n == 4
    ensures !IsPrimitiveType(t) && !IsReferenceType(t) ==> n == 0
  {
    if t == T_BOOLEAN || t == T_BYTE then 1
    else if t == T_CHAR || t == T_SHORT then 2
    else if t == T_INT || t == T_FLOAT then 4
    else if t == T_LONG || t == T_DOUBLE then 8
    else if t == T_OBJECT || t == T_ARRAY then 4
    else 0
  }

  /** A descriptor character `char2type` handles. */
  predicate IsTypeChar(c: char)
  {
    c in "BCDFIJSZVL["
  }

  /** `char2type`. */
  function Char2Type(c: char): (t: int)
    requires IsTypeChar(c)
    ensures IsBasicType(t)
    ensures IsPrimitiveType(t) <==> c in PRIMITIVE_SIGS
    ensures IsReferenceType(t) <==> c == 'L' || c == '['
  {
    match c
    case 'B' => T_BYTE
    case 'C' => T_CHAR
    case 'D' => T_DOUBLE
    case 'F' => T_FLOAT
    case 'I' => T_INT
    case 'J' => T_LONG
    case 'S' => T_SHORT
    case 'Z' => T_BOOLEAN
    case 'V' => T_VOID
    case 'L' => T_OBJECT
    case '[' => T_ARRAY
  }

  /** `type2sig`: the descriptor of a primitive type; the other codes are
      unreachable. It inverts `char2type` on primitives. */
  function Type2Sig(t: int): (c: char)
    requires IsPrimitiveType(t)
    ensures c in PRIMITIVE_SIGS && Char2Type(c) == t
  {
    if t == T_BOOLEAN then 'Z'
    else if t == T_CHAR then 'C'
    else if t == T_FLOAT then 'F'
    else if t == T_DOUBLE then 'D'
    else if t == T_BYTE then 'B'
    else if t == T_SHORT then 'S'
    else if t == T_INT then 'I'
    else 'J'
  }

  /** Each primitive descriptor survives `char2type` then `type2sig`. */
  lemma SigRoundTrip(c: char)
    requires c in PRIMITIVE_SIGS
    ensures Type2Sig(Char2Type(c)) == c
  {
  }

  /** `f & CTRL_FLAG_MASK`. */
  function CtrlNibble(f: nat): (n: nat)
    ensures n < 0x10
  {
    f % 0x10
  }

  /** `f & TYPE_FLAG_MASK`. */
  function TypeNibble(f: nat): (n: nat)
    ensures n % 0x10 == 0 && n < 0x100
  {
    f / 0x10 % 0x10 * 0x10
  }

  /** `is_null_f`. */
  predicate IsNullF(f: nat)
  {
    CtrlNibble(f) == NULL_FLAG
  }

  /** `is_object_f`. */
  predicate IsObjectF(f: nat)
  {
    TypeNibble(f) == OBJECT_FLAG
  }

  /** `is_array_f`. */
  predicate IsArrayF(f: nat)
  {
    TypeNibble(f) == ARRAY_FLAG
  }

  /** `is_enum_f`: an object flag whose control nibble says enum. */
  predicate IsEnumF(f: nat)
  {
    IsObjectF(f) && CtrlNibble(f) == ENUM_FLAG
  }

  /** `is_redirect_f`. */
  predicate IsRedirectF(f: nat)
  {
    CtrlNibble(f) == REDIRECT_FLAG
  }

  /** Null, enum and redirect share the control nibble and object and array
      the type nibble, so each pair excludes the other; enum implies object. */
  lemma FlagsExclusive(f: nat)
    ensures !(IsNullF(f) && IsEnumF(f)) && !(IsNullF(f) && IsRedirectF(f)) && !(IsEnumF(f) && IsRedirectF(f))
    ensures !(IsObjectF(f) && IsArrayF(f))
    ensures IsEnumF(f) ==> IsObjectF(f)
  {
  }

  /** The flags the encoders write are read back as meant: a bare null flag,
      an enum object, a plain object and an array. */
  lemma WrittenFlags()
    ensures IsNullF(NULL_FLAG) && !IsObjectF(NULL_FLAG) && !IsArrayF(NULL_FLAG)
    ensures IsEnumF(ENUM_FLAG + OBJECT_FLAG) && !IsNullF(ENUM_FLAG + OBJECT_FLAG)
    ensures IsObjectF(OBJECT_FLAG) && !IsEnumF(OBJECT_FLAG) && !IsNullF(OBJECT_FLAG) && !IsRedirectF(OBJECT_FLAG)
    ensures IsArrayF(ARRAY_FLAG) && !IsNullF(ARRAY_FLAG) && !IsRedirectF(ARRAY_FLAG)
  {
  }
}
