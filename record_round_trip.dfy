/**
 * What a Java program sees after deserializing, and the round trip: the
 * decoder applied to the bytes the encoder writes rebuilds exactly the
 * value the object stands for, wherever the record sits in the buffer.
 */
module RecordRoundTrip {
  import opened Bytes
  import opened BasicTypes
  import opened ClassInfos
  import opened ClassRegistry
  import opened Wrappers
  import opened RWBuffers
  import opened RecordFormat
  import opened RecordParse

  /** The value a faithful copy of `o` revives to: null for null, the
      registered constant for an enum, an object of the same class whose
      primitive fields hold the body's bytes at their slots and whose
      reference fields hold the copies of the members, and arrays of the
      same element type, length and contents. */
  function View(c: Classes, o: JObj, eid: int): (v: Revived)
    requires Encodable(c, o, eid)
    decreases o
  {
    match o
    case Null => RNull
    case Enum(k, ord) => REnum(Info(c, k).value.enums[ord])
    case Instance(k, body, refs) => RObject(k, ViewFields(c, o, Info(c, k).value, |refs|))
    case Array(k, len, raw, elems) =>
      var info := Info(c, k).value;
      var elem := info.fields[0];
      if IsReferenceType(elem.typ) then
        RRefArray(c.infos[elem.id - MIN_CLASS_ID].klass, len, ViewElems(c, o, info, |elems|))
      else RPrimArray(elem.typ, len, raw)
  }

  /** The stores for the first i fields. */
  function ViewFields(c: Classes, o: JObj, info: ClassRecord, i: nat): (sets: seq<FieldSet>)
    requires o.Instance? && InstanceOk(c, o, info) && i <= |o.refs|
    ensures |sets| == i
    decreases o, 1, i
  {
    if i == 0 then []
    else
      var f := info.fields[i - 1];
      ViewFields(c, o, info, i - 1)
      + [if IsPrimitiveType(f.typ) then SetPrim(f.jFieldId, f.typ, o.body[f.offset..f.offset + TypeSize(f.typ)])
         else SetRef(f.jFieldId, View(c, o.refs[i - 1], f.id))]
  }

  /** The copies of the first i elements. */
  function ViewElems(c: Classes, o: JObj, info: ClassRecord, i: nat): (vs: seq<Revived>)
    requires o.Array? && HasElemType(info) && ArrayOk(c, o, info)
    requires IsReferenceType(info.fields[0].typ) && i <= |o.elems|
    ensures |vs| == i
    decreases o, 1, i
  {
    if i == 0 then []
    else ViewElems(c, o, info, i - 1) + [View(c, o.elems[i - 1], info.fields[0].id)]
  }

  /** The bytes from offset k on begin with s. */
  predicate At(bytes: seq<Byte>, k: nat, s: seq<Byte>)
  {
    k + |s| <= |bytes| && bytes[k..k + |s|] == s
  }

  /** A decoding step that succeeds with v and stops at `end`. */
  predicate Decodes<T(==)>(r: Result<(T, nat)>, v: T, end: nat)
  {
    r.Ok? && r.value.0 == v && r.value.1 == end
  }

  lemma DecodesOk<T>(r: Result<(T, nat)>, v: T, end: nat)
    requires Decodes(r, v, end)
    ensures r == Ok((v, end))
  {
  }

  lemma AtSplit(bytes: seq<Byte>, k: nat, s: seq<Byte>, t: seq<Byte>)
    requires At(bytes, k, s + t)
    ensures At(bytes, k, s) && At(bytes, k + |s|, t)
  {
    assert bytes[k..k + |s|] == (s + t)[..|s|];
    assert bytes[k + |s|..k + |s| + |t|] == (s + t)[|s|..];
  }

  lemma AtSplitAt(bytes: seq<Byte>, k: nat, s: seq<Byte>, t: seq<Byte>, m: nat)
    requires At(bytes, k, s + t) && m == k + |s|
    ensures At(bytes, k, s) && At(bytes, m, t)
  {
    AtSplit(bytes, k, s, t);
  }

  lemma AtSlice(bytes: seq<Byte>, k: nat, s: seq<Byte>, j: nat, m: nat)
    requires At(bytes, k, s) && j + m <= |s|
    ensures bytes[k + j..k + j + m] == s[j..j + m]
  {
    forall u | k + j <= u < k + j + m
      ensures bytes[u] == s[u - k]
    {
      assert bytes[u] == bytes[k..k + |s|][u - k];
    }
    assert bytes[k + j..k + j + m] == s[j..j + m];
  }

  /** A 16-bit word reads back as written. */
  lemma WordAt(bytes: seq<Byte>, k: nat, x: int)
    requires At(bytes, k, LE16(x)) && 0 <= x < U16_MOD
    ensures k + 2 <= |bytes| && U16At(bytes, k) == x
  {
  }

  /** A header with a registered id and a flag that is neither null nor
      redirect hands over to the kind dispatch with that id's record. */
  lemma HeaderParse(infos: seq<ClassRecord>, bytes: seq<Byte>, pos: nat, b: nat, id: int, code: nat)
    requires b == pos + Pad8(pos)
    requires MIN_CLASS_ID <= id < MIN_CLASS_ID + |infos| && id < 0x8000 && code < U16_MOD
    requires At(bytes, b, LE16(id) + LE16(code))
    requires !IsNullF(code) && !IsRedirectF(code)
    ensures b + 4 <= |bytes|
    ensures Parse(infos, bytes, pos) == ParseKind(infos, bytes, b, infos[id - MIN_CLASS_ID], code)
  {
    AtSplitAt(bytes, b, LE16(id), LE16(code), b + 2);
    WordAt(bytes, b, id);
    WordAt(bytes, b + 2, code);
    assert I16(U16At(bytes, b)) == id;
    assert ById(infos, id) == Some(infos[id - MIN_CLASS_ID]);
  }

  /** A null record: the expected id and the null flag. */
  lemma NullParse(infos: seq<ClassRecord>, bytes: seq<Byte>, pos: nat, b: nat, eid: int)
    requires b == pos + Pad8(pos) && At(bytes, b, LE16(eid) + LE16(NULL_CODE))
    ensures Decodes(Parse(infos, bytes, pos), RNull, b + 4)
  {
    AtSplitAt(bytes, b, LE16(eid), LE16(NULL_CODE), b + 2);
    WordAt(bytes, b + 2, NULL_CODE);
    WrittenFlags();
  }

  /** An enum record: the class, the enum flag and the ordinal. */
  lemma EnumParse(infos: seq<ClassRecord>, bytes: seq<Byte>, pos: nat, b: nat, info: ClassRecord, ord: U32)
    requires b == pos + Pad8(pos)
    requires MIN_CLASS_ID <= info.id < MIN_CLASS_ID + |infos| && info.id < 0x8000 && infos[info.id - MIN_CLASS_ID] == info
    requires IsEnum(info) && ord < |info.enums|
    requires At(bytes, b, LE16(info.id) + LE16(ENUM_CODE) + LE32(ord))
    ensures Decodes(Parse(infos, bytes, pos), REnum(info.enums[ord]), b + 8)
  {
    WrittenFlags();
    AtSplitAt(bytes, b, LE16(info.id) + LE16(ENUM_CODE), LE32(ord), b + 4);
    HeaderParse(infos, bytes, pos, b, info.id, ENUM_CODE);
    LengthAt(bytes, b + 4, ord as int);
  }

  /** An object record whose field loop succeeds. */
  lemma ObjectParse(infos: seq<ClassRecord>, bytes: seq<Byte>, pos: nat, b: nat, info: ClassRecord,
                    fb: nat, end: nat, sets: seq<FieldSet>, q: nat)
    requires b == pos + Pad8(pos) && fb == b + 4 + Pad8(b + 4) && end == fb + ObjectBodySize(info)
    requires MIN_CLASS_ID <= info.id < MIN_CLASS_ID + |infos| && info.id < 0x8000 && infos[info.id - MIN_CLASS_ID] == info
    requires !IsEnum(info) && IsObject(info) && info.nNonStatic <= |info.fields|
    requires At(bytes, b, LE16(info.id) + LE16(OBJECT_CODE)) && end <= |bytes|
    requires Decodes(ParseFields(infos, bytes, fb, end, info, info.nNonStatic), sets, q)
    ensures Decodes(Parse(infos, bytes, pos), RObject(info.klass, sets), q)
  {
    WrittenFlags();
    HeaderParse(infos, bytes, pos, b, info.id, OBJECT_CODE);
  }

  /** A 32-bit word reads back as written. */
  lemma LengthAt(bytes: seq<Byte>, k: nat, x: int)
    requires At(bytes, k, LE32(x)) && 0 <= x < U32_MOD
    ensures k + 4 <= |bytes| && U32At(bytes, k) == x
  {
  }

  /** The array header: past the class id and flag, the length. */
  lemma ArrayHeader(infos: seq<ClassRecord>, bytes: seq<Byte>, pos: nat, b: nat, info: ClassRecord, length: U32)
    requires b == pos + Pad8(pos)
    requires MIN_CLASS_ID <= info.id < MIN_CLASS_ID + |infos| && info.id < 0x8000 && infos[info.id - MIN_CLASS_ID] == info
    requires !IsEnum(info) && IsArray(info)
    requires At(bytes, b, LE16(info.id) + LE16(ARRAY_CODE) + LE32(length))
    ensures b + 8 <= |bytes| && U32At(bytes, b + 4) == length
    ensures Parse(infos, bytes, pos) == ParseArray(infos, bytes, b, info)
  {
    WrittenFlags();
    AtSplitAt(bytes, b, LE16(info.id) + LE16(ARRAY_CODE), LE32(length), b + 4);
    HeaderParse(infos, bytes, pos, b, info.id, ARRAY_CODE);
    LengthAt(bytes, b + 4, length);
  }

  /** A primitive array record: its raw elements. */
  lemma PrimArrayParse(infos: seq<ClassRecord>, bytes: seq<Byte>, pos: nat, b: nat, info: ClassRecord,
                       length: U32, raw: seq<Byte>)
    requires b == pos + Pad8(pos)
    requires MIN_CLASS_ID <= info.id < MIN_CLASS_ID + |infos| && info.id < 0x8000 && infos[info.id - MIN_CLASS_ID] == info
    requires !IsEnum(info) && IsArray(info) && HasElemType(info) && IsPrimitiveType(info.fields[0].typ)
    requires info.dim == 1 && |raw| == ArrayBodySize(info, length)
    requires At(bytes, b, LE16(info.id) + LE16(ARRAY_CODE) + LE32(length)) && At(bytes, ElemsStart(b), raw)
    ensures Decodes(Parse(infos, bytes, pos), RPrimArray(info.fields[0].typ, length, raw), ElemsStart(b) + |raw|)
  {
    ArrayHeader(infos, bytes, pos, b, info, length);
    PrimArrayBody(infos, bytes, b, info, length, raw);
  }

  lemma PrimArrayBody(infos: seq<ClassRecord>, bytes: seq<Byte>, b: nat, info: ClassRecord, length: U32, raw: seq<Byte>)
    requires HasElemType(info) && IsPrimitiveType(info.fields[0].typ)
    requires info.dim == 1 && |raw| == ArrayBodySize(info, length)
    requires b + 8 <= |bytes| && U32At(bytes, b + 4) == length && At(bytes, ElemsStart(b), raw)
    ensures Decodes(ParseArray(infos, bytes, b, info), RPrimArray(info.fields[0].typ, length, raw), ElemsStart(b) + |raw|)
  {
    var start := ElemsStart(b);
    assert ParsePrimArray(bytes, start, info, length) == Ok((RPrimArray(info.fields[0].typ, length, raw), start + |raw|));
  }

  /** A reference array record whose element loop succeeds. */
  lemma RefArrayParse(infos: seq<ClassRecord>, bytes: seq<Byte>, pos: nat, b: nat, info: ClassRecord,
                      length: U32, vs: seq<Revived>, q: nat)
    requires b == pos + Pad8(pos)
    requires MIN_CLASS_ID <= info.id < MIN_CLASS_ID + |infos| && info.id < 0x8000 && infos[info.id - MIN_CLASS_ID] == info
    requires !IsEnum(info) && IsArray(info) && HasElemType(info) && IsReferenceType(info.fields[0].typ)
    requires MIN_CLASS_ID <= info.fields[0].id < MIN_CLASS_ID + |infos|
    requires At(bytes, b, LE16(info.id) + LE16(ARRAY_CODE) + LE32(length)) && ElemsStart(b) <= |bytes|
    requires Decodes(ParseElems(infos, bytes, ElemsStart(b), length), vs, q)
    ensures Decodes(Parse(infos, bytes, pos), RRefArray(infos[info.fields[0].id - MIN_CLASS_ID].klass, length, vs), q)
  {
    ArrayHeader(infos, bytes, pos, b, info, length);
    RefArrayBody(infos, bytes, b, info, length, vs, q);
  }

  lemma RefArrayBody(infos: seq<ClassRecord>, bytes: seq<Byte>, b: nat, info: ClassRecord,
                     length: U32, vs: seq<Revived>, q: nat)
    requires HasElemType(info) && IsReferenceType(info.fields[0].typ)
    requires MIN_CLASS_ID <= info.fields[0].id < MIN_CLASS_ID + |infos|
    requires b + 8 <= |bytes| && U32At(bytes, b + 4) == length && ElemsStart(b) <= |bytes|
    requires Decodes(ParseElems(infos, bytes, ElemsStart(b), length), vs, q)
    ensures Decodes(ParseArray(infos, bytes, b, info), RRefArray(infos[info.fields[0].id - MIN_CLASS_ID].klass, length, vs), q)
  {
  }

  /** One primitive step of the reader's field loop. */
  lemma ParseFieldsPrimStep(infos: seq<ClassRecord>, bytes: seq<Byte>, fb: nat, start: nat, info: ClassRecord,
                            i: nat, sets: seq<FieldSet>, q: nat)
    requires start <= |bytes| && 0 < i <= |info.fields|
    requires Decodes(ParseFields(infos, bytes, fb, start, info, i - 1), sets, q)
    requires var f := info.fields[i - 1]; IsPrimitiveType(f.typ) && fb + f.offset + TypeSize(f.typ) <= |bytes|
    ensures var f := info.fields[i - 1];
            Decodes(ParseFields(infos, bytes, fb, start, info, i),
                    sets + [SetPrim(f.jFieldId, f.typ, bytes[fb + f.offset..fb + f.offset + TypeSize(f.typ)])], q)
  {
  }

  /** One reference step of the reader's field loop. */
  lemma ParseFieldsRefStep(infos: seq<ClassRecord>, bytes: seq<Byte>, fb: nat, start: nat, info: ClassRecord,
                           i: nat, sets: seq<FieldSet>, q: nat, v: Revived, q': nat)
    requires start <= |bytes| && 0 < i <= |info.fields|
    requires Decodes(ParseFields(infos, bytes, fb, start, info, i - 1), sets, q)
    requires IsReferenceType(info.fields[i - 1].typ) && Decodes(Parse(infos, bytes, q), v, q')
    ensures Decodes(ParseFields(infos, bytes, fb, start, info, i), sets + [SetRef(info.fields[i - 1].jFieldId, v)], q')
  {
  }

  /** One step of the reader's element loop. */
  lemma ParseElemsStep(infos: seq<ClassRecord>, bytes: seq<Byte>, start: nat, i: nat,
                       vs: seq<Revived>, q: nat, v: Revived, q': nat)
    requires start <= |bytes| && 0 < i
    requires Decodes(ParseElems(infos, bytes, start, i - 1), vs, q)
    requires Decodes(Parse(infos, bytes, q), v, q')
    ensures Decodes(ParseElems(infos, bytes, start, i), vs + [v], q')
  {
  }

  /** The record of a registered class carries an id the reader finds. */
  lemma InfoId(c: Classes, k: U64)
    requires Sound(c) && Info(c, k).Some?
    ensures var info := Info(c, k).value;
            KnownId(c, info.id) && info.id < 0x8000 && c.infos[info.id - MIN_CLASS_ID] == info && info.klass == k
  {
  }

  /** Decoding the bytes `walk` writes for `o` at the next 8-aligned offset
      gives the value `o` stands for and stops right after the record. */
  lemma RoundTrip(c: Classes, bytes: seq<Byte>, pos: nat, o: JObj, eid: int)
    requires Sound(c) && Encodable(c, o, eid)
    requires At(bytes, pos + Pad8(pos), Rec(c, pos + Pad8(pos), o, eid))
    ensures Parse(c.infos, bytes, pos)
            == Ok((View(c, o, eid), pos + Pad8(pos) + |Rec(c, pos + Pad8(pos), o, eid)|))
  {
    var b := pos + Pad8(pos);
    Revives(c, bytes, pos, b, o, eid);
    DecodesOk(Parse(c.infos, bytes, pos), View(c, o, eid), b + |Rec(c, b, o, eid)|);
  }

  /** The round trip for the record at b, the next 8-aligned offset after
      pos, by induction on the object. */
  lemma {:induction false} Revives(c: Classes, bytes: seq<Byte>, pos: nat, b: nat, o: JObj, eid: int)
    requires Sound(c) && Encodable(c, o, eid)
    requires b == pos + Pad8(pos) && At(bytes, b, Rec(c, b, o, eid))
    ensures Decodes(Parse(c.infos, bytes, pos), View(c, o, eid), b + |Rec(c, b, o, eid)|)
    decreases o, 3
  {
    match o
    case Null =>
      NullParse(c.infos, bytes, pos, b, eid);
    case Enum(k, ord) =>
      InfoId(c, k);
      EnumParse(c.infos, bytes, pos, b, Info(c, k).value, ord);
    case Instance(_, _, _) =>
      RevivesInstance(c, bytes, pos, b, o, eid);
    case Array(_, _, _, _) =>
      RevivesArray(c, bytes, pos, b, o, eid);
  }

  lemma {:induction false} RevivesInstance(c: Classes, bytes: seq<Byte>, pos: nat, b: nat, o: JObj, eid: int)
    requires Sound(c) && o.Instance? && Encodable(c, o, eid)
    requires b == pos + Pad8(pos) && At(bytes, b, Rec(c, b, o, eid))
    ensures Decodes(Parse(c.infos, bytes, pos), View(c, o, eid), b + |Rec(c, b, o, eid)|)
    decreases o, 2
  {
    var info := Info(c, o.klass).value;
    var out := FieldsOut(c, b, o, info, |o.refs|);
    var hdr := LE16(info.id) + LE16(OBJECT_CODE);
    var pad := Zeros(Pad8(b + 4));
    var fb := BodyStart(b);
    var end := fb + |o.body|;
    InfoId(c, o.klass);
    assert Rec(c, b, o, eid) == hdr + pad + out.0 + out.1;
    AtSplitAt(bytes, b, hdr + pad + out.0, out.1, end);
    AtSplitAt(bytes, b, hdr + pad, out.0, fb);
    AtSplit(bytes, b, hdr, pad);
    FieldsRevive(c, bytes, b, o, info, |o.refs|, fb, end);
    ObjectParse(c.infos, bytes, pos, b, info, fb, end, ViewFields(c, o, info, |o.refs|), end + |out.1|);
  }

  /** The field loop of the reader over the first i fields makes the stores
      of the copy and ends after the member records of those fields. */
  lemma {:induction false} FieldsRevive(c: Classes, bytes: seq<Byte>, b: nat, o: JObj, info: ClassRecord, i: nat,
                                        fb: nat, start: nat)
    requires Sound(c) && o.Instance? && InstanceOk(c, o, info) && i <= |o.refs|
    requires fb == BodyStart(b) && start == fb + |o.body|
    requires At(bytes, fb, FieldsOut(c, b, o, info, |o.refs|).0) && At(bytes, start, FieldsOut(c, b, o, info, i).1)
    ensures Decodes(ParseFields(c.infos, bytes, fb, start, info, i), ViewFields(c, o, info, i),
                    start + |FieldsOut(c, b, o, info, i).1|)
    decreases o, 1, i, 1
  {
    if i > 0 {
      if IsPrimitiveType(info.fields[i - 1].typ) {
        FieldsRevivePrim(c, bytes, b, o, info, i, fb, start);
      } else {
        FieldsReviveRef(c, bytes, b, o, info, i, fb, start);
      }
    }
  }

  /** A primitive field: its bytes are read from the body slot, which the
      patching left alone. */
  lemma {:induction false} FieldsRevivePrim(c: Classes, bytes: seq<Byte>, b: nat, o: JObj, info: ClassRecord, i: nat,
                                            fb: nat, start: nat)
    requires Sound(c) && o.Instance? && InstanceOk(c, o, info) && 0 < i <= |o.refs|
    requires IsPrimitiveType(info.fields[i - 1].typ)
    requires fb == BodyStart(b) && start == fb + |o.body|
    requires At(bytes, fb, FieldsOut(c, b, o, info, |o.refs|).0) && At(bytes, start, FieldsOut(c, b, o, info, i).1)
    ensures Decodes(ParseFields(c.infos, bytes, fb, start, info, i), ViewFields(c, o, info, i),
                    start + |FieldsOut(c, b, o, info, i).1|)
    decreases o, 1, i, 0
  {
    var prev := FieldsOut(c, b, o, info, i - 1);
    var q := start + |prev.1|;
    var whole := FieldsOut(c, b, o, info, |o.refs|).0;
    FieldsOutPrimStep(c, b, o, info, i);
    ViewFieldsPrimStep(c, o, info, i);
    PrimSlot(c, b, o, info, i);
    FieldsRevive(c, bytes, b, o, info, i - 1, fb, start);
    PrimFieldGlue(c.infos, bytes, fb, start, info, i, ViewFields(c, o, info, i - 1), q, whole, o.body);
  }

  /** A primitive step of the copy's field list stores the slot's bytes. */
  lemma ViewFieldsPrimStep(c: Classes, o: JObj, info: ClassRecord, i: nat)
    requires o.Instance? && InstanceOk(c, o, info) && 0 < i <= |o.refs|
    requires IsPrimitiveType(info.fields[i - 1].typ)
    ensures var f := info.fields[i - 1];
            ViewFields(c, o, info, i)
            == ViewFields(c, o, info, i - 1) + [SetPrim(f.jFieldId, f.typ, o.body[f.offset..f.offset + TypeSize(f.typ)])]
  {
  }

  /** A primitive slot lies inside the body and keeps the object's bytes
      once every reference slot is patched. */
  lemma PrimSlot(c: Classes, b: nat, o: JObj, info: ClassRecord, i: nat)
    requires o.Instance? && InstanceOk(c, o, info) && 0 < i <= |o.refs|
    requires IsPrimitiveType(info.fields[i - 1].typ)
    ensures var f := info.fields[i - 1]; var whole := FieldsOut(c, b, o, info, |o.refs|).0;
            i <= |info.fields| && |whole| == |o.body| && f.offset + TypeSize(f.typ) <= |whole|
            && whole[f.offset..f.offset + TypeSize(f.typ)] == o.body[f.offset..f.offset + TypeSize(f.typ)]
  {
    BodyKeepsPrimitive(c, b, o, info, |o.refs|, i - 1);
  }

  /** A primitive step of the writer's field loop appends nothing. */
  lemma FieldsOutPrimStep(c: Classes, b: nat, o: JObj, info: ClassRecord, i: nat)
    requires o.Instance? && InstanceOk(c, o, info) && 0 < i <= |o.refs|
    requires IsPrimitiveType(info.fields[i - 1].typ)
    ensures FieldsOut(c, b, o, info, i).1 == FieldsOut(c, b, o, info, i - 1).1
    ensures FieldsOut(c, b, o, info, i).0 == FieldsOut(c, b, o, info, i - 1).0
  {
  }

  /** The reader's primitive step takes the slot's bytes from the body as
      it sits in the input. */
  lemma PrimFieldGlue(infos: seq<ClassRecord>, bytes: seq<Byte>, fb: nat, start: nat, info: ClassRecord, i: nat,
                      sets: seq<FieldSet>, q: nat, whole: seq<Byte>, body: seq<Byte>)
    requires start <= |bytes| && 0 < i <= |info.fields| && At(bytes, fb, whole) && |body| == |whole|
    requires var f := info.fields[i - 1];
             IsPrimitiveType(f.typ) && f.offset + TypeSize(f.typ) <= |whole|
             && whole[f.offset..f.offset + TypeSize(f.typ)] == body[f.offset..f.offset + TypeSize(f.typ)]
    requires Decodes(ParseFields(infos, bytes, fb, start, info, i - 1), sets, q)
    ensures var f := info.fields[i - 1];
            Decodes(ParseFields(infos, bytes, fb, start, info, i),
                    sets + [SetPrim(f.jFieldId, f.typ, body[f.offset..f.offset + TypeSize(f.typ)])], q)
  {
    var f := info.fields[i - 1];
    AtSlice(bytes, fb, whole, f.offset, TypeSize(f.typ));
    ParseFieldsPrimStep(infos, bytes, fb, start, info, i, sets, q);
  }

  /** A reference field: the member's record follows, padded, and decodes
      to the member's copy. */
  lemma {:induction false} FieldsReviveRef(c: Classes, bytes: seq<Byte>, b: nat, o: JObj, info: ClassRecord, i: nat,
                                           fb: nat, start: nat)
    requires Sound(c) && o.Instance? && InstanceOk(c, o, info) && 0 < i <= |o.refs|
    requires !IsPrimitiveType(info.fields[i - 1].typ)
    requires fb == BodyStart(b) && start == fb + |o.body|
    requires At(bytes, fb, FieldsOut(c, b, o, info, |o.refs|).0) && At(bytes, start, FieldsOut(c, b, o, info, i).1)
    ensures Decodes(ParseFields(c.infos, bytes, fb, start, info, i), ViewFields(c, o, info, i),
                    start + |FieldsOut(c, b, o, info, i).1|)
    decreases o, 1, i, 0
  {
    var prev := FieldsOut(c, b, o, info, i - 1);
    var f := info.fields[i - 1];
    var q := start + |prev.1|;
    var mb := q + Pad8(q);
    FieldsOutRefStep(c, b, o, info, i, q);
    ViewFieldsRefStep(c, o, info, i);
    var sub := Rec(c, mb, o.refs[i - 1], f.id);
    MemberSplit(bytes, start, prev.1, q, sub, mb);
    FieldsRevive(c, bytes, b, o, info, i - 1, fb, start);
    Revives(c, bytes, q, mb, o.refs[i - 1], f.id);
    ParseFieldsRefStep(c.infos, bytes, fb, start, info, i, ViewFields(c, o, info, i - 1), q,
                       View(c, o.refs[i - 1], f.id), mb + |sub|);
  }

  /** A reference step of the copy's field list stores the member's copy. */
  lemma ViewFieldsRefStep(c: Classes, o: JObj, info: ClassRecord, i: nat)
    requires o.Instance? && InstanceOk(c, o, info) && 0 < i <= |o.refs|
    requires !IsPrimitiveType(info.fields[i - 1].typ)
    ensures Encodable(c, o.refs[i - 1], info.fields[i - 1].id)
    ensures var f := info.fields[i - 1];
            ViewFields(c, o, info, i) == ViewFields(c, o, info, i - 1) + [SetRef(f.jFieldId, View(c, o.refs[i - 1], f.id))]
  {
  }

  /** The bytes before a member record and the record itself, in place. */
  lemma MemberSplit(bytes: seq<Byte>, start: nat, before: seq<Byte>, q: nat, sub: seq<Byte>, mb: nat)
    requires q == start + |before| && mb == q + Pad8(q)
    requires At(bytes, start, before + Zeros(Pad8(q)) + sub)
    ensures At(bytes, start, before) && At(bytes, mb, sub)
  {
    AtSplitAt(bytes, start, before + Zeros(Pad8(q)), sub, mb);
    AtSplit(bytes, start, before, Zeros(Pad8(q)));
  }

  /** A reference step of the writer's field loop appends the member's
      record after padding. */
  lemma FieldsOutRefStep(c: Classes, b: nat, o: JObj, info: ClassRecord, i: nat, q: nat)
    requires o.Instance? && InstanceOk(c, o, info) && 0 < i <= |o.refs|
    requires !IsPrimitiveType(info.fields[i - 1].typ)
    requires q == BodyStart(b) + |o.body| + |FieldsOut(c, b, o, info, i - 1).1|
    ensures FieldsOut(c, b, o, info, i).1
            == FieldsOut(c, b, o, info, i - 1).1 + Zeros(Pad8(q)) + Rec(c, q + Pad8(q), o.refs[i - 1], info.fields[i - 1].id)
  {
  }

  /** Patching reference slots leaves every primitive slot of the body as
      it was. */
  lemma {:induction false} BodyKeepsPrimitive(c: Classes, b: nat, o: JObj, info: ClassRecord, i: nat, k: nat)
    requires o.Instance? && InstanceOk(c, o, info) && i <= |o.refs|
    requires k < |o.refs| && IsPrimitiveType(info.fields[k].typ)
    ensures var f := info.fields[k];
            FieldsOut(c, b, o, info, i).0[f.offset..f.offset + TypeSize(f.typ)]
            == o.body[f.offset..f.offset + TypeSize(f.typ)]
    decreases i
  {
    if i > 0 {
      var h := i - 1;
      BodyKeepsPrimitive(c, b, o, info, h, k);
      BodyStepKeeps(c, b, o, info, h, i, k);
    }
  }

  /** One field of the walk keeps primitive slot k of the body. */
  lemma BodyStepKeeps(c: Classes, b: nat, o: JObj, info: ClassRecord, h: nat, i: nat, k: nat)
    requires o.Instance? && InstanceOk(c, o, info) && i == h + 1 && i <= |o.refs|
    requires k < |o.refs| && IsPrimitiveType(info.fields[k].typ)
    requires var f := info.fields[k];
             f.offset + TypeSize(f.typ) <= |o.body|
             && FieldsOut(c, b, o, info, h).0[f.offset..f.offset + TypeSize(f.typ)]
                == o.body[f.offset..f.offset + TypeSize(f.typ)]
    ensures var f := info.fields[k];
            FieldsOut(c, b, o, info, i).0[f.offset..f.offset + TypeSize(f.typ)]
            == o.body[f.offset..f.offset + TypeSize(f.typ)]
  {
    if IsPrimitiveType(info.fields[h].typ) {
      FieldsOutPrimStep(c, b, o, info, i);
    } else {
      RefStepKeeps(c, b, o, info, i, k);
    }
  }

  /** A reference field's patch misses primitive slot k. */
  lemma RefStepKeeps(c: Classes, b: nat, o: JObj, info: ClassRecord, i: nat, k: nat)
    requires o.Instance? && InstanceOk(c, o, info) && 0 < i <= |o.refs| && !IsPrimitiveType(info.fields[i - 1].typ)
    requires k < |o.refs| && IsPrimitiveType(info.fields[k].typ)
    requires var f := info.fields[k];
             f.offset + TypeSize(f.typ) <= |o.body|
             && FieldsOut(c, b, o, info, i - 1).0[f.offset..f.offset + TypeSize(f.typ)]
                == o.body[f.offset..f.offset + TypeSize(f.typ)]
    ensures var f := info.fields[k];
            FieldsOut(c, b, o, info, i).0[f.offset..f.offset + TypeSize(f.typ)]
            == o.body[f.offset..f.offset + TypeSize(f.typ)]
  {
    var f := info.fields[k];
    var g := info.fields[i - 1];
    var prev := FieldsOut(c, b, o, info, i - 1).0;
    var q := BodyStart(b) + |o.body| + |FieldsOut(c, b, o, info, i - 1).1|;
    var lo, hi := f.offset, f.offset + TypeSize(f.typ);
    FieldsOutBodyStep(c, b, o, info, i, q);
    var next := FieldsOut(c, b, o, info, i).0;
    assert next == Splice(prev, g.offset, LE32(q + Pad8(q)));
    SlotsApart(info, |o.body|, i - 1, k);
    SpliceKeeps(prev, g.offset, LE32(q + Pad8(q)), lo, hi);
    assert next[lo..hi] == prev[lo..hi] == o.body[lo..hi];
  }

  /** A reference step of the writer's field loop patches the slot with the
      member's offset. */
  lemma FieldsOutBodyStep(c: Classes, b: nat, o: JObj, info: ClassRecord, i: nat, q: nat)
    requires o.Instance? && InstanceOk(c, o, info) && 0 < i <= |o.refs|
    requires !IsPrimitiveType(info.fields[i - 1].typ)
    requires q == BodyStart(b) + |o.body| + |FieldsOut(c, b, o, info, i - 1).1|
    ensures info.fields[i - 1].offset + 4 <= |o.body|
    ensures FieldsOut(c, b, o, info, i).0 == Splice(FieldsOut(c, b, o, info, i - 1).0, info.fields[i - 1].offset, LE32(q + Pad8(q)))
  {
  }

  /** Two distinct slots of a laid-out instance share no byte, and each
      lies inside the body. */
  lemma SlotsApart(info: ClassRecord, size: nat, j: nat, k: nat)
    requires InstanceLayout(info, size) && j < info.nNonStatic && k < info.nNonStatic && j != k
    ensures var f := info.fields[k]; var g := info.fields[j];
            f.offset + TypeSize(f.typ) <= size && g.offset + TypeSize(g.typ) <= size
            && (f.offset + TypeSize(f.typ) <= g.offset || g.offset + TypeSize(g.typ) <= f.offset)
  {
    if j < k {
      assert Apart(info.fields[j], info.fields[k]);
    } else {
      assert Apart(info.fields[k], info.fields[j]);
    }
  }

  lemma {:induction false} RevivesArray(c: Classes, bytes: seq<Byte>, pos: nat, b: nat, o: JObj, eid: int)
    requires Sound(c) && o.Array? && Encodable(c, o, eid)
    requires b == pos + Pad8(pos) && At(bytes, b, Rec(c, b, o, eid))
    ensures Decodes(Parse(c.infos, bytes, pos), View(c, o, eid), b + |Rec(c, b, o, eid)|)
    decreases o, 2
  {
    if IsReferenceType(Info(c, o.klass).value.fields[0].typ) {
      RevivesRefArray(c, bytes, pos, b, o, eid);
    } else {
      RevivesPrimArray(c, bytes, pos, b, o, eid);
    }
  }

  lemma {:induction false} RevivesPrimArray(c: Classes, bytes: seq<Byte>, pos: nat, b: nat, o: JObj, eid: int)
    requires Sound(c) && o.Array? && Encodable(c, o, eid) && !IsReferenceType(Info(c, o.klass).value.fields[0].typ)
    requires b == pos + Pad8(pos) && At(bytes, b, Rec(c, b, o, eid))
    ensures Decodes(Parse(c.infos, bytes, pos), View(c, o, eid), b + |Rec(c, b, o, eid)|)
  {
    var info := Info(c, o.klass).value;
    var hdr := LE16(info.id) + LE16(ARRAY_CODE) + LE32(o.length);
    var pad := Zeros(Pad8(b + 8));
    InfoId(c, o.klass);
    assert Rec(c, b, o, eid) == hdr + pad + o.raw;
    AtSplitAt(bytes, b, hdr + pad, o.raw, ElemsStart(b));
    AtSplit(bytes, b, hdr, pad);
    PrimArrayParse(c.infos, bytes, pos, b, info, o.length, o.raw);
  }

  lemma {:induction false} RevivesRefArray(c: Classes, bytes: seq<Byte>, pos: nat, b: nat, o: JObj, eid: int)
    requires Sound(c) && o.Array? && Encodable(c, o, eid) && IsReferenceType(Info(c, o.klass).value.fields[0].typ)
    requires b == pos + Pad8(pos) && At(bytes, b, Rec(c, b, o, eid))
    ensures Decodes(Parse(c.infos, bytes, pos), View(c, o, eid), b + |Rec(c, b, o, eid)|)
    decreases o, 1, |o.elems| + 1, 1
  {
    var info := Info(c, o.klass).value;
    var hdr := LE16(info.id) + LE16(ARRAY_CODE) + LE32(o.length);
    var es := ElemsStart(b);
    var tail := ElemsOut(c, b, o, info, |o.elems|);
    RefArrayShape(c, b, o, eid, info);
    InfoId(c, o.klass);
    AtSplitAt(bytes, b, hdr + Zeros(Pad8(b + 8)), tail, es);
    AtSplit(bytes, b, hdr, Zeros(Pad8(b + 8)));
    ElemsRevive(c, bytes, b, o, info, |o.elems|, es);
    RefArrayParse(c.infos, bytes, pos, b, info, o.length, ViewElems(c, o, info, |o.elems|), es + |tail|);
  }

  /** A reference array's record is its header, the padding and the element
      records; its copy holds the elements' copies. */
  lemma RefArrayShape(c: Classes, b: nat, o: JObj, eid: int, info: ClassRecord)
    requires o.Array? && Encodable(c, o, eid) && info == Info(c, o.klass).value && IsReferenceType(info.fields[0].typ)
    ensures HasElemType(info) && ArrayOk(c, o, info) && |o.elems| == o.length as int
    ensures KnownId(c, info.fields[0].id)
    ensures Rec(c, b, o, eid) == LE16(info.id) + LE16(ARRAY_CODE) + LE32(o.length) + Zeros(Pad8(b + 8))
                                 + ElemsOut(c, b, o, info, |o.elems|)
    ensures View(c, o, eid) == RRefArray(c.infos[info.fields[0].id - MIN_CLASS_ID].klass, o.length,
                                         ViewElems(c, o, info, |o.elems|))
  {
  }

  /** The element loop of the reader over the first i elements gives their
      copies and ends after their records. */
  lemma {:induction false} ElemsRevive(c: Classes, bytes: seq<Byte>, b: nat, o: JObj, info: ClassRecord, i: nat, es: nat)
    requires Sound(c) && o.Array? && HasElemType(info) && ArrayOk(c, o, info)
    requires IsReferenceType(info.fields[0].typ) && i <= |o.elems|
    requires es == ElemsStart(b) && At(bytes, es, ElemsOut(c, b, o, info, i))
    ensures Decodes(ParseElems(c.infos, bytes, es, i), ViewElems(c, o, info, i), es + |ElemsOut(c, b, o, info, i)|)
    decreases o, 1, i, 1
  {
    if i > 0 {
      ElemsReviveStep(c, bytes, b, o, info, i, es);
    }
  }

  lemma {:induction false} ElemsReviveStep(c: Classes, bytes: seq<Byte>, b: nat, o: JObj, info: ClassRecord, i: nat, es: nat)
    requires Sound(c) && o.Array? && HasElemType(info) && ArrayOk(c, o, info)
    requires IsReferenceType(info.fields[0].typ) && 0 < i <= |o.elems|
    requires es == ElemsStart(b) && At(bytes, es, ElemsOut(c, b, o, info, i))
    ensures Decodes(ParseElems(c.infos, bytes, es, i), ViewElems(c, o, info, i), es + |ElemsOut(c, b, o, info, i)|)
    decreases o, 1, i, 0
  {
    var prev := ElemsOut(c, b, o, info, i - 1);
    var id := info.fields[0].id;
    var q := es + |prev|;
    var mb := q + Pad8(q);
    ElemsOutStep(c, b, o, info, i, q);
    var sub := Rec(c, mb, o.elems[i - 1], id);
    var pz := prev + Zeros(Pad8(q));
    AtSplitAt(bytes, es, pz, sub, mb);
    AtSplit(bytes, es, prev, Zeros(Pad8(q)));
    ElemsRevive(c, bytes, b, o, info, i - 1, es);
    Revives(c, bytes, q, mb, o.elems[i - 1], id);
    ParseElemsStep(c.infos, bytes, es, i, ViewElems(c, o, info, i - 1), q, View(c, o.elems[i - 1], id), mb + |sub|);
  }

  /** A step of the writer's element loop appends the element's record
      after padding. */
  lemma ElemsOutStep(c: Classes, b: nat, o: JObj, info: ClassRecord, i: nat, q: nat)
    requires o.Array? && HasElemType(info) && ArrayOk(c, o, info)
    requires IsReferenceType(info.fields[0].typ) && 0 < i <= |o.elems|
    requires q == ElemsStart(b) + |ElemsOut(c, b, o, info, i - 1)|
    ensures ElemsOut(c, b, o, info, i)
            == ElemsOut(c, b, o, info, i - 1) + Zeros(Pad8(q)) + Rec(c, q + Pad8(q), o.elems[i - 1], info.fields[0].id)
  {
  }
}
