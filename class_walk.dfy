/**
 * The records the class walker builds, as functions of the klass: an
 * instance class's header and its instance fields by offset with their
 * class ids, an enum's constant table, and an array's element slot. The
 * lemmas relate them to the registry after `register_class_info` has
 * patched the fields that waited for the new class.
 */
module ClassWalks {
  import opened Bytes
  import opened BasicTypes
  import opened Wrappers
  import opened ClassInfos
  import opened FieldLayouts
  import opened ClassRegistry

  /** No field of the sequence lies below the header. */
  predicate Above(sorted: seq<JField>, header: nat)
  {
    forall j :: 0 <= j < |sorted| ==> header <= sorted[j].offset
  }

  /** The slots the resolving loop fills, one per sorted instance field. */
  function ResolveAll(sorted: seq<JField>, header: nat, known: map<seq<char>, int>): (fs: seq<FieldInfo>)
    requires AllTyped(sorted) && Above(sorted, header)
    ensures |fs| == |sorted|
    ensures forall j :: 0 <= j < |sorted| ==> fs[j] == ResolvedField(sorted[j], header, known)
  {
    if sorted == [] then []
    else [ResolvedField(sorted[0], header, known)] + ResolveAll(sorted[1..], header, known)
  }

  /** The sorted instance fields of a klass whose instance fields all have a
      usable descriptor are typed and lie at or above the header. */
  lemma SortedFacts(fs: seq<JField>)
    requires forall i :: 0 <= i < |fs| && IsInstanceField(fs[i]) ==> Typed(fs[i])
    ensures AllTyped(SortedInstanceFields(fs)) && Above(SortedInstanceFields(fs), HeaderAfter(fs, |fs|))
    ensures |SortedInstanceFields(fs)| == |InstanceFields(fs, |fs|)|
  {
    var inst := InstanceFields(fs, |fs|);
    var sorted := SortedInstanceFields(fs);
    forall j | 0 <= j < |sorted|
      ensures Typed(sorted[j]) && HeaderAfter(fs, |fs|) <= sorted[j].offset
    {
      HeaderBelowSorted(fs, j);
      assert sorted[j] in multiset(inst);
      assert sorted[j] in inst;
    }
  }

  /** The record `walk_instance_klass` registers under `id`, with the class
      ids of its reference fields looked up in `known`. */
  function InstanceRecord(k: Klass, id: int, known: map<seq<char>, int>): (r: ClassRecord)
    requires k.InstanceKlass? && !k.isEnum && InstanceWellFormed(k)
    ensures r.id == id && r.klass == k.shape.klass && !IsEnum(r) && IsObject(r)
    ensures Signature(r) == ['L'] + k.shape.name + [';']
    ensures |r.fields| == r.nNonStatic
  {
    var base := FromInstanceKlass(k.shape, false);
    var header := HeaderAfter(k.fields, |k.fields|);
    var sorted := SortedInstanceFields(k.fields);
    SortedFacts(k.fields);
    base.(id := id, headerSize := header, fields := ResolveAll(sorted, header, known))
  }

  /** What the stored instance record says about the klass as a whole: it
      has a slot per instance field, holding the instance fields; the
      header is the least instance-field offset (255 when there is none),
      and when it is below 255 the first slot sits at offset 0. */
  lemma InstanceRecordHeader(k: Klass, id: int, known: map<seq<char>, int>)
    requires k.InstanceKlass? && !k.isEnum && InstanceWellFormed(k)
    ensures var r := InstanceRecord(k, id, known);
            var sorted := SortedInstanceFields(k.fields);
            && |sorted| == |r.fields| == k.shape.nField - k.shape.nStatic
            && multiset(sorted) == multiset(InstanceFields(k.fields, |k.fields|))
            && (forall i :: 0 <= i < |k.fields| && IsInstanceField(k.fields[i]) ==> r.headerSize <= k.fields[i].offset)
            && (r.headerSize < 0xFF && |r.fields| > 0 ==> r.fields[0].offset == 0)
  {
    SortedFacts(k.fields);
    HeaderIsLeast(k.fields, |k.fields|);
    var r := InstanceRecord(k, id, known);
    if r.headerSize < 0xFF && |r.fields| > 0 {
      FirstSortedAtHeader(k.fields);
    }
  }

  /** What slot j of the stored instance record says about the j-th
      instance field by ascending offset: its offset relative to the header,
      in ascending order, the descriptor's type, the access flags and JNI
      id; a reference slot holds the id `known` gives its descriptor, and
      every other slot holds no id. */
  lemma InstanceRecordSlot(k: Klass, id: int, known: map<seq<char>, int>, j: nat)
    requires k.InstanceKlass? && !k.isEnum && InstanceWellFormed(k)
    requires j < |InstanceRecord(k, id, known).fields|
    ensures var r := InstanceRecord(k, id, known);
            var sorted := SortedInstanceFields(k.fields);
            && j < |sorted| && Typed(sorted[j])
            && r.fields[j].offset + r.headerSize == sorted[j].offset
            && (j > 0 ==> r.fields[j - 1].offset <= r.fields[j].offset)
            && r.fields[j].typ == FieldType(sorted[j])
            && r.fields[j].flag == sorted[j].accessFlags && r.fields[j].jFieldId == sorted[j].jniId
            && r.fields[j].id == (if IsReferenceType(r.fields[j].typ) && sorted[j].sig in known then known[sorted[j].sig]
                                  else UNREGISTERED_CLASS_ID)
  {
    SortedFacts(k.fields);
    var r := InstanceRecord(k, id, known);
    var sorted := SortedInstanceFields(k.fields);
    var header := HeaderAfter(k.fields, |k.fields|);
    assert r.headerSize == header && r.fields == ResolveAll(sorted, header, known);
    if j > 0 {
      assert sorted[j - 1].offset <= sorted[j].offset;
    }
  }

  /** The record `walk_enum_klass` registers under `id`: the ordinal sits
      right after the object header, the object is 16 bytes, and constant i
      is stored in slot i of the enum table. */
  function EnumRecord(k: Klass, id: int): (r: ClassRecord)
    requires k.InstanceKlass? && k.isEnum && InstanceWellFormed(k)
    ensures r.id == id && r.klass == k.shape.klass && IsEnum(r) && IsObject(r)
    ensures r.headerSize == ENUM_ORDINAL_OFFSET && r.objSize == ENUM_ORDINAL_OFFSET + 4
    ensures r.fields == [] && |r.enums| == |k.constants|
    ensures forall i :: 0 <= i < |k.constants| ==>
              GetEnum(r, k.constants[i].ordinal) == ObjWithHandle(k.constants[i].obj, k.constants[i].handle)
    ensures Signature(r) == ['L'] + k.shape.name + [';']
  {
    var base := FromInstanceKlass(k.shape, true);
    base.(id := id, headerSize := ENUM_ORDINAL_OFFSET, objSize := ENUM_ORDINAL_OFFSET + 4,
          enums := seq(|k.constants|, i requires 0 <= i < |k.constants| => ObjWithHandle(k.constants[i].obj, k.constants[i].handle)))
  }

  /** The element slot of an array record: the element type for a
      one-dimensional array, T_ARRAY otherwise. */
  function ElemType(k: Klass): (r: int)
    requires k.ArrayKlass?
  {
    if k.ashape.dim == 1 then k.elemType else T_ARRAY
  }

  /** The record `walk_array_klass` registers under `id`, its element slot
      holding `elemId`. */
  function ArrayRecord(k: Klass, id: int, elemId: int): (r: ClassRecord)
    requires k.ArrayKlass? && ArrayBuildable(k.ashape)
    ensures r.id == id && r.klass == k.ashape.klass && IsArray(r) && r.dim == k.ashape.dim
    ensures |r.fields| == 1 && r.fields[0].typ == ElemType(k) && r.fields[0].id == elemId && r.fields[0].offset == 0
    ensures Signature(r) == k.ashape.sig
  {
    var base := FromArrayKlass(k.ashape);
    base.(id := id, fields := [base.fields[0].(typ := ElemType(k), id := elemId)])
  }

  /** After the resolving loop and the patch, a record that was already
      registered has exactly the fields that waited for the new signature
      patched. */
  lemma {:induction false} PatchedOld(infos: seq<ClassRecord>, rec: ClassRecord, sig2id: map<seq<char>, int>,
                                      m: map<seq<char>, seq<FieldRef>>, sorted: seq<JField>, id: int, k: nat)
    requires RefsValid(infos, sig2id, m) && AllTyped(sorted) && |rec.fields| == |sorted| && k < |infos|
    ensures var sig := Signature(rec);
            var base := infos + [rec];
            var m' := AddPending(m, sorted, |infos|, sig2id, |sorted|);
            PendingIn(base, m', sig) && PendingIn(infos, m, sig)
            && Patch(base, Pending(m', sig), id)[k] == Patch(infos, Pending(m, sig), id)[k]
  {
    var sig := Signature(rec);
    var base := infos + [rec];
    var m' := AddPending(m, sorted, |infos|, sig2id, |sorted|);
    AddPendingKeepsRefs(infos, rec, sig2id, m, sorted);
    assert PendingIn(base, m', sig) by {
      forall fr | fr in Pending(m', sig) ensures RefIn(base, fr) {
        if sig in m' {
          assert fr in m'[sig];
        }
      }
    }
    assert PendingIn(infos, m, sig) by {
      forall fr | fr in Pending(m, sig) ensures RefIn(infos, fr) {
        assert fr in m[sig];
      }
    }
    var a := Patch(base, Pending(m', sig), id);
    var b := Patch(infos, Pending(m, sig), id);
    assert base[k] == infos[k];
    forall f | 0 <= f < |infos[k].fields|
      ensures a[k].fields[f] == b[k].fields[f]
    {
      PatchSetsIds(base, Pending(m', sig), id, k, f);
      PatchSetsIds(infos, Pending(m, sig), id, k, f);
      AddPendingFacts(m, sorted, |infos|, sig2id, |sorted|, sig, FieldRef(k, f));
    }
  }

  /** After the resolving loop and the patch, the new record's slots are
      resolved against the signatures known once it is registered: a field
      of its own class gets its own id. */
  lemma {:induction false} PatchedNew(infos: seq<ClassRecord>, rec: ClassRecord, sig2id: map<seq<char>, int>,
                                      m: map<seq<char>, seq<FieldRef>>, sorted: seq<JField>, header: nat, id: int)
    requires RefsValid(infos, sig2id, m) && AllTyped(sorted) && Above(sorted, header)
    requires rec.fields == ResolveAll(sorted, header, sig2id) && rec.id == id
    ensures var sig := Signature(rec);
            var base := infos + [rec];
            var m' := AddPending(m, sorted, |infos|, sig2id, |sorted|);
            PendingIn(base, m', sig)
            && Patch(base, Pending(m', sig), id)[|infos|] == rec.(fields := ResolveAll(sorted, header, Known(sig2id, sig, id)))
  {
    var n := |infos|;
    var sig := Signature(rec);
    var base := infos + [rec];
    var m' := AddPending(m, sorted, n, sig2id, |sorted|);
    PatchedOldPending(infos, rec, sig2id, m, sorted);
    var a := Patch(base, Pending(m', sig), id);
    var want := ResolveAll(sorted, header, Known(sig2id, sig, id));
    assert base[n] == rec;
    forall f | 0 <= f < |sorted|
      ensures a[n].fields[f] == want[f]
    {
      PatchSetsIds(base, Pending(m', sig), id, n, f);
      AddPendingFacts(m, sorted, n, sig2id, |sorted|, sig, FieldRef(n, f));
      assert FieldRef(n, f) !in Pending(m, sig);
      ResolvedOnceKnown(sorted[f], header, sig2id, sig, id);
    }
  }

  /** A slot resolved once sig is registered under id differs from the slot
      resolved before only in taking id, and only when its field waited
      under sig. */
  lemma ResolvedOnceKnown(f: JField, header: nat, known: map<seq<char>, int>, sig: seq<char>, id: int)
    requires Typed(f) && header <= f.offset
    ensures var before := ResolvedField(f, header, known);
            var waits := f.sig == sig && |sig| > 0 && (sig[0] == 'L' || sig[0] == '[') && sig !in known;
            ResolvedField(f, header, Known(known, sig, id)) == before.(id := if waits then id else before.id)
  {
  }

  /** The pointers pending under the new signature after the resolving loop
      stay inside the records extended by the new one. */
  lemma PatchedOldPending(infos: seq<ClassRecord>, rec: ClassRecord, sig2id: map<seq<char>, int>,
                          m: map<seq<char>, seq<FieldRef>>, sorted: seq<JField>)
    requires RefsValid(infos, sig2id, m) && AllTyped(sorted) && |rec.fields| == |sorted|
    ensures PendingIn(infos + [rec], AddPending(m, sorted, |infos|, sig2id, |sorted|), Signature(rec))
  {
    var sig := Signature(rec);
    var m' := AddPending(m, sorted, |infos|, sig2id, |sorted|);
    AddPendingKeepsRefs(infos, rec, sig2id, m, sorted);
    forall fr | fr in Pending(m', sig) ensures RefIn(infos + [rec], fr) {
      if sig in m' {
        assert fr in m'[sig];
      }
    }
  }

  /** Patching pointers into the existing records is unaffected by a record
      appended after them. */
  lemma {:induction false} PatchAppend(infos: seq<ClassRecord>, rec: ClassRecord, refs: seq<FieldRef>, id: int)
    requires forall fr :: fr in refs ==> RefIn(infos, fr)
    ensures forall fr :: fr in refs ==> RefIn(infos + [rec], fr)
    ensures Patch(infos + [rec], refs, id) == Patch(infos, refs, id) + [rec]
  {
    assert forall k :: 0 <= k < |infos| ==> (infos + [rec])[k] == infos[k];
    if refs != [] {
      var front := refs[..|refs| - 1];
      assert forall fr :: fr in front ==> fr in refs;
      PatchAppend(infos, rec, front, id);
      var p := Patch(infos, front, id);
      var last := refs[|refs| - 1];
      assert RefIn(infos, last);
      assert |p[last.index].fields| == |infos[last.index].fields|;
      assert (p + [rec])[last.index] == p[last.index];
      assert SetFieldId(p + [rec], last, id) == SetFieldId(p, last, id) + [rec];
    }
  }

  /** The whole table after the resolving loop of the new record and the
      patch: the old records patched by the pointers that waited before the
      loop, then the new record resolved against the signatures known once
      it is registered. */
  lemma PatchedAll(infos: seq<ClassRecord>, rec: ClassRecord, sig2id: map<seq<char>, int>,
                   m: map<seq<char>, seq<FieldRef>>, sorted: seq<JField>, header: nat, id: int)
    requires RefsValid(infos, sig2id, m) && AllTyped(sorted) && Above(sorted, header)
    requires rec.fields == ResolveAll(sorted, header, sig2id) && rec.id == id
    ensures var sig := Signature(rec);
            var m' := AddPending(m, sorted, |infos|, sig2id, |sorted|);
            PendingIn(infos + [rec], m', sig) && PendingIn(infos, m, sig)
            && Patch(infos + [rec], Pending(m', sig), id)
               == Patch(infos, Pending(m, sig), id) + [rec.(fields := ResolveAll(sorted, header, Known(sig2id, sig, id)))]
  {
    var sig := Signature(rec);
    var m' := AddPending(m, sorted, |infos|, sig2id, |sorted|);
    PatchedNew(infos, rec, sig2id, m, sorted, header, id);
    PatchedPrefix(infos, rec, sig2id, m, sorted, id);
    SplitLast(Patch(infos + [rec], Pending(m', sig), id), Patch(infos, Pending(m, sig), id),
              rec.(fields := ResolveAll(sorted, header, Known(sig2id, sig, id))));
  }

  /** A sequence that agrees with b on b's indices and has x after them is
      b + [x]. */
  lemma SplitLast(a: seq<ClassRecord>, b: seq<ClassRecord>, x: ClassRecord)
    requires |a| == |b| + 1 && a[|b|] == x
    requires forall k :: 0 <= k < |b| ==> a[k] == b[k]
    ensures a == b + [x]
  {
  }

  lemma PatchedPrefix(infos: seq<ClassRecord>, rec: ClassRecord, sig2id: map<seq<char>, int>,
                      m: map<seq<char>, seq<FieldRef>>, sorted: seq<JField>, id: int)
    requires RefsValid(infos, sig2id, m) && AllTyped(sorted) && |rec.fields| == |sorted|
    ensures var sig := Signature(rec);
            var m' := AddPending(m, sorted, |infos|, sig2id, |sorted|);
            PendingIn(infos + [rec], m', sig) && PendingIn(infos, m, sig)
            && forall k :: 0 <= k < |infos| ==> Patch(infos + [rec], Pending(m', sig), id)[k] == Patch(infos, Pending(m, sig), id)[k]
  {
    PatchedOldPending(infos, rec, sig2id, m, sorted);
    var sig := Signature(rec);
    assert PendingIn(infos, m, sig) by {
      forall fr | fr in Pending(m, sig) ensures RefIn(infos, fr) {
        assert fr in m[sig];
      }
    }
    forall k | 0 <= k < |infos|
      ensures Patch(infos + [rec], Pending(AddPending(m, sorted, |infos|, sig2id, |sorted|), sig), id)[k]
              == Patch(infos, Pending(m, sig), id)[k]
    {
      PatchedOld(infos, rec, sig2id, m, sorted, id, k);
    }
  }

  /** Everything registering a new instance record needs: its slots' pending
      pointers stay valid, and after the patch the table is the old records
      patched by what waited for its signature followed by the record
      resolved against the signatures known once it is registered. */
  lemma InstanceRegistrable(infos: seq<ClassRecord>, known: map<seq<char>, int>,
                            m: map<seq<char>, seq<FieldRef>>, k: Klass, info: ClassRecord, id: int)
    requires k.InstanceKlass? && !k.isEnum && InstanceWellFormed(k)
    requires RefsValid(infos, known, m)
    requires info == InstanceRecord(k, UNREGISTERED_CLASS_ID, known) && id == |infos| + MIN_CLASS_ID
    ensures AllTyped(SortedInstanceFields(k.fields))
    ensures RefsValid(infos + [info], known,
                      AddPending(m, SortedInstanceFields(k.fields), |infos|, known, |SortedInstanceFields(k.fields)|))
    ensures PendingIn(infos, m, Signature(info))
    ensures PendingIn(infos + [info.(id := id)],
                      AddPending(m, SortedInstanceFields(k.fields), |infos|, known, |SortedInstanceFields(k.fields)|),
                      Signature(info))
    ensures Patch(infos + [info.(id := id)],
                  Pending(AddPending(m, SortedInstanceFields(k.fields), |infos|, known, |SortedInstanceFields(k.fields)|),
                          Signature(info)), id)
            == Patch(infos, Pending(m, Signature(info)), id) + [InstanceRecord(k, id, Known(known, Signature(info), id))]
  {
    var sorted := SortedInstanceFields(k.fields);
    var header := HeaderAfter(k.fields, |k.fields|);
    SortedFacts(k.fields);
    AddPendingKeepsRefs(infos, info, known, m, sorted);
    assert info.(id := id) == InstanceRecord(k, id, known);
    PatchedAll(infos, info.(id := id), known, m, sorted, header, id);
  }
}
