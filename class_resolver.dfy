/**
 * `ClassResolver` keeps the registered class records and answers lookups by
 * id, by signature and by klass; `ClassWalker` builds a record from a klass
 * and registers it, walking the element klasses of arrays first.
 */
module ClassResolvers {
  import opened Bytes
  import opened BasicTypes
  import opened Wrappers
  import opened ClassInfos
  import opened FieldLayouts
  import opened ClassRegistry
  import opened ClassWalks
  import opened JvmArgs

  /** The record with this id is registered and has this klass. */
  predicate HoldsKlass(infos: seq<ClassRecord>, id: int, klass: U64)
  {
    MIN_CLASS_ID <= id < MIN_CLASS_ID + |infos| && infos[id - MIN_CLASS_ID].klass == klass
  }

  /** Growing the table keeps every registered klass where it was. */
  lemma GrownKeepsKlasses(before: seq<ClassRecord>, after: seq<ClassRecord>, id: int, klass: U64)
    requires Grown(before, after) && HoldsKlass(before, id, klass)
    ensures HoldsKlass(after, id, klass)
  {
    var k := id - MIN_CLASS_ID;
    assert after[k] == before[k].(fields := after[k].fields);
  }

  /** Patching the existing records and appending one grows the table by
      that one record, which is then registered under the next id. */
  lemma PatchThenAppend(infos: seq<ClassRecord>, refs: seq<FieldRef>, id: int, rec: ClassRecord, klass: U64)
    requires forall fr :: fr in refs ==> RefIn(infos, fr)
    requires id == |infos| + MIN_CLASS_ID && rec.klass == klass
    ensures var after := Patch(infos, refs, id) + [rec];
            Grown(infos, after) && |after| == |infos| + 1
            && NewKlassesIn(after, |infos|, {klass}) && HoldsKlass(after, id, klass)
  {
    var after := Patch(infos, refs, id) + [rec];
    assert forall k :: 0 <= k < |infos| ==> after[k] == Patch(infos, refs, id)[k];
  }

  /** Registering a record no pending pointer names: the patch leaves it
      as it is after the old records it patches. */
  lemma AppendUntouched(infos: seq<ClassRecord>, known: map<seq<char>, int>, m: map<seq<char>, seq<FieldRef>>,
                        info: ClassRecord, id: int)
    requires RefsValid(infos, known, m) && id == |infos| + MIN_CLASS_ID
    ensures RefsValid(infos + [info], known, m)
    ensures PendingIn(infos, m, Signature(info)) && PendingIn(infos + [info.(id := id)], m, Signature(info))
    ensures Patch(infos + [info.(id := id)], Pending(m, Signature(info)), id)
            == Patch(infos, Pending(m, Signature(info)), id) + [info.(id := id)]
  {
    RefsValidExtend(infos, info, known, m);
    PatchKeepsRefs(infos, known, m, Signature(info), id);
    PatchAppend(infos, info.(id := id), Pending(m, Signature(info)), id);
  }

  /** The table `register_class_info` leaves behind, when patching the
      table with the new record appended by the pointers then pending is
      patching the old table by those pending before and appending rec: it
      grows by rec alone, registered under the new id. */
  lemma RegisteredTail(infos: seq<ClassRecord>, info: ClassRecord, id: int, refsAfter: seq<FieldRef>,
                       refsBefore: seq<FieldRef>, rec: ClassRecord, after: seq<ClassRecord>)
    requires id == |infos| + MIN_CLASS_ID && rec.klass == info.klass
    requires forall fr :: fr in refsBefore ==> RefIn(infos, fr)
    requires forall fr :: fr in refsAfter ==> RefIn(infos + [info.(id := id)], fr)
    requires Patch(infos + [info.(id := id)], refsAfter, id) == Patch(infos, refsBefore, id) + [rec]
    requires after == Patch(infos + [info.(id := id)], refsAfter, id)
    ensures after == Patch(infos, refsBefore, id) + [rec]
    ensures Grown(infos, after) && |after| == |infos| + 1
    ensures NewKlassesIn(after, |infos|, {info.klass}) && HoldsKlass(after, id, info.klass)
  {
    PatchThenAppend(infos, refsBefore, id, rec, info.klass);
  }

  /** A klass outside the set of klasses appended stays unregistered. */
  lemma StillUnregistered(before: seq<ClassRecord>, after: seq<ClassRecord>, klasses: set<U64>, klass: U64)
    requires Grown(before, after) && NewKlassesIn(after, |before|, klasses)
    requires !Registered(before, klass) && klass !in klasses
    ensures !Registered(after, klass)
  {
    forall k | 0 <= k < |after|
      ensures after[k].klass != klass
    {
      if k < |before| {
        assert after[k] == before[k].(fields := after[k].fields);
      }
    }
  }

  /** Klasses appended in two rounds come from either round's set. */
  lemma NewKlassesJoin(a: seq<ClassRecord>, b: seq<ClassRecord>, c: seq<ClassRecord>, s1: set<U64>, s2: set<U64>)
    requires |a| <= |b| && Grown(b, c)
    requires NewKlassesIn(b, |a|, s1) && NewKlassesIn(c, |b|, s2)
    ensures NewKlassesIn(c, |a|, s1 + s2)
  {
    forall k | |a| <= k < |c|
      ensures c[k].klass in s1 + s2
    {
      if k < |b| {
        assert c[k] == b[k].(fields := c[k].fields);
      }
    }
  }

  /** The array record with this id: it has the klass, the single element
      slot of `ArrayRecord`, and its slot holds the id of the registered
      element (or lower-dimension) klass, or no id for primitive elements. */
  predicate ArrayRegistered(infos: seq<ClassRecord>, k: Klass, id: int)
    requires k.ArrayKlass? && ArrayBuildable(k.ashape)
  {
    HoldsKlass(infos, id, k.ashape.klass)
    && var rec := infos[id - MIN_CLASS_ID];
       |rec.fields| == 1 && rec == ArrayRecord(k, id, rec.fields[0].id)
       && if k.inner.Some? then HoldsKlass(infos, rec.fields[0].id, Addr(k.inner.value))
          else rec.fields[0].id == UNREGISTERED_CLASS_ID
  }

  /** An array walk's two rounds put together: walking the element klass
      grew the table by records of the klasses it leads to, and registering
      the array appended its record; the array is then registered with the
      element id in its slot. */
  lemma ArrayWalked(infos0: seq<ClassRecord>, infos1: seq<ClassRecord>, patched: seq<ClassRecord>,
                    after: seq<ClassRecord>, k: Klass, elemId: int, id: int)
    requires k.ArrayKlass? && WellFormed(k)
    requires Grown(infos0, infos1) && |infos1| <= |infos0| + Depth(k) - 1
    requires NewKlassesIn(infos1, |infos0|, if k.inner.Some? then Addrs(k.inner.value) else {})
    requires if k.inner.Some? then HoldsKlass(infos1, elemId, Addr(k.inner.value)) else elemId == UNREGISTERED_CLASS_ID
    requires id == |infos1| + MIN_CLASS_ID && after == patched + [ArrayRecord(k, id, elemId)]
    requires Grown(infos1, after) && |after| == |infos1| + 1 && NewKlassesIn(after, |infos1|, {k.ashape.klass})
    ensures Grown(infos0, after) && |after| <= |infos0| + Depth(k)
    ensures NewKlassesIn(after, |infos0|, Addrs(k))
    ensures id == |after| - 1 + MIN_CLASS_ID && ArrayRegistered(after, k, id)
  {
    var inner: set<U64> := if k.inner.Some? then Addrs(k.inner.value) else {};
    GrownTrans(infos0, infos1, after);
    NewKlassesJoin(infos0, infos1, after, inner, {k.ashape.klass});
    assert after[id - MIN_CLASS_ID] == ArrayRecord(k, id, elemId);
    if k.inner.Some? {
      GrownKeepsKlasses(infos1, after, elemId, Addr(k.inner.value));
    }
  }

  /** The sum of the walk depths of a sequence of klasses. */
  function SumDepth(ks: seq<Klass>): (d: nat)
    ensures d >= |ks|
  {
    if ks == [] then 0 else Depth(ks[0]) + SumDepth(ks[1..])
  }

  /** The loop of `register_class_info` that writes the new id into every
      field slot waiting for it. */
  method PatchFields(infos: seq<ClassRecord>, refs: seq<FieldRef>, id: int) returns (patched: seq<ClassRecord>)
    requires forall fr :: fr in refs ==> RefIn(infos, fr)
    ensures patched == Patch(infos, refs, id)
  {
    patched := infos;
    var j := 0;
    while j < |refs|
      invariant j <= |refs|
      invariant patched == Patch(infos, refs[..j], id)
    {
      assert refs[..j + 1][..j] == refs[..j];
      assert refs[j] in refs && RefIn(infos, refs[j]);
      patched := SetFieldId(patched, refs[j], id);
      j := j + 1;
    }
    assert refs[..j] == refs;
  }

  /** The tables `register_class_info` leaves behind: the record appended
      with the next id and its waiting field slots patched, its index
      inserted into the klass order at the lower bound of its klass, its
      signature recorded unless already known, and its waiting list dropped.
      The registry invariant is kept. */
  method Register(infos: seq<ClassRecord>, order: seq<nat>, sig2id: map<seq<char>, int>,
                  unresolved: map<seq<char>, seq<FieldRef>>, info: ClassRecord)
    returns (id: int, infos': seq<ClassRecord>, order': seq<nat>, sig2id': map<seq<char>, int>,
             unresolved': map<seq<char>, seq<FieldRef>>)
    requires CoreValid(infos, order, sig2id) && RefsValid(infos + [info], sig2id, unresolved)
    requires |infos| < MAX_CLASSES && !Registered(infos, info.klass)
    ensures RegisterStep(infos, order, sig2id, unresolved, info, id, infos', order', sig2id', unresolved')
    ensures RegistryValid(infos', order', sig2id', unresolved')
  {
    var n := |infos|;
    id := Index2Id(n);
    var rec := info.(id := id);
    var sig := Signature(rec);
    RefsValidSameCounts(infos + [info], infos + [rec], sig2id, unresolved);
    RegisterKeepsValid(infos, order, sig2id, unresolved, rec);
    var p := LowerBound(KlassKeys(infos, order), info.klass);
    infos' := PatchFields(infos + [rec], Pending(unresolved, sig), id);
    order' := Inserted(order, p, n);
    sig2id' := Known(sig2id, sig, id);
    unresolved' := unresolved - {sig};
  }

  /** Step i of the resolving loop: the slot gets the offset relative to the
      header, the type, flags and JNI id of the i-th sorted field, and the
      class id of a reference field's descriptor when it is known; a
      reference field of an unknown class waits under its descriptor
      instead, as slot i of the record that will get index n. */
  method ResolveSlot(sorted: seq<JField>, i: nat, header: nat, known: map<seq<char>, int>, slot: FieldInfo,
                     start: map<seq<char>, seq<FieldRef>>, n: nat, unresolved: map<seq<char>, seq<FieldRef>>)
    returns (resolved: FieldInfo, unresolved': map<seq<char>, seq<FieldRef>>)
    requires i < |sorted| && AllTyped(sorted) && header <= sorted[i].offset && slot.id == UNREGISTERED_CLASS_ID
    requires unresolved == AddPending(start, sorted, n, known, i)
    ensures resolved == ResolvedField(sorted[i], header, known)
    ensures unresolved' == AddPending(start, sorted, n, known, i + 1)
  {
    AddPendingNext(start, sorted, n, known, i);
    var f := sorted[i];
    var t := FieldType(f);
    resolved := slot.(offset := f.offset - header, typ := t, flag := f.accessFlags, jFieldId := f.jniId);
    unresolved' := unresolved;
    if IsReferenceType(t) {
      if f.sig in known {
        resolved := resolved.(id := known[f.sig]);
      } else {
        resolved := resolved.(id := UNREGISTERED_CLASS_ID);
        unresolved' := Enqueue(unresolved, f.sig, FieldRef(n, i));
      }
    }
  }

  /** The resolving loop of `walk_instance_klass`: slot i gets the i-th
      sorted field, stored relative to the header, with its type, flags and
      JNI id; a reference slot gets the id of its descriptor's class when
      that is known, and otherwise no id and a place in the pending list of
      the descriptor, as slot i of the record that will get index n. */
  method ResolveFields(sorted: seq<JField>, header: nat, known: map<seq<char>, int>,
                       unresolved: map<seq<char>, seq<FieldRef>>, n: nat, slots: seq<FieldInfo>)
    returns (fields: seq<FieldInfo>, unresolved': map<seq<char>, seq<FieldRef>>)
    requires AllTyped(sorted) && Above(sorted, header) && |slots| == |sorted|
    requires forall j :: 0 <= j < |slots| ==> slots[j].id == UNREGISTERED_CLASS_ID
    ensures fields == ResolveAll(sorted, header, known)
    ensures unresolved' == AddPending(unresolved, sorted, n, known, |sorted|)
  {
    fields := slots;
    unresolved' := unresolved;
    for i := 0 to |sorted|
      invariant |fields| == |sorted|
      invariant forall j :: 0 <= j < i ==> fields[j] == ResolvedField(sorted[j], header, known)
      invariant forall j :: i <= j < |sorted| ==> fields[j].id == UNREGISTERED_CLASS_ID
      invariant unresolved' == AddPending(unresolved, sorted, n, known, i)
    {
      var slot;
      slot, unresolved' := ResolveSlot(sorted, i, header, known, fields[i], unresolved, n, unresolved');
      fields := fields[i := slot];
    }
  }

  /** The record `walk_instance_klass` builds before registering it, and the
      pending map its resolving loop leaves, for a record that will get
      index n. */
  method BuildInstance(k: Klass, known: map<seq<char>, int>, unresolved: map<seq<char>, seq<FieldRef>>, n: nat)
    returns (info: ClassRecord, unresolved': map<seq<char>, seq<FieldRef>>)
    requires k.InstanceKlass? && !k.isEnum && InstanceWellFormed(k)
    ensures info == InstanceRecord(k, UNREGISTERED_CLASS_ID, known)
    ensures AllTyped(SortedInstanceFields(k.fields))
    ensures unresolved' == AddPending(unresolved, SortedInstanceFields(k.fields), n, known, |SortedInstanceFields(k.fields)|)
  {
    info := FromInstanceKlass(k.shape, false);
    var inst, header := CollectInstanceFields(k.fields, NField(info));
    info := info.(headerSize := header);
    var sorted := SortByOffset(inst);
    SortedFacts(k.fields);
    var fields;
    fields, unresolved' := ResolveFields(sorted, header, known, unresolved, n, info.fields);
    info := info.(fields := fields);
  }

  /** The record `walk_enum_klass` builds before registering it: the
      ordinal right after the header, a 16-byte object, and constant i in
      slot i of the enum table. */
  method BuildEnum(k: Klass) returns (info: ClassRecord)
    requires k.InstanceKlass? && k.isEnum && InstanceWellFormed(k)
    ensures info == EnumRecord(k, UNREGISTERED_CLASS_ID)
  {
    info := FromInstanceKlass(k.shape, true);
    info := info.(headerSize := ENUM_ORDINAL_OFFSET);
    info := info.(objSize := ENUM_ORDINAL_OFFSET + 4);
    ghost var base := info;
    for i := 0 to info.nStatic - 1
      invariant info == base.(enums := info.enums) && |info.enums| == |k.constants|
      invariant forall j :: 0 <= j < i ==> info.enums[j] == ObjWithHandle(k.constants[j].obj, k.constants[j].handle)
    {
      var c := k.constants[i];
      info := SetEnum(info, c.ordinal, c.obj, c.handle);
    }
    assert info.enums == EnumRecord(k, UNREGISTERED_CLASS_ID).enums;
  }

  class ClassResolver {
    /** `info_by_id`: the records, the k-th with id `index2id(k)`. */
    var infoById: seq<ClassRecord>
    /** `info_by_klass`: the same records ordered by klass address, kept as
        indices into `infoById` (both vectors hold the same records). */
    var infoByKlass: seq<nat>
    var sig2id: map<seq<char>, int>
    /** Field slots waiting for a class, under its signature. */
    var unresolved: map<seq<char>, seq<FieldRef>>

    ghost predicate Valid()
      reads this
    {
      RegistryValid(infoById, infoByKlass, sig2id, unresolved)
    }

    constructor ()
      ensures Valid()
      ensures infoById == [] && infoByKlass == [] && sig2id == map[] && unresolved == map[]
    {
      infoById := [];
      infoByKlass := [];
      sig2id := map[];
      unresolved := map[];
    }

    /** Replaces the tables with ones that keep the registry invariant. */
    method Store(infos: seq<ClassRecord>, order: seq<nat>, sigs: map<seq<char>, int>,
                 waiting: map<seq<char>, seq<FieldRef>>)
      requires RegistryValid(infos, order, sigs, waiting)
      modifies this
      ensures infoById == infos && infoByKlass == order && sig2id == sigs && unresolved == waiting
      ensures Valid()
    {
      infoById, infoByKlass, sig2id, unresolved := infos, order, sigs, waiting;
    }

    /** `get_class_info(id)`: the record with this id, or the dummy (None)
        past the last one. */
    function GetById(id: int): (r: Option<ClassRecord>)
      reads this
      requires id >= MIN_CLASS_ID
      ensures r.Some? <==> id < MIN_CLASS_ID + |infoById|
      ensures r.Some? && Valid() ==> r.value.id == id && r.value in infoById
    {
      var idx := Id2Index(id);
      if idx < |infoById| then Some(infoById[idx]) else None
    }

    /** `get_class_info(sig)`: the record registered under the signature. */
    function GetBySig(s: seq<char>): (r: Option<ClassRecord>)
      reads this
      requires Valid()
      ensures r.Some? <==> s in sig2id
      ensures r.Some? ==> Signature(r.value) == s && r.value.id == sig2id[s] && r.value in infoById
    {
      if s in sig2id then Some(infoById[Id2Index(sig2id[s])]) else None
    }

    /** `get_class_info(klass)`: a lower-bound search of the klass table. */
    function GetByKlass(klass: U64): (r: Option<ClassRecord>)
      reads this
      requires Valid()
      ensures r.Some? <==> Registered(infoById, klass)
      ensures r.Some? ==> r.value.klass == klass && HoldsKlass(infoById, r.value.id, klass)
                          && infoById[r.value.id - MIN_CLASS_ID] == r.value
    {
      LookupKlassSpec(infoById, infoByKlass, sig2id, klass);
      LookupKlass(infoById, infoByKlass, klass)
    }

    /** `get_class_info(klass_cptr)`: the lookup by the klass a compressed
        class pointer decodes to. */
    function GetByKlassCptr(cfg: JvmConfig, cptr: U32): (r: Option<ClassRecord>)
      reads this
      requires Valid() && SupportedMode(cfg.metaspaceMode) && cfg.metaspaceShift < 64
      ensures r.Some? <==> Registered(infoById, ParseMetaspaceCptr(cfg, cptr))
      ensures r.Some? ==> r.value.klass == ParseMetaspaceCptr(cfg, cptr)
    {
      GetByKlass(ParseMetaspaceCptr(cfg, cptr))
    }

    /** `register_class`: the id of the klass's record. A klass already
        registered is answered from the table; otherwise a walker walks it
        as an enum, a plain instance class or an array, registering it and
        the klasses it leads to. */
    method RegisterClass(k: Klass) returns (id: int)
      requires WellFormed(k) && Valid() && |infoById| + Depth(k) <= MAX_CLASSES
      modifies this
      ensures Valid() && HoldsKlass(infoById, id, Addr(k))
      ensures Grown(old(infoById), infoById) && |infoById| <= old(|infoById|) + Depth(k)
      ensures NewKlassesIn(infoById, old(|infoById|), Addrs(k))
      ensures old(Registered(infoById, Addr(k))) ==> unchanged(this)
    {
      var found := GetByKlass(Addr(k));
      if found.Some? {
        id := found.value.id;
        assert NewKlassesIn(infoById, |infoById|, Addrs(k));
        return;
      }
      var w := new ClassWalker(this);
      if k.InstanceKlass? {
        if k.isEnum {
          id := w.WalkEnumKlass(k);
        } else {
          id := w.WalkInstanceKlass(k);
        }
      } else {
        id := w.WalkArrayKlass(k);
      }
    }

    /** `register_classes`: registers every klass of the set, so that each
        is registered afterwards. */
    method RegisterClasses(ks: seq<Klass>)
      requires forall j :: 0 <= j < |ks| ==> WellFormed(ks[j])
      requires Valid() && |infoById| + SumDepth(ks) <= MAX_CLASSES
      modifies this
      ensures Valid() && Grown(old(infoById), infoById)
      ensures forall j :: 0 <= j < |ks| ==> Registered(infoById, Addr(ks[j]))
    {
      for i := 0 to |ks|
        invariant Valid() && Grown(old(infoById), infoById)
        invariant |infoById| + SumDepth(ks[i..]) <= MAX_CLASSES
        invariant forall j :: 0 <= j < i ==> Registered(infoById, Addr(ks[j]))
      {
        assert ks[i..][1..] == ks[i + 1..];
        ghost var before := infoById;
        var id := RegisterClass(ks[i]);
        GrownTrans(old(infoById), before, infoById);
        forall j | 0 <= j < i
          ensures Registered(infoById, Addr(ks[j]))
        {
          GrownKeepsRegistered(before, infoById, Addr(ks[j]));
        }
      }
    }
  }

  /** Growing the table keeps every registered klass registered. */
  lemma GrownKeepsRegistered(before: seq<ClassRecord>, after: seq<ClassRecord>, klass: U64)
    requires Grown(before, after) && Registered(before, klass)
    ensures Registered(after, klass)
  {
    var k :| 0 <= k < |before| && before[k].klass == klass;
    assert after[k] == before[k].(fields := after[k].fields);
  }

  class ClassWalker {
    const r: ClassResolver

    constructor (resolver: ClassResolver)
      ensures r == resolver
    {
      r := resolver;
    }

    /** `register_class_info`: give the record the next id, append it, insert
        it into the klass table at its lower bound, record its signature
        unless one is already known, and patch and drop the field slots
        waiting for it. */
    method RegisterClassInfo(info: ClassRecord) returns (id: int)
      requires CoreValid(r.infoById, r.infoByKlass, r.sig2id)
      requires RefsValid(r.infoById + [info], r.sig2id, r.unresolved)
      requires |r.infoById| < MAX_CLASSES && !Registered(r.infoById, info.klass)
      modifies r
      ensures RegisterStep(old(r.infoById), old(r.infoByKlass), old(r.sig2id), old(r.unresolved), info, id,
                           r.infoById, r.infoByKlass, r.sig2id, r.unresolved)
      ensures r.Valid()
    {
      var infos, order, sigs, waiting := r.infoById, r.infoByKlass, r.sig2id, r.unresolved;
      id, infos, order, sigs, waiting := Register(infos, order, sigs, waiting, info);
      r.Store(infos, order, sigs, waiting);
    }

    /** `walk_instance_klass` for a class that is not an enum: the id of its
        record, registering one first when the klass is new. The new record
        is the klass's header and sorted instance fields, resolved against
        the signatures known once it is registered; the fields that waited
        for it are patched, and its own reference fields to unknown classes
        wait in turn. */
    method WalkInstanceKlass(k: Klass) returns (id: int)
      requires k.InstanceKlass? && !k.isEnum && InstanceWellFormed(k)
      requires r.Valid() && (Registered(r.infoById, k.shape.klass) || |r.infoById| < MAX_CLASSES)
      modifies r
      ensures r.Valid() && HoldsKlass(r.infoById, id, k.shape.klass)
      ensures Grown(old(r.infoById), r.infoById) && |r.infoById| <= old(|r.infoById|) + 1
      ensures NewKlassesIn(r.infoById, old(|r.infoById|), {k.shape.klass})
      ensures old(Registered(r.infoById, k.shape.klass)) ==> unchanged(r)
      ensures !old(Registered(r.infoById, k.shape.klass)) ==>
                var sig := ['L'] + k.shape.name + [';'];
                var sorted := SortedInstanceFields(k.fields);
                && id == old(|r.infoById|) + MIN_CLASS_ID
                && r.sig2id == Known(old(r.sig2id), sig, id)
                && PendingIn(old(r.infoById), old(r.unresolved), sig)
                && r.infoById == Patch(old(r.infoById), Pending(old(r.unresolved), sig), id) + [InstanceRecord(k, id, r.sig2id)]
                && AllTyped(sorted)
                && r.unresolved == AddPending(old(r.unresolved), sorted, old(|r.infoById|), old(r.sig2id), |sorted|) - {sig}
    {
      var found := r.GetByKlass(k.shape.klass);
      if found.Some? {
        id := found.value.id;
        assert NewKlassesIn(r.infoById, |r.infoById|, {k.shape.klass});
        return;
      }
      ghost var infos0, known0, waiting0 := r.infoById, r.sig2id, r.unresolved;
      var info, waiting := BuildInstance(k, r.sig2id, r.unresolved, |r.infoById|);
      r.unresolved := waiting;
      ghost var id0 := |infos0| + MIN_CLASS_ID;
      ghost var rec := InstanceRecord(k, id0, Known(known0, Signature(info), id0));
      InstanceRegistrable(infos0, known0, waiting0, k, info, id0);
      id := RegisterClassInfo(info);
      assert id == id0 && r.sig2id == Known(known0, Signature(info), id0);
      RegisteredTail(infos0, info, id0, Pending(waiting, Signature(info)), Pending(waiting0, Signature(info)), rec, r.infoById);
    }

    /** `walk_enum_klass`: the id of the enum's record, registering one
        first when the klass is new. No field slot of an enum record waits,
        so the new record is stored as built. */
    method WalkEnumKlass(k: Klass) returns (id: int)
      requires k.InstanceKlass? && k.isEnum && InstanceWellFormed(k)
      requires r.Valid() && (Registered(r.infoById, k.shape.klass) || |r.infoById| < MAX_CLASSES)
      modifies r
      ensures r.Valid() && HoldsKlass(r.infoById, id, k.shape.klass)
      ensures Grown(old(r.infoById), r.infoById) && |r.infoById| <= old(|r.infoById|) + 1
      ensures NewKlassesIn(r.infoById, old(|r.infoById|), {k.shape.klass})
      ensures old(Registered(r.infoById, k.shape.klass)) ==> unchanged(r)
      ensures !old(Registered(r.infoById, k.shape.klass)) ==>
                var sig := ['L'] + k.shape.name + [';'];
                && id == old(|r.infoById|) + MIN_CLASS_ID
                && r.sig2id == Known(old(r.sig2id), sig, id)
                && PendingIn(old(r.infoById), old(r.unresolved), sig)
                && r.infoById == Patch(old(r.infoById), Pending(old(r.unresolved), sig), id) + [EnumRecord(k, id)]
                && r.unresolved == old(r.unresolved) - {sig}
    {
      var found := r.GetByKlass(k.shape.klass);
      if found.Some? {
        id := found.value.id;
        assert NewKlassesIn(r.infoById, |r.infoById|, {k.shape.klass});
        return;
      }
      ghost var infos0, known0, waiting0 := r.infoById, r.sig2id, r.unresolved;
      var info := BuildEnum(k);
      ghost var id0 := |infos0| + MIN_CLASS_ID;
      AppendUntouched(infos0, known0, waiting0, info, id0);
      id := RegisterClassInfo(info);
      assert id == id0;
      RegisteredTail(infos0, info, id0, Pending(waiting0, Signature(info)), Pending(waiting0, Signature(info)),
                     info.(id := id0), r.infoById);
      assert info.(id := id0) == EnumRecord(k, id0);
    }

    /** The element slot `walk_array_klass` fills before registering the
        array: the element type of a one-dimensional array, with the id of
        its element klass walked first when the elements are objects, or
        T_ARRAY with the id of the array klass one dimension lower. */
    method WalkElement(k: Klass, slot: FieldInfo) returns (elem: FieldInfo)
      requires k.ArrayKlass? && WellFormed(k) && slot.id == UNREGISTERED_CLASS_ID
      requires r.Valid() && |r.infoById| + Depth(k) - 1 <= MAX_CLASSES
      modifies r
      decreases k, 0
      ensures r.Valid() && Grown(old(r.infoById), r.infoById) && |r.infoById| <= old(|r.infoById|) + Depth(k) - 1
      ensures NewKlassesIn(r.infoById, old(|r.infoById|), if k.inner.Some? then Addrs(k.inner.value) else {})
      ensures elem == slot.(typ := ElemType(k), id := elem.id)
      ensures if k.inner.Some? then HoldsKlass(r.infoById, elem.id, Addr(k.inner.value))
              else elem.id == UNREGISTERED_CLASS_ID && unchanged(r)
    {
      elem := slot;
      if k.ashape.dim == 1 {
        elem := elem.(typ := k.elemType);
        if k.elemType == T_OBJECT {
          var ek := k.inner.value;
          var elemId;
          if ek.isEnum {
            elemId := WalkEnumKlass(ek);
          } else {
            elemId := WalkInstanceKlass(ek);
          }
          elem := elem.(id := elemId);
        }
      } else {
        elem := elem.(typ := T_ARRAY);
        var elemId := WalkArrayKlass(k.inner.value);
        elem := elem.(id := elemId);
      }
    }

    /** `walk_array_klass`: the id of the array's record, registering one
        first when the klass is new. */
    method WalkArrayKlass(k: Klass) returns (id: int)
      requires k.ArrayKlass? && WellFormed(k)
      requires r.Valid() && |r.infoById| + Depth(k) <= MAX_CLASSES
      modifies r
      decreases k, 2
      ensures r.Valid() && HoldsKlass(r.infoById, id, k.ashape.klass)
      ensures Grown(old(r.infoById), r.infoById) && |r.infoById| <= old(|r.infoById|) + Depth(k)
      ensures NewKlassesIn(r.infoById, old(|r.infoById|), Addrs(k))
      ensures old(Registered(r.infoById, k.ashape.klass)) ==> unchanged(r)
      ensures !old(Registered(r.infoById, k.ashape.klass)) ==>
                id == |r.infoById| - 1 + MIN_CLASS_ID && ArrayRegistered(r.infoById, k, id)
    {
      var found := r.GetByKlass(k.ashape.klass);
      if found.Some? {
        id := found.value.id;
        assert NewKlassesIn(r.infoById, |r.infoById|, Addrs(k));
      } else {
        id := WalkNewArray(k);
      }
    }

    /** The rest of `walk_array_klass` for a klass not yet registered: the
        element klass (for a one-dimensional object array) or the array
        klass one dimension lower is walked first, then the array's record
        is registered with that klass's id in its element slot. */
    method WalkNewArray(k: Klass) returns (id: int)
      requires k.ArrayKlass? && WellFormed(k) && !Registered(r.infoById, k.ashape.klass)
      requires r.Valid() && |r.infoById| + Depth(k) <= MAX_CLASSES
      modifies r
      decreases k, 1
      ensures r.Valid() && Grown(old(r.infoById), r.infoById) && |r.infoById| <= old(|r.infoById|) + Depth(k)
      ensures NewKlassesIn(r.infoById, old(|r.infoById|), Addrs(k))
      ensures id == |r.infoById| - 1 + MIN_CLASS_ID && ArrayRegistered(r.infoById, k, id)
    {
      ghost var infos0 := r.infoById;
      var info := FromArrayKlass(k.ashape);
      var elem := WalkElement(k, info.fields[0]);
      info := info.(fields := [elem]);
      ghost var infos1, known1, waiting1 := r.infoById, r.sig2id, r.unresolved;
      ghost var inner: set<U64> := if k.inner.Some? then Addrs(k.inner.value) else {};
      StillUnregistered(infos0, infos1, inner, k.ashape.klass);
      ghost var id0 := |infos1| + MIN_CLASS_ID;
      AppendUntouched(infos1, known1, waiting1, info, id0);
      id := RegisterClassInfo(info);
      assert id == id0;
      RegisteredTail(infos1, info, id0, Pending(waiting1, Signature(info)), Pending(waiting1, Signature(info)),
                     info.(id := id0), r.infoById);
      assert info.(id := id0) == ArrayRecord(k, id0, elem.id);
      ArrayWalked(infos0, infos1, Patch(infos1, Pending(waiting1, Signature(info)), id0), r.infoById, k, elem.id, id0);
    }
  }
}
