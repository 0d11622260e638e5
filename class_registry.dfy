/**
 * The class registry (`ClassResolver`) and the walker that fills it
 * (`ClassWalker`). Registered records are kept in id order; a second table
 * keeps them ordered by klass address for lookup by klass; a map gives the
 * id of each signature; and reference fields whose class is not registered
 * yet wait, listed under that class's signature, until it is.
 */
module ClassRegistry {
  import opened Bytes
  import opened BasicTypes
  import opened Wrappers
  import opened ClassInfos
  import opened FieldLayouts

  /** How many ids lie in [MIN_CLASS_ID, MAX_CLASS_ID]. */
  const MAX_CLASSES: nat := 0x7FFF - 20 + 1

  /** `id2index`: ids start at MIN_CLASS_ID. */
  function Id2Index(id: int): (i: nat)
    requires id >= MIN_CLASS_ID
  {
    id - MIN_CLASS_ID
  }

  /** `index2id`: the id of the i-th registered class. */
  function Index2Id(i: nat): (id: int)
    requires i + MIN_CLASS_ID <= MAX_CLASS_ID
  {
    i + MIN_CLASS_ID
  }

  /** The two conversions are inverse on the id range, and every id lies
      above every basic-type code, so an id never reads as a type. */
  lemma IdIndexInverse(id: int, i: nat)
    requires MIN_CLASS_ID <= id <= MAX_CLASS_ID && i < MAX_CLASSES
    ensures Index2Id(Id2Index(id)) == id && Id2Index(Index2Id(i)) == i
    ensures Id2Index(id) < MAX_CLASSES
    ensures forall t :: IsBasicType(t) ==> t <= Index2Id(i)
  {
  }

  /** A pointer to one field slot of one record: the record's index in id
      order and the slot's index. */
  datatype FieldRef = FieldRef(index: nat, field: nat)

  /** An enum constant as JNI hands it over: the object, a global handle and
      the ordinal stored in it. */
  datatype EnumConstant = EnumConstant(obj: U64, handle: U64, ordinal: nat)

  /** The klass structures the walker reads. A one-dimensional array names
      its element klass when its elements are objects; a deeper array names
      the array klass one dimension lower. */
  datatype Klass =
    | InstanceKlass(shape: InstanceShape, isEnum: bool, fields: seq<JField>, constants: seq<EnumConstant>)
    | ArrayKlass(ashape: ArrayShape, elemType: int, inner: Option<Klass>)

  function Addr(k: Klass): (r: U64)
  {
    if k.InstanceKlass? then k.shape.klass else k.ashape.klass
  }

  /** The addresses of a klass and of every klass it leads to. */
  function Addrs(k: Klass): (a: set<U64>)
    ensures Addr(k) in a
  {
    match k
    case InstanceKlass(_, _, _, _) => {k.shape.klass}
    case ArrayKlass(_, _, inner) => {k.ashape.klass} + (if inner.Some? then Addrs(inner.value) else {})
  }

  /** The number of klasses a walk can register. */
  function Depth(k: Klass): (d: nat)
    ensures d >= 1
  {
    match k
    case InstanceKlass(_, _, _, _) => 1
    case ArrayKlass(_, _, inner) => 1 + (if inner.Some? then Depth(inner.value) else 0)
  }

  /** What the JVM guarantees and the walker asserts of an instance klass:
      it fits a record, its instance fields are as many as the record's
      non-static slots and carry a usable descriptor, and an enum's
      constants come in ordinal order. */
  predicate InstanceWellFormed(k: Klass)
    requires k.InstanceKlass?
  {
    InstanceBuildable(k.shape, k.isEnum)
    && k.shape.nField == |k.fields|
    && |InstanceFields(k.fields, |k.fields|)| == k.shape.nField - k.shape.nStatic
    && (forall i :: 0 <= i < |k.fields| && IsInstanceField(k.fields[i]) ==> Typed(k.fields[i]))
    && (k.isEnum ==> |k.constants| == k.shape.nStatic - 1
                     && forall i :: 0 <= i < |k.constants| ==> k.constants[i].ordinal == i)
  }

  predicate WellFormed(k: Klass)
  {
    match k
    case InstanceKlass(_, _, _, _) => InstanceWellFormed(k)
    case ArrayKlass(shape, elemType, inner) =>
      ArrayBuildable(shape)
      && (if shape.dim == 1 then
            (IsPrimitiveType(elemType) && inner.None?)
            || (elemType == T_OBJECT && inner.Some? && inner.value.InstanceKlass?
                && WellFormed(inner.value) && shape.klass != Addr(inner.value))
          else
            inner.Some? && inner.value.ArrayKlass? && inner.value.ashape.dim + 1 == shape.dim
            && WellFormed(inner.value) && shape.klass !in Addrs(inner.value))
  }

  /** The klass addresses of the records, in the order a table lists them. */
  function KlassKeys(infos: seq<ClassRecord>, order: seq<nat>): (keys: seq<U64>)
    requires forall i :: 0 <= i < |order| ==> order[i] < |infos|
    ensures |keys| == |order| && forall i :: 0 <= i < |order| ==> keys[i] == infos[order[i]].klass
  {
    seq(|order|, i requires 0 <= i < |order| => infos[order[i]].klass)
  }

  predicate StrictlySorted(keys: seq<U64>)
  {
    forall i, j :: 0 <= i < j < |keys| ==> keys[i] < keys[j]
  }

  /** `std::ranges::lower_bound`: the first position whose key is not below
      `key`, or the end. */
  function LowerBound(keys: seq<U64>, key: U64): (p: nat)
    ensures p <= |keys|
    ensures forall i :: 0 <= i < p ==> keys[i] < key
    ensures p < |keys| ==> keys[p] >= key
  {
    if keys == [] then 0
    else if keys[0] >= key then 0
    else 1 + LowerBound(keys[1..], key)
  }

  /** On a sorted table every key from the lower bound on is at least the
      searched key, so a key equal to it can only sit at the lower bound. */
  lemma LowerBoundOfSorted(keys: seq<U64>, key: U64, i: nat)
    requires StrictlySorted(keys) && i < |keys| && keys[i] == key
    ensures LowerBound(keys, key) == i
  {
  }

  /** `order` lists every record index exactly once. */
  predicate IsOrdering(infos: seq<ClassRecord>, order: seq<nat>)
  {
    |order| == |infos|
    && (forall i :: 0 <= i < |order| ==> order[i] < |infos|)
    && (forall k :: 0 <= k < |infos| ==> k in order)
  }

  /** Pending field pointers stay inside the records, and a signature is
      pending only while no class with it is registered. */
  predicate RefsValid(infos: seq<ClassRecord>, sig2id: map<seq<char>, int>, unresolved: map<seq<char>, seq<FieldRef>>)
  {
    forall s :: s in unresolved ==>
      s !in sig2id
      && forall fr :: fr in unresolved[s] ==> fr.index < |infos| && fr.field < |infos[fr.index].fields|
  }

  /** The registry invariant: the k-th record has id `index2id(k)`; the
      klass table is a permutation ordered by klass address; each known
      signature maps to a record with that signature and every record's
      signature is known; pending pointers are valid. */
  predicate RegistryValid(infos: seq<ClassRecord>, order: seq<nat>, sig2id: map<seq<char>, int>,
                          unresolved: map<seq<char>, seq<FieldRef>>)
  {
    CoreValid(infos, order, sig2id) && RefsValid(infos, sig2id, unresolved)
  }

  /** The registry invariant without the pending pointers. */
  predicate CoreValid(infos: seq<ClassRecord>, order: seq<nat>, sig2id: map<seq<char>, int>)
  {
    |infos| <= MAX_CLASSES
    && IdsInOrder(infos)
    && IsOrdering(infos, order)
    && StrictlySorted(KlassKeys(infos, order))
    && SigsIndexed(infos, sig2id)
  }

  /** The k-th record has id `index2id(k)`. */
  predicate IdsInOrder(infos: seq<ClassRecord>)
  {
    forall k :: 0 <= k < |infos| ==> infos[k].id == k + MIN_CLASS_ID
  }

  /** Each known signature maps to a record with that signature, and every
      record's signature is known. */
  predicate SigsIndexed(infos: seq<ClassRecord>, sig2id: map<seq<char>, int>)
  {
    SigsPointIn(infos, sig2id) && SigsCover(infos, sig2id)
  }

  predicate SigsPointIn(infos: seq<ClassRecord>, sig2id: map<seq<char>, int>)
  {
    forall s :: s in sig2id ==>
      MIN_CLASS_ID <= sig2id[s] < MIN_CLASS_ID + |infos|
      && Signature(infos[sig2id[s] - MIN_CLASS_ID]) == s
  }

  predicate SigsCover(infos: seq<ClassRecord>, sig2id: map<seq<char>, int>)
  {
    forall k :: 0 <= k < |infos| ==> Signature(infos[k]) in sig2id
  }

  /** The pointers pending under a signature. */
  function Pending(unresolved: map<seq<char>, seq<FieldRef>>, s: seq<char>): (r: seq<FieldRef>)
  {
    if s in unresolved then unresolved[s] else []
  }

  predicate RefIn(infos: seq<ClassRecord>, fr: FieldRef)
  {
    fr.index < |infos| && fr.field < |infos[fr.index].fields|
  }

  /** `f->id = id` through one pending pointer. */
  function SetFieldId(infos: seq<ClassRecord>, fr: FieldRef, id: int): (r: seq<ClassRecord>)
    requires RefIn(infos, fr)
  {
    var rec := infos[fr.index];
    infos[fr.index := rec.(fields := rec.fields[fr.field := rec.fields[fr.field].(id := id)])]
  }

  /** The patching loop of `register_class_info`: the pointed-to fields get
      the new id; records keep everything but their fields, and their field
      counts. */
  function Patch(infos: seq<ClassRecord>, refs: seq<FieldRef>, id: int): (r: seq<ClassRecord>)
    requires forall fr :: fr in refs ==> RefIn(infos, fr)
    ensures |r| == |infos|
    ensures forall k :: 0 <= k < |infos| ==>
              r[k] == infos[k].(fields := r[k].fields) && |r[k].fields| == |infos[k].fields|
  {
    if refs == [] then infos
    else
      var last := refs[|refs| - 1];
      var front := refs[..|refs| - 1];
      assert forall fr :: fr in front ==> fr in refs;
      var p := Patch(infos, front, id);
      assert RefIn(infos, last);
      SetFieldId(p, last, id)
  }

  /** Exactly the pointed-to fields get the new id, and only their id
      changes. */
  lemma {:induction false} PatchSetsIds(infos: seq<ClassRecord>, refs: seq<FieldRef>, id: int, k: nat, f: nat)
    requires forall fr :: fr in refs ==> RefIn(infos, fr)
    requires k < |infos| && f < |infos[k].fields|
    ensures Patch(infos, refs, id)[k].fields[f]
            == infos[k].fields[f].(id := if FieldRef(k, f) in refs then id else infos[k].fields[f].id)
  {
    if refs != [] {
      var last := refs[|refs| - 1];
      var front := refs[..|refs| - 1];
      assert forall fr :: fr in front ==> fr in refs;
      assert forall fr :: fr in refs <==> fr in front || fr == last;
      PatchSetsIds(infos, front, id, k, f);
    }
  }

  /** Every field of the sequence has a usable descriptor. */
  predicate AllTyped(sorted: seq<JField>)
  {
    forall j :: 0 <= j < |sorted| ==> Typed(sorted[j])
  }

  /** The pending map after the resolving loop has handled the first i
      sorted fields of a record that will get index n: a reference field
      whose signature is not registered is listed under it. */
  function AddPending(m: map<seq<char>, seq<FieldRef>>, sorted: seq<JField>, n: nat,
                      known: map<seq<char>, int>, i: nat): (r: map<seq<char>, seq<FieldRef>>)
    requires i <= |sorted| && AllTyped(sorted)
  {
    if i == 0 then m
    else
      var r := AddPending(m, sorted, n, known, i - 1);
      var f := sorted[i - 1];
      if IsReferenceType(FieldType(f)) && f.sig !in known then Enqueue(r, f.sig, FieldRef(n, i - 1))
      else r
  }

  /** Whether the i-th sorted field waits under signature s: its
      descriptor is s, names a class or an array type (the reference types
      of `char2type`), and s is not registered. */
  predicate WaitsUnder(sorted: seq<JField>, known: map<seq<char>, int>, i: nat, s: seq<char>)
    requires i < |sorted|
  {
    sorted[i].sig == s && |s| > 0 && (s[0] == 'L' || s[0] == '[') && s !in known
  }

  /** The resolving loop's step on the pending map. */
  lemma AddPendingNext(m: map<seq<char>, seq<FieldRef>>, sorted: seq<JField>, n: nat,
                       known: map<seq<char>, int>, i: nat)
    requires i < |sorted| && AllTyped(sorted)
    ensures var f := sorted[i];
            AddPending(m, sorted, n, known, i + 1)
            == if IsReferenceType(FieldType(f)) && f.sig !in known
               then Enqueue(AddPending(m, sorted, n, known, i), f.sig, FieldRef(n, i))
               else AddPending(m, sorted, n, known, i)
  {
  }

  /** `unresolved[sig].push_back(fr)`, creating the list when the
      signature has none. */
  function Enqueue(m: map<seq<char>, seq<FieldRef>>, sig: seq<char>, fr: FieldRef): (r: map<seq<char>, seq<FieldRef>>)
  {
    m[sig := Pending(m, sig) + [fr]]
  }

  /** The resolving loop only adds lists under signatures not yet known. */
  lemma {:induction false} AddPendingKeys(m: map<seq<char>, seq<FieldRef>>, sorted: seq<JField>, n: nat,
                                          known: map<seq<char>, int>, i: nat)
    requires i <= |sorted| && AllTyped(sorted)
    ensures forall s :: s in AddPending(m, sorted, n, known, i) ==> s in m || s !in known
  {
    if i > 0 {
      AddPendingKeys(m, sorted, n, known, i - 1);
    }
  }

  /** One step of the resolving loop appends to the pointers pending under
      s exactly when the handled field waits under s. */
  lemma AddPendingStep(m: map<seq<char>, seq<FieldRef>>, sorted: seq<JField>, n: nat,
                       known: map<seq<char>, int>, i: nat, s: seq<char>)
    requires 0 < i <= |sorted| && AllTyped(sorted)
    ensures Pending(AddPending(m, sorted, n, known, i), s)
            == Pending(AddPending(m, sorted, n, known, i - 1), s)
               + (if WaitsUnder(sorted, known, i - 1, s) then [FieldRef(n, i - 1)] else [])
  {
  }

  /** A pointer is pending after the loop iff it was pending before or it
      names one of the handled reference fields of the new record whose
      class is not registered. */
  lemma {:induction false} AddPendingFacts(m: map<seq<char>, seq<FieldRef>>, sorted: seq<JField>, n: nat,
                                           known: map<seq<char>, int>, i: nat, s: seq<char>, fr: FieldRef)
    requires i <= |sorted| && AllTyped(sorted)
    ensures fr in Pending(AddPending(m, sorted, n, known, i), s) <==>
              fr in Pending(m, s) || (fr.index == n && fr.field < i && WaitsUnder(sorted, known, fr.field, s))
  {
    AddPendingWaiting(m, sorted, n, known, i, s);
    WaitingFacts(sorted, known, n, i, s, fr);
  }

  /** The pointers to slots of the record with index n that the resolving
      loop queues under s while handling the first i sorted fields. */
  function Waiting(sorted: seq<JField>, known: map<seq<char>, int>, n: nat, i: nat, s: seq<char>): (r: seq<FieldRef>)
    requires i <= |sorted| && AllTyped(sorted)
  {
    if i == 0 then []
    else Waiting(sorted, known, n, i - 1, s) + (if WaitsUnder(sorted, known, i - 1, s) then [FieldRef(n, i - 1)] else [])
  }

  /** The loop appends to what was pending under s exactly the slots it
      queues there, in field order. */
  lemma {:induction false} AddPendingWaiting(m: map<seq<char>, seq<FieldRef>>, sorted: seq<JField>, n: nat,
                                             known: map<seq<char>, int>, i: nat, s: seq<char>)
    requires i <= |sorted| && AllTyped(sorted)
    ensures Pending(AddPending(m, sorted, n, known, i), s) == Pending(m, s) + Waiting(sorted, known, n, i, s)
  {
    if i > 0 {
      AddPendingWaiting(m, sorted, n, known, i - 1, s);
      AddPendingStep(m, sorted, n, known, i, s);
      var extra := if WaitsUnder(sorted, known, i - 1, s) then [FieldRef(n, i - 1)] else [];
      var before := Waiting(sorted, known, n, i - 1, s);
      var prev := Pending(AddPending(m, sorted, n, known, i - 1), s);
      assert prev == Pending(m, s) + before;
      assert Pending(AddPending(m, sorted, n, known, i), s) == prev + extra;
      assert Waiting(sorted, known, n, i, s) == before + extra;
      assert (Pending(m, s) + before) + extra == Pending(m, s) + (before + extra);
    }
  }

  /** A slot is queued under s iff it belongs to the new record, is among
      the first i, and its field waits under s. */
  lemma {:induction false} WaitingFacts(sorted: seq<JField>, known: map<seq<char>, int>, n: nat, i: nat,
                                        s: seq<char>, fr: FieldRef)
    requires i <= |sorted| && AllTyped(sorted)
    ensures fr in Waiting(sorted, known, n, i, s) <==> fr.index == n && fr.field < i && WaitsUnder(sorted, known, fr.field, s)
  {
    if i > 0 {
      WaitingFacts(sorted, known, n, i - 1, s, fr);
      InAppended(Waiting(sorted, known, n, i - 1, s), fr, FieldRef(n, i - 1), WaitsUnder(sorted, known, i - 1, s));
      WaitsBelowNext(sorted, known, n, i, s, fr);
    }
  }

  /** A pointer is in a list with perhaps one more appended iff it was in
      the list or it is the appended one. */
  lemma InAppended(before: seq<FieldRef>, fr: FieldRef, last: FieldRef, appended: bool)
    ensures fr in before + (if appended then [last] else []) <==> fr in before || (appended && fr == last)
  {
  }

  /** A pointer names one of the first i fields waiting under s iff it names
      one of the first i - 1 or the (i - 1)-th, which waits. */
  lemma WaitsBelowNext(sorted: seq<JField>, known: map<seq<char>, int>, n: nat, i: nat, s: seq<char>, fr: FieldRef)
    requires 0 < i <= |sorted| && AllTyped(sorted)
    ensures (fr.index == n && fr.field < i && WaitsUnder(sorted, known, fr.field, s))
            <==> (fr.index == n && fr.field < i - 1 && WaitsUnder(sorted, known, fr.field, s))
                 || (WaitsUnder(sorted, known, i - 1, s) && fr == FieldRef(n, i - 1))
  {
  }

  /** The record slot the resolving loop fills for a field: offset relative
      to the header, type, flags, JNI id, and the id of the field's class
      when it is registered (UNREGISTERED_CLASS_ID otherwise, and for
      primitive fields). */
  function ResolvedField(f: JField, header: nat, known: map<seq<char>, int>): (r: FieldInfo)
    requires Typed(f) && header <= f.offset
  {
    var t := FieldType(f);
    FieldInfo(if IsReferenceType(t) && f.sig in known then known[f.sig] else UNREGISTERED_CLASS_ID,
              f.offset - header, t, f.accessFlags, f.jniId)
  }

  /** The lookup `get_class_info(klass)` performs on the klass table: the
      record at the lower bound when its klass is the one searched. */
  function LookupKlass(infos: seq<ClassRecord>, order: seq<nat>, klass: U64): (r: Option<ClassRecord>)
    requires IsOrdering(infos, order)
  {
    var keys := KlassKeys(infos, order);
    var p := LowerBound(keys, klass);
    if p < |keys| && keys[p] == klass then Some(infos[order[p]]) else None
  }

  /** On a valid registry the lookup by klass finds exactly the registered
      record with that klass, and no record when none has it. */
  lemma {:induction false} LookupKlassFinds(infos: seq<ClassRecord>, order: seq<nat>, sig2id: map<seq<char>, int>,
                                            klass: U64, j: nat)
    requires CoreValid(infos, order, sig2id)
    ensures j < |infos| && infos[j].klass == klass ==> LookupKlass(infos, order, klass) == Some(infos[j])
    ensures LookupKlass(infos, order, klass).Some? ==>
              var r := LookupKlass(infos, order, klass).value;
              r.klass == klass && MIN_CLASS_ID <= r.id < MIN_CLASS_ID + |infos| && infos[r.id - MIN_CLASS_ID] == r
  {
    var keys := KlassKeys(infos, order);
    if j < |infos| && infos[j].klass == klass {
      assert j in order;
      var i :| 0 <= i < |order| && order[i] == j;
      LowerBoundOfSorted(keys, klass, i);
    }
  }

  /** Two records never share a klass. */
  lemma KlassUnique(infos: seq<ClassRecord>, order: seq<nat>, sig2id: map<seq<char>, int>, j: nat, k: nat)
    requires CoreValid(infos, order, sig2id) && j < |infos| && k < |infos| && infos[j].klass == infos[k].klass
    ensures j == k
  {
    LookupKlassFinds(infos, order, sig2id, infos[j].klass, j);
    LookupKlassFinds(infos, order, sig2id, infos[j].klass, k);
  }

  /** The klass table with record index n inserted at position p. */
  function Inserted(order: seq<nat>, p: nat, n: nat): (r: seq<nat>)
    requires p <= |order|
    ensures |r| == |order| + 1 && r[p] == n
    ensures forall i :: 0 <= i < p ==> r[i] == order[i]
    ensures forall i :: p < i < |r| ==> r[i] == order[i - 1]
  {
    order[..p] + [n] + order[p..]
  }

  /** `sig2id.emplace(sig, id)`: an existing entry is kept. */
  function Known(sig2id: map<seq<char>, int>, sig: seq<char>, id: int): (m: map<seq<char>, int>)
  {
    if sig in sig2id then sig2id else sig2id[sig := id]
  }

  /** Inserting a key absent from a strictly sorted sequence at its lower
      bound keeps it strictly sorted. */
  lemma InsertSortedKey(keys: seq<U64>, key: U64)
    requires StrictlySorted(keys) && key !in keys
    ensures var p := LowerBound(keys, key);
            StrictlySorted(keys[..p] + [key] + keys[p..])
  {
    var p := LowerBound(keys, key);
    var keys' := keys[..p] + [key] + keys[p..];
    forall i, j | 0 <= i < j < |keys'|
      ensures keys'[i] < keys'[j]
    {
      if j < p {
        assert keys'[i] == keys[i] && keys'[j] == keys[j];
      } else if j == p {
        assert keys'[i] == keys[i];
      } else if i < p {
        assert keys'[i] == keys[i] && keys'[j] == keys[j - 1];
        assert keys[i] < key <= keys[p];
      } else if i == p {
        assert keys'[j] == keys[j - 1] && keys[j - 1] != key;
        assert keys[p] <= keys[j - 1];
      } else {
        assert keys'[i] == keys[i - 1] && keys'[j] == keys[j - 1];
      }
    }
  }

  /** Inserting a new index at the lower bound of its klass keeps the klass
      table a permutation in strictly increasing klass order. */
  lemma {:induction false} InsertKeepsOrder(infos: seq<ClassRecord>, order: seq<nat>, rec: ClassRecord)
    requires IsOrdering(infos, order) && StrictlySorted(KlassKeys(infos, order))
    requires forall k :: 0 <= k < |infos| ==> infos[k].klass != rec.klass
    ensures var p := LowerBound(KlassKeys(infos, order), rec.klass);
            var infos' := infos + [rec];
            var order' := Inserted(order, p, |infos|);
            IsOrdering(infos', order') && StrictlySorted(KlassKeys(infos', order'))
  {
    var keys := KlassKeys(infos, order);
    var p := LowerBound(keys, rec.klass);
    InsertIsOrdering(infos, order, rec, p);
    InsertKeys(infos, order, rec, p);
    InsertSortedKey(keys, rec.klass);
  }

  lemma InsertIsOrdering(infos: seq<ClassRecord>, order: seq<nat>, rec: ClassRecord, p: nat)
    requires IsOrdering(infos, order) && p <= |order|
    ensures IsOrdering(infos + [rec], Inserted(order, p, |infos|))
  {
    var infos' := infos + [rec];
    var order' := Inserted(order, p, |infos|);
    forall k | 0 <= k < |infos'|
      ensures k in order'
    {
      if k < |infos| {
        assert k in order;
        var i :| 0 <= i < |order| && order[i] == k;
        if i < p {
          assert order'[i] == k;
        } else {
          assert order'[i + 1] == k;
        }
      } else {
        assert order'[p] == k;
      }
    }
  }

  lemma InsertKeys(infos: seq<ClassRecord>, order: seq<nat>, rec: ClassRecord, p: nat)
    requires IsOrdering(infos, order) && p <= |order|
    requires forall k :: 0 <= k < |infos| ==> infos[k].klass != rec.klass
    ensures var keys := KlassKeys(infos, order);
            rec.klass !in keys
            && KlassKeys(infos + [rec], Inserted(order, p, |infos|)) == keys[..p] + [rec.klass] + keys[p..]
  {
    var infos' := infos + [rec];
    var order' := Inserted(order, p, |infos|);
    var keys := KlassKeys(infos, order);
    var keys' := KlassKeys(infos', order');
    var want := keys[..p] + [rec.klass] + keys[p..];
    forall i | 0 <= i < |keys'|
      ensures keys'[i] == want[i]
    {
      if i < p {
        assert order'[i] == order[i] && want[i] == keys[i];
      } else if i > p {
        assert order'[i] == order[i - 1] && want[i] == keys[i - 1];
      }
    }
    assert keys' == keys[..p] + [rec.klass] + keys[p..];
  }

  /** Patching changes field ids only, so the klass keys of every table are
      the same before and after. */
  lemma PatchKeepsKeys(infos: seq<ClassRecord>, refs: seq<FieldRef>, id: int, order: seq<nat>)
    requires forall fr :: fr in refs ==> RefIn(infos, fr)
    requires forall i :: 0 <= i < |order| ==> order[i] < |infos|
    ensures KlassKeys(Patch(infos, refs, id), order) == KlassKeys(infos, order)
  {
  }

  /** Patching field ids leaves each record's id, klass and signature. */
  lemma PatchKeepsHeads(base: seq<ClassRecord>, refs: seq<FieldRef>, id: int)
    requires forall fr :: fr in refs ==> RefIn(base, fr)
    ensures var p := Patch(base, refs, id);
            forall k :: 0 <= k < |p| ==> p[k].sig == base[k].sig && p[k].id == base[k].id && p[k].klass == base[k].klass
  {
  }

  /** Patching field ids leaves the id order, the klass table and the
      signatures as they were. */
  lemma PatchKeepsCore(base: seq<ClassRecord>, order: seq<nat>, sig2id: map<seq<char>, int>, refs: seq<FieldRef>, id: int)
    requires CoreValid(base, order, sig2id) && forall fr :: fr in refs ==> RefIn(base, fr)
    ensures CoreValid(Patch(base, refs, id), order, sig2id)
  {
    PatchKeepsKeys(base, refs, id, order);
    PatchKeepsIds(base, refs, id);
    PatchKeepsSigs(base, sig2id, refs, id);
  }

  lemma PatchKeepsIds(base: seq<ClassRecord>, refs: seq<FieldRef>, id: int)
    requires IdsInOrder(base) && forall fr :: fr in refs ==> RefIn(base, fr)
    ensures IdsInOrder(Patch(base, refs, id))
  {
    PatchKeepsHeads(base, refs, id);
  }

  lemma PatchKeepsSigs(base: seq<ClassRecord>, sig2id: map<seq<char>, int>, refs: seq<FieldRef>, id: int)
    requires SigsIndexed(base, sig2id) && forall fr :: fr in refs ==> RefIn(base, fr)
    ensures SigsIndexed(Patch(base, refs, id), sig2id)
  {
    var p := Patch(base, refs, id);
    PatchKeepsHeads(base, refs, id);
    assert forall k :: 0 <= k < |p| ==> Signature(p[k]) == Signature(base[k]);
  }

  /** Appending a record with the next id and a new klass, inserted at the
      lower bound of the klass table, keeps the core invariant. */
  lemma {:induction false} AppendKeepsCore(infos: seq<ClassRecord>, order: seq<nat>, sig2id: map<seq<char>, int>, r: ClassRecord)
    requires CoreValid(infos, order, sig2id) && |infos| < MAX_CLASSES
    requires r.id == |infos| + MIN_CLASS_ID
    requires forall k :: 0 <= k < |infos| ==> infos[k].klass != r.klass
    ensures var p := LowerBound(KlassKeys(infos, order), r.klass);
            var sig := Signature(r);
            CoreValid(infos + [r], Inserted(order, p, |infos|),
                      Known(sig2id, sig, r.id))
  {
    InsertKeepsOrder(infos, order, r);
    AppendKeepsSigs(infos, sig2id, r);
    assert IdsInOrder(infos + [r]);
  }

  lemma AppendKeepsSigs(infos: seq<ClassRecord>, sig2id: map<seq<char>, int>, r: ClassRecord)
    requires SigsIndexed(infos, sig2id)
    ensures SigsIndexed(infos + [r], Known(sig2id, Signature(r), |infos| + MIN_CLASS_ID))
  {
    AppendKeepsPointIn(infos, sig2id, r);
    AppendKeepsCover(infos, sig2id, r);
  }

  lemma AppendKeepsPointIn(infos: seq<ClassRecord>, sig2id: map<seq<char>, int>, r: ClassRecord)
    requires SigsPointIn(infos, sig2id)
    ensures SigsPointIn(infos + [r], Known(sig2id, Signature(r), |infos| + MIN_CLASS_ID))
  {
    var infos' := infos + [r];
    assert forall k :: 0 <= k < |infos| ==> infos'[k] == infos[k];
    assert infos'[|infos|] == r;
  }

  lemma AppendKeepsCover(infos: seq<ClassRecord>, sig2id: map<seq<char>, int>, r: ClassRecord)
    requires SigsCover(infos, sig2id)
    ensures SigsCover(infos + [r], Known(sig2id, Signature(r), |infos| + MIN_CLASS_ID))
  {
    var infos' := infos + [r];
    assert forall k :: 0 <= k < |infos| ==> infos'[k] == infos[k];
  }

  /** The tables after `register_class_info` registers info: it gets the
      next id and is appended, the field slots waiting for its signature get
      that id, its index goes into the klass order at the lower bound of its
      klass, its signature becomes known unless it already is, and its
      waiting list is dropped. */
  predicate RegisterStep(infos: seq<ClassRecord>, order: seq<nat>, sig2id: map<seq<char>, int>,
                         unresolved: map<seq<char>, seq<FieldRef>>, info: ClassRecord, id: int,
                         infos': seq<ClassRecord>, order': seq<nat>, sig2id': map<seq<char>, int>,
                         unresolved': map<seq<char>, seq<FieldRef>>)
    requires CoreValid(infos, order, sig2id)
  {
    && id == |infos| + MIN_CLASS_ID
    && PendingIn(infos + [info.(id := id)], unresolved, Signature(info))
    && infos' == Patch(infos + [info.(id := id)], Pending(unresolved, Signature(info)), id)
    && order' == Inserted(order, LowerBound(KlassKeys(infos, order), info.klass), |infos|)
    && sig2id' == Known(sig2id, Signature(info), id)
    && unresolved' == unresolved - {Signature(info)}
  }

  /** `register_class_info` keeps the registry valid: the new record r
      gets the next id, goes into the klass table at its lower bound, its
      signature becomes known (unless another class already holds it), and
      the fields waiting for it are patched and no longer pending. */
  lemma RegisterKeepsValid(infos: seq<ClassRecord>, order: seq<nat>, sig2id: map<seq<char>, int>,
                           unresolved: map<seq<char>, seq<FieldRef>>, r: ClassRecord)
    requires CoreValid(infos, order, sig2id) && RefsValid(infos + [r], sig2id, unresolved)
    requires |infos| < MAX_CLASSES && r.id == |infos| + MIN_CLASS_ID
    requires forall k :: 0 <= k < |infos| ==> infos[k].klass != r.klass
    ensures PendingIn(infos + [r], unresolved, Signature(r))
    ensures var p := LowerBound(KlassKeys(infos, order), r.klass);
            var sig := Signature(r);
            RegistryValid(Patch(infos + [r], Pending(unresolved, sig), r.id), Inserted(order, p, |infos|),
                          Known(sig2id, sig, r.id), unresolved - {sig})
  {
    var sig := Signature(r);
    var p := LowerBound(KlassKeys(infos, order), r.klass);
    var base := infos + [r];
    var order' := Inserted(order, p, |infos|);
    var sig2id' := Known(sig2id, sig, r.id);
    var refs := Pending(unresolved, sig);
    PatchKeepsRefs(base, sig2id, unresolved, sig, r.id);
    AppendKeepsCore(infos, order, sig2id, r);
    assert CoreValid(base, order', sig2id');
    PatchKeepsCore(base, order', sig2id', refs, r.id);
    assert CoreValid(Patch(base, refs, r.id), order', sig2id');
    assert RefsValid(Patch(base, refs, r.id), sig2id', unresolved - {sig});
  }

  /** Every pointer pending under s points into the records. */
  predicate PendingIn(infos: seq<ClassRecord>, unresolved: map<seq<char>, seq<FieldRef>>, s: seq<char>)
  {
    forall fr :: fr in Pending(unresolved, s) ==> RefIn(infos, fr)
  }

  /** Patching the pointers pending under s and dropping them leaves the
      other pending pointers valid once s is known. */
  lemma PatchKeepsRefs(infos: seq<ClassRecord>, sig2id: map<seq<char>, int>,
                       unresolved: map<seq<char>, seq<FieldRef>>, s: seq<char>, id: int)
    requires RefsValid(infos, sig2id, unresolved)
    ensures PendingIn(infos, unresolved, s)
    ensures RefsValid(Patch(infos, Pending(unresolved, s), id), Known(sig2id, s, id), unresolved - {s})
  {
    var infos' := Patch(infos, Pending(unresolved, s), id);
    assert forall k :: 0 <= k < |infos| ==> |infos'[k].fields| == |infos[k].fields|;
  }

  /** A record with this klass is registered. */
  predicate Registered(infos: seq<ClassRecord>, klass: U64)
  {
    exists k :: 0 <= k < |infos| && infos[k].klass == klass
  }

  /** The lookup by klass on a valid registry, both ways. */
  lemma LookupKlassSpec(infos: seq<ClassRecord>, order: seq<nat>, sig2id: map<seq<char>, int>, klass: U64)
    requires CoreValid(infos, order, sig2id)
    ensures LookupKlass(infos, order, klass).Some? <==> Registered(infos, klass)
    ensures LookupKlass(infos, order, klass).Some? ==>
              var r := LookupKlass(infos, order, klass).value;
              r.klass == klass && MIN_CLASS_ID <= r.id < MIN_CLASS_ID + |infos| && infos[r.id - MIN_CLASS_ID] == r
  {
    if Registered(infos, klass) {
      var k :| 0 <= k < |infos| && infos[k].klass == klass;
      LookupKlassFinds(infos, order, sig2id, klass, k);
    } else {
      LookupKlassFinds(infos, order, sig2id, klass, |infos|);
    }
  }

  /** Pending pointers only depend on how many fields each record has. */
  lemma RefsValidSameCounts(infos: seq<ClassRecord>, infos': seq<ClassRecord>, sig2id: map<seq<char>, int>,
                            unresolved: map<seq<char>, seq<FieldRef>>)
    requires RefsValid(infos, sig2id, unresolved)
    requires |infos'| == |infos| && forall k :: 0 <= k < |infos| ==> |infos'[k].fields| == |infos[k].fields|
    ensures RefsValid(infos', sig2id, unresolved)
  {
  }

  /** Pointers into the records stay valid when a record is appended. */
  lemma RefsValidExtend(infos: seq<ClassRecord>, rec: ClassRecord, sig2id: map<seq<char>, int>,
                        unresolved: map<seq<char>, seq<FieldRef>>)
    requires RefsValid(infos, sig2id, unresolved)
    ensures RefsValid(infos + [rec], sig2id, unresolved)
  {
    assert forall k :: 0 <= k < |infos| ==> (infos + [rec])[k] == infos[k];
  }

  /** The resolving loop leaves the pending pointers valid for the records
      extended by the new one, whose slots the new pointers name. */
  lemma AddPendingKeepsRefs(infos: seq<ClassRecord>, rec: ClassRecord, sig2id: map<seq<char>, int>,
                            m: map<seq<char>, seq<FieldRef>>, sorted: seq<JField>)
    requires RefsValid(infos, sig2id, m) && AllTyped(sorted) && |rec.fields| == |sorted|
    ensures RefsValid(infos + [rec], sig2id, AddPending(m, sorted, |infos|, sig2id, |sorted|))
  {
    var n := |infos|;
    var infos' := infos + [rec];
    var m' := AddPending(m, sorted, n, sig2id, |sorted|);
    RefsValidExtend(infos, rec, sig2id, m);
    AddPendingKeys(m, sorted, n, sig2id, |sorted|);
    forall s, fr: FieldRef | s in m' && fr in m'[s]
      ensures fr.index < |infos'| && fr.field < |infos'[fr.index].fields|
    {
      assert fr in Pending(m', s);
      AddPendingFacts(m, sorted, n, sig2id, |sorted|, s, fr);
    }
  }

  /** What every walk keeps: records are only appended, and an existing
      record changes at most the ids in its field slots. */
  predicate Grown(before: seq<ClassRecord>, after: seq<ClassRecord>)
  {
    |before| <= |after|
    && forall k :: 0 <= k < |before| ==>
         after[k] == before[k].(fields := after[k].fields) && |after[k].fields| == |before[k].fields|
  }

  lemma GrownTrans(a: seq<ClassRecord>, b: seq<ClassRecord>, c: seq<ClassRecord>)
    requires Grown(a, b) && Grown(b, c)
    ensures Grown(a, c)
  {
    forall k | 0 <= k < |a|
      ensures c[k] == a[k].(fields := c[k].fields) && |c[k].fields| == |a[k].fields|
    {
      assert b[k] == a[k].(fields := b[k].fields);
    }
  }

  /** The records appended after the first n have klasses in the set. */
  predicate NewKlassesIn(infos: seq<ClassRecord>, n: nat, klasses: set<U64>)
  {
    forall k :: n <= k < |infos| ==> infos[k].klass in klasses
  }
}
