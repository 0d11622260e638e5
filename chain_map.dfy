/**
 * The fixed-capacity chained hash map shared by the host serializer
 * (`MapImpl`, in a normal and a bidirectional flavour) and the device
 * kernel (`map_t`). Entries live in insertion order in `s`; each bucket's
 * head slot names the newest entry of that bucket and `next` links each
 * entry to the previous entry of the same bucket. 0xFFFF marks the end of a
 * chain and an all-ones value marks "not found".
 */
module ChainMaps {
  import opened Bytes
  import opened Wrappers

  /** `invalid_mark`: the end of a chain. */
  const INVALID_MARK: U16 := 0xFFFF
  /** `invalid_value`: what a failed lookup returns. */
  const INVALID_VALUE: U64 := U64_MAX

  /** The device map's `prime` and `capacity`. */
  const KERNEL_PRIME: nat := 23
  const KERNEL_CAPACITY: nat := 64

  /** The host hash sums the four 16-bit words of the key; the device hash
      reduces the key itself. */
  datatype HashKind = WordSum | Modulo

  /** `h(x, p)`. */
  function Bucket(kind: HashKind, x: U64, p: nat): (b: nat)
    requires p > 0
    ensures b < p
  {
    match kind
    case WordSum =>
      (x % 0x1_0000 + (x / 0x1_0000) % 0x1_0000 + (x / 0x1_0000_0000) % 0x1_0000
        + x / 0x1_0000_0000_0000) % p
    case Modulo => x % p
  }

  /** The newest entry below i whose item hashes to bucket b, or the end
      mark: what a chain link must hold. */
  function LastIn(xs: seq<U64>, kind: HashKind, p: nat, b: nat, i: nat): (j: int)
    requires p > 0 && i <= |xs|
    ensures j == INVALID_MARK || (0 <= j < i && Bucket(kind, xs[j], p) == b)
  {
    if i == 0 then INVALID_MARK
    else if Bucket(kind, xs[i - 1], p) == b then i - 1
    else LastIn(xs, kind, p, b, i - 1)
  }

  /** The newest entry below i whose item is x, or -1. */
  function LastEq(xs: seq<U64>, x: U64, i: nat): (j: int)
    requires i <= |xs|
    ensures -1 <= j < i && (j >= 0 ==> xs[j] == x)
    ensures forall t :: j < t < i ==> xs[t] != x
  {
    if i == 0 then -1
    else if xs[i - 1] == x then i - 1
    else LastEq(xs, x, i - 1)
  }

  /** The value stored with the newest entry for key k. */
  function Lookup(ks: seq<U64>, vs: seq<U64>, k: U64): (r: Option<U64>)
    requires |ks| == |vs|
    ensures r.None? <==> k !in ks
  {
    var j := LastEq(ks, k, |ks|);
    if j < 0 then None
    else
      Some(vs[j])
  }

  /** The result `lookup_v` and `lookup_k` report for a lookup. */
  function Reported(r: Option<U64>): (v: U64)
  {
    match r
    case None => INVALID_VALUE
    case Some(v) => v
  }

  /** After inserting (k, v) the key k maps to v. */
  lemma LookupInserted(ks: seq<U64>, vs: seq<U64>, k: U64, v: U64)
    requires |ks| == |vs|
    ensures Lookup(ks + [k], vs + [v], k) == Some(v)
  {
  }

  /** Inserting one key leaves every other key's lookup as it was. */
  lemma {:induction false} LookupOther(ks: seq<U64>, vs: seq<U64>, k: U64, v: U64, k': U64)
    requires |ks| == |vs| && k' != k
    ensures Lookup(ks + [k], vs + [v], k') == Lookup(ks, vs, k')
  {
    LastEqAppend(ks, k, k', |ks|);
  }

  /** With distinct keys the lookup of a stored key finds its own value. */
  lemma {:induction false} LookupDistinct(ks: seq<U64>, vs: seq<U64>, i: nat)
    requires |ks| == |vs| && i < |ks|
    requires forall a, b :: 0 <= a < b < |ks| ==> ks[a] != ks[b]
    ensures Lookup(ks, vs, ks[i]) == Some(vs[i])
  {
    var j := LastEq(ks, ks[i], |ks|);
    if j != i {
      assert false;
    }
  }

  /** Appending an item does not change the answers below the old end. */
  lemma {:induction false} LastInAppend(xs: seq<U64>, y: U64, kind: HashKind, p: nat, b: nat, i: nat)
    requires p > 0 && i <= |xs|
    ensures LastIn(xs + [y], kind, p, b, i) == LastIn(xs, kind, p, b, i)
  {
    if i > 0 {
      assert (xs + [y])[i - 1] == xs[i - 1];
      LastInAppend(xs, y, kind, p, b, i - 1);
    }
  }

  lemma {:induction false} LastEqAppend(xs: seq<U64>, y: U64, x: U64, i: nat)
    requires i <= |xs|
    ensures LastEq(xs + [y], x, i) == LastEq(xs, x, i)
  {
    if i > 0 {
      assert (xs + [y])[i - 1] == xs[i - 1];
      LastEqAppend(xs, y, x, i - 1);
    }
  }

  /** One step of a chain walk for x below m: the chain's entry is the newest
      x when it holds x, any x further down lies below that entry, and an
      exhausted chain means there is no x at all. */
  lemma {:induction false} ChainStep(xs: seq<U64>, kind: HashKind, p: nat, x: U64, m: nat)
    requires p > 0 && m <= |xs| && |xs| < INVALID_MARK
    ensures var j := LastIn(xs, kind, p, Bucket(kind, x, p), m);
      (j == INVALID_MARK ==> LastEq(xs, x, m) == -1) &&
      (j != INVALID_MARK && xs[j] == x ==> LastEq(xs, x, m) == j) &&
      (j != INVALID_MARK && xs[j] != x ==> LastEq(xs, x, m) == LastEq(xs, x, j))
  {
    if m > 0 && Bucket(kind, xs[m - 1], p) != Bucket(kind, x, p) {
      ChainStep(xs, kind, p, x, m - 1);
    }
  }

  /** Head slots and links describe the chains of xs: each bucket's head is
      its newest entry and each entry links to the previous one of its
      bucket. */
  ghost predicate Chained(slots: array<U16>, next: array<U16>, xs: seq<U64>, kind: HashKind, p: nat)
    reads slots, next
  {
    0 < p && slots.Length == p && |xs| <= next.Length && |xs| < INVALID_MARK &&
    (forall b :: 0 <= b < p ==> slots[b] == LastIn(xs, kind, p, b, |xs|)) &&
    (forall i {:trigger next[i]} :: 0 <= i < |xs| ==> next[i] == LastIn(xs, kind, p, Bucket(kind, xs[i], p), i))
  }

  /** The chain half of `add`: `next[n] = exchange(slots[h(x)], n)`. */
  method Link(slots: array<U16>, next: array<U16>, ghost xs: seq<U64>, n: nat, x: U64, kind: HashKind, p: nat)
    requires n == |xs| && slots != next && Chained(slots, next, xs, kind, p)
    requires |xs| < next.Length && |xs| + 1 < INVALID_MARK
    modifies slots, next
    ensures Chained(slots, next, xs + [x], kind, p)
  {
    var nk := Bucket(kind, x, p);
    next[n] := slots[nk];
    slots[nk] := n;
    forall b | 0 <= b < p
      ensures slots[b] == LastIn(xs + [x], kind, p, b, n + 1)
    {
      LastInAppend(xs, x, kind, p, b, n);
    }
    forall i | 0 <= i < n + 1
      ensures next[i] == LastIn(xs + [x], kind, p, Bucket(kind, (xs + [x])[i], p), i)
    {
      LastInAppend(xs, x, kind, p, Bucket(kind, (xs + [x])[i], p), i);
    }
  }

  /** The chain walk of `_lookup_v`, `_lookup_k`, `_insert_kv` and
      `_insert_vk`: the newest entry holding x, or -1. */
  method Search(slots: array<U16>, next: array<U16>, data: array<U64>, ghost xs: seq<U64>,
                x: U64, kind: HashKind, p: nat) returns (j: int)
    requires Chained(slots, next, xs, kind, p)
    requires |xs| <= data.Length && forall i :: 0 <= i < |xs| ==> data[i] == xs[i]
    ensures j == LastEq(xs, x, |xs|)
  {
    var b := Bucket(kind, x, p);
    var q := slots[b];
    ghost var m: nat := |xs|;
    while q != INVALID_MARK
      invariant m <= |xs|
      invariant q == LastIn(xs, kind, p, b, m)
      invariant LastEq(xs, x, |xs|) == LastEq(xs, x, m)
      decreases m
    {
      ChainStep(xs, kind, p, x, m);
      if data[q] == x {
        return q;
      }
      m := q;
      q := next[q];
    }
    ChainStep(xs, kind, p, x, m);
    return -1;
  }

  class ChainMap {
    /** `MapMode::Bidirect`: a second chain set indexed by value. */
    const bidirect: bool
    const kind: HashKind
    const capacity: nat
    const prime: nat
    const slotsK: array<U16>
    const nextK: array<U16>
    const slotsV: array<U16>
    const nextV: array<U16>
    /** `s[i].k` and `s[i].v`. */
    const keys: array<U64>
    const vals: array<U64>
    /** `n`: the number of entries. */
    var n: nat
    /** The entries' keys and values, in insertion order. */
    ghost var ks: seq<U64>
    ghost var vs: seq<U64>

    ghost predicate Valid()
      reads this, slotsK, nextK, slotsV, nextV, keys, vals
    {
      slotsK != nextK && slotsK != slotsV && slotsK != nextV &&
      nextK != slotsV && nextK != nextV && slotsV != nextV && keys != vals &&
      keys.Length == capacity && vals.Length == capacity && nextK.Length == capacity &&
      capacity < INVALID_MARK &&
      n == |ks| == |vs| <= capacity &&
      (forall i :: 0 <= i < n ==> keys[i] == ks[i] && vals[i] == vs[i]) &&
      Chained(slotsK, nextK, ks, kind, prime) &&
      (bidirect ==> nextV.Length == capacity && Chained(slotsV, nextV, vs, kind, prime))
    }

    /** `MapImpl()` / `init()`: every slot and entry all-ones, no entries. */
    constructor (bidirect: bool, kind: HashKind, capacity: nat, prime: nat)
      requires 0 < prime && capacity < INVALID_MARK
      ensures Valid() && ks == [] && vs == []
      ensures this.bidirect == bidirect && this.kind == kind
      ensures this.capacity == capacity && this.prime == prime
      ensures fresh(slotsK) && fresh(nextK) && fresh(slotsV) && fresh(nextV) && fresh(keys) && fresh(vals)
    {
      this.bidirect := bidirect;
      this.kind := kind;
      this.capacity := capacity;
      this.prime := prime;
      slotsK := new U16[prime](_ => INVALID_MARK);
      nextK := new U16[capacity](_ => INVALID_MARK);
      slotsV := new U16[prime](_ => INVALID_MARK);
      nextV := new U16[capacity](_ => INVALID_MARK);
      keys := new U64[capacity](_ => U64_MAX);
      vals := new U64[capacity](_ => U64_MAX);
      n := 0;
      ks := [];
      vs := [];
    }

    /** `size()`: never more than the capacity. */
    function Size(): (s: nat)
      requires Valid()
      reads this, slotsK, nextK, slotsV, nextV, keys, vals
      ensures s == |ks| && s <= capacity
    {
      n
    }

    /** `add(k, v)`: append an entry and link it at the head of its chains.
        The source asserts there is room. */
    method Add(k: U64, v: U64)
      requires Valid() && n < capacity
      modifies this, slotsK, nextK, slotsV, nextV, keys, vals
      ensures Valid() && ks == old(ks) + [k] && vs == old(vs) + [v]
    {
      Link(slotsK, nextK, ks, n, k, kind, prime);
      if bidirect {
        Link(slotsV, nextV, vs, n, v, kind, prime);
      }
      keys[n] := k;
      vals[n] := v;
      n := n + 1;
      ks := ks + [k];
      vs := vs + [v];
    }

    /** `insert_kv(k, v)`: add the entry unless the key is already present;
        an existing entry is never overwritten. */
    method InsertKV(k: U64, v: U64) returns (inserted: bool)
      requires Valid() && (n < capacity || k in ks)
      modifies this, slotsK, nextK, slotsV, nextV, keys, vals
      ensures Valid()
      ensures inserted <==> k !in old(ks)
      ensures inserted ==> ks == old(ks) + [k] && vs == old(vs) + [v]
      ensures !inserted ==> ks == old(ks) && vs == old(vs)
    {
      var j := Search(slotsK, nextK, keys, ks, k, kind, prime);
      if j >= 0 {
        return false;
      }
      Add(k, v);
      return true;
    }

    /** `insert_vk(v, k)` of the bidirectional map: add the entry unless the
        value is already present. */
    method InsertVK(v: U64, k: U64) returns (inserted: bool)
      requires Valid() && bidirect && (n < capacity || v in vs)
      modifies this, slotsK, nextK, slotsV, nextV, keys, vals
      ensures Valid()
      ensures inserted <==> v !in old(vs)
      ensures inserted ==> ks == old(ks) + [k] && vs == old(vs) + [v]
      ensures !inserted ==> ks == old(ks) && vs == old(vs)
    {
      var j := Search(slotsV, nextV, vals, vs, v, kind, prime);
      if j >= 0 {
        return false;
      }
      Add(k, v);
      return true;
    }

    /** `lookup_v(k)`: the value of the newest entry for k, reported as
        found exactly when it is not the all-ones sentinel. */
    method LookupV(k: U64) returns (v: U64, found: bool)
      requires Valid()
      ensures v == Reported(Lookup(ks, vs, k))
      ensures found <==> v != INVALID_VALUE
    {
      var j := Search(slotsK, nextK, keys, ks, k, kind, prime);
      v := if j < 0 then INVALID_VALUE else vals[j];
      found := v != INVALID_VALUE;
    }

    /** `lookup_k(v)` of the bidirectional map: the key of the newest entry
        holding value v. */
    method LookupK(v: U64) returns (k: U64, found: bool)
      requires Valid() && bidirect
      ensures k == Reported(Lookup(vs, ks, v))
      ensures found <==> k != INVALID_VALUE
    {
      var j := Search(slotsV, nextV, vals, vs, v, kind, prime);
      k := if j < 0 then INVALID_VALUE else keys[j];
      found := k != INVALID_VALUE;
    }

    /** `lookup_v_ref(k)` of the normal map (and `map_lookup_ref`): the slot
        of the newest entry for k, found whatever value it holds. */
    method LookupVRef(k: U64) returns (slot: Option<nat>)
      requires Valid() && !bidirect
      ensures slot.None? <==> k !in ks
      ensures slot.Some? ==> slot.value < |ks| && ks[slot.value] == k && vals[slot.value] == vs[slot.value]
      ensures slot.Some? ==> slot.value == LastEq(ks, k, |ks|) && Lookup(ks, vs, k) == Some(vs[slot.value])
    {
      var j := Search(slotsK, nextK, keys, ks, k, kind, prime);
      if j < 0 {
        return None;
      }
      return Some(j);
    }

    /** A store through the reference `lookup_v_ref(k)` returned: the
        newest entry for k now holds v and every other key keeps its value. */
    method StoreV(k: U64, slot: nat, v: U64)
      requires Valid() && !bidirect && slot < |ks| && slot == LastEq(ks, k, |ks|)
      modifies this, vals
      ensures Valid() && ks == old(ks) && vs == old(vs)[slot := v]
      ensures Lookup(ks, vs, k) == Some(v)
      ensures forall k' :: k' != k ==> Lookup(ks, vs, k') == Lookup(old(ks), old(vs), k')
    {
      vals[slot] := v;
      vs := vs[slot := v];
    }

    /** `for_each(fn)`: the entries `fn` is applied to, in insertion order. */
    method ForEach() returns (visited: seq<(U64, U64)>)
      requires Valid()
      ensures |visited| == |ks|
      ensures forall i :: 0 <= i < |ks| ==> visited[i] == (ks[i], vs[i])
    {
      visited := [];
      var i := 0;
      while i < n
        invariant 0 <= i <= n && |visited| == i
        invariant forall t :: 0 <= t < i ==> visited[t] == (ks[t], vs[t])
      {
        visited := visited + [(keys[i], vals[i])];
        i := i + 1;
      }
    }
  }

  /** `init_map`: the device map, a normal map with the modulo hash, 23
      buckets and room for 64 entries. */
  method InitKernelMap() returns (m: ChainMap)
    ensures fresh(m) && m.Valid() && m.ks == [] && m.vs == []
    ensures !m.bidirect && m.kind == Modulo && m.prime == KERNEL_PRIME && m.capacity == KERNEL_CAPACITY
  {
    m := new ChainMap(false, Modulo, KERNEL_CAPACITY, KERNEL_PRIME);
  }
}
