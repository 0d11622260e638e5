/**
 * RPC declarations and the compile-time split of an RPC list into oneway
 * RPCs (void response) and normal RPCs (a response is sent back).
 */
module RpcConcept {
  import opened Bytes
  import opened Wrappers

  /** An RPC declaration: its name and whether its response type is void. */
  datatype RpcDef = RpcDef(name: string, voidResponse: bool)

  /** A request or response value: a value-initialised one, or a serialized one. */
  datatype Payload = DefaultValue | Encoded(data: seq<Byte>)

  /** `is_oneway_v`: an RPC is oneway exactly when its response type is void. */
  predicate IsOneway(r: RpcDef) { r.voidResponse }

  /** `RpcBase::id`: a digest of the name; the digest itself is the parameter `idOf`. */
  function Id(r: RpcDef, idOf: string -> U64): (v: U64) { idOf(r.name) }

  /** `RpcBase::operator()`, the handler installed before a user registers one:
      a normal RPC answers with a value-initialised response, a oneway RPC
      answers nothing. */
  function DefaultHandler(r: RpcDef, req: Payload): (resp: Option<Payload>)
    ensures resp.None? <==> IsOneway(r)
    ensures resp.Some? ==> resp.value == DefaultValue
  {
    if IsOneway(r) then None else Some(DefaultValue)
  }

  /** `detail::Filter`: keep the head iff the predicate holds, then filter the tail. */
  function Filter(rpcs: seq<RpcDef>, keep: RpcDef -> bool): (r: seq<RpcDef>)
  {
    if rpcs == [] then []
    else (if keep(rpcs[0]) then [rpcs[0]] else []) + Filter(rpcs[1..], keep)
  }

  function OnewayRpcs(rpcs: seq<RpcDef>): (r: seq<RpcDef>) { Filter(rpcs, IsOneway) }
  function NormalRpcs(rpcs: seq<RpcDef>): (r: seq<RpcDef>) { Filter(rpcs, x => !IsOneway(x)) }

  /** Filtering keeps exactly the elements that satisfy the predicate. */
  lemma {:induction false} FilterMembers(rpcs: seq<RpcDef>, keep: RpcDef -> bool)
    ensures |Filter(rpcs, keep)| <= |rpcs|
    ensures forall x :: x in Filter(rpcs, keep) <==> x in rpcs && keep(x)
  {
    if rpcs != [] {
      FilterMembers(rpcs[1..], keep);
      assert forall x :: x in rpcs <==> x == rpcs[0] || x in rpcs[1..];
    }
  }

  /** Filtering distributes over concatenation, so the kept elements stay in
      their original order. */
  lemma {:induction false} FilterConcat(a: seq<RpcDef>, b: seq<RpcDef>, keep: RpcDef -> bool)
    ensures Filter(a + b, keep) == Filter(a, keep) + Filter(b, keep)
  {
    if a != [] {
      FilterConcat(a[1..], b, keep);
      assert (a + b)[1..] == a[1..] + b;
    } else {
      assert a + b == b;
    }
  }

  /** Appending an RPC to the list appends it to exactly one of the two
      kinds and leaves the other unchanged. */
  lemma SplitAppend(rpcs: seq<RpcDef>, r: RpcDef)
    ensures IsOneway(r) ==> OnewayRpcs(rpcs + [r]) == OnewayRpcs(rpcs) + [r] &&
                            NormalRpcs(rpcs + [r]) == NormalRpcs(rpcs)
    ensures !IsOneway(r) ==> NormalRpcs(rpcs + [r]) == NormalRpcs(rpcs) + [r] &&
                             OnewayRpcs(rpcs + [r]) == OnewayRpcs(rpcs)
  {
    FilterConcat(rpcs, [r], IsOneway);
    FilterConcat(rpcs, [r], x => !IsOneway(x));
    assert [r][1..] == [];
  }

  /** A list whose every element satisfies the predicate is kept whole. */
  lemma {:induction false} FilterAll(rpcs: seq<RpcDef>, keep: RpcDef -> bool)
    requires forall i :: 0 <= i < |rpcs| ==> keep(rpcs[i])
    ensures Filter(rpcs, keep) == rpcs
  {
    if rpcs != [] {
      FilterAll(rpcs[1..], keep);
    }
  }

  /** The oneway and normal lists together hold every RPC exactly as often as
      the original list does. */
  lemma {:induction false} SplitIsPartition(rpcs: seq<RpcDef>)
    ensures multiset(OnewayRpcs(rpcs)) + multiset(NormalRpcs(rpcs)) == multiset(rpcs)
    ensures forall r :: r in OnewayRpcs(rpcs) <==> r in rpcs && IsOneway(r)
    ensures forall r :: r in NormalRpcs(rpcs) <==> r in rpcs && !IsOneway(r)
  {
    FilterMembers(rpcs, IsOneway);
    FilterMembers(rpcs, r => !IsOneway(r));
    if rpcs != [] {
      SplitIsPartition(rpcs[1..]);
      assert rpcs == [rpcs[0]] + rpcs[1..];
    }
  }
}
