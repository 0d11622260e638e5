/**
 * The `Transport` engine: it issues sequence numbers, keeps the table of
 * outstanding calls, holds one handler table for normal RPCs and one for
 * oneway RPCs, and dispatches received frames on the client side
 * (responses) and on the server side (requests).
 *
 * Futures are collapsed: each post-and-wait pair is one step whose signed
 * byte count is a parameter, and a received frame is a parameter as well.
 * A `die` is an `Err` result; the caller is expected to stop there.
 */
module Transports {
  import opened Bytes
  import opened Wrappers
  import opened MemoryRegions
  import opened RpcHeader
  import opened RpcConcept
  import OpContexts

  /** The three internal RPCs. */
  const BULK: RpcDef := RpcDef("Bulk", false)
  const REG_MEM: RpcDef := RpcDef("RegMem", true)
  const UNREG_MEM: RpcDef := RpcDef("UnregMem", true)

  datatype Backend = Tcp | DocaComch | DocaRdma

  /** A handler table entry: the default handler, a user handler (for a
      oneway RPC its response is ignored), or one of the two memory hooks
      `register_bulk_handler` installs. */
  datatype Handler =
    | DefaultH
    | User(respond: Payload -> Payload)
    | RegMemHook
    | UnregMemHook

  /** A frame on the wire: the 16-byte header and the serialized body. */
  datatype Frame = Frame(h: Header, body: Payload)

  /** One run of `serve_once`: the value of the stop predicate after the
      receive, the receive count, the frame received, the value of the stop
      predicate after the send, and the send count. */
  datatype ServeInput = ServeInput(stopAfterRecv: bool, nRecv: int, frame: Frame, stopAfterSend: bool, nSend: int)

  /** `current_seq++` on a `uint32_t`. */
  function NextSeq(s: U32): (r: U32)
    ensures s < U32_MOD - 1 ==> r == s + 1
    ensures s == U32_MOD - 1 ==> r == 0
  {
    (s + 1) % U32_MOD
  }

  /** The sequence numbers `k` successive calls or oneways take from `s`. */
  function Issued(s: U32, k: nat): (r: seq<U32>)
    ensures |r| == k
    decreases k
  {
    if k == 0 then [] else [s] + Issued(NextSeq(s), k - 1)
  }

  /** Until the counter wraps, issued sequence numbers strictly increase,
      each one more than the last. */
  lemma {:induction false} IssuedIncreasing(s: U32, k: nat)
    requires s + k <= U32_MOD
    ensures forall i :: 0 <= i < k ==> Issued(s, k)[i] == s + i
    ensures forall i, j :: 0 <= i < j < k ==> Issued(s, k)[i] < Issued(s, k)[j]
    decreases k
  {
    if k > 0 {
      if k > 1 {
        IssuedIncreasing(NextSeq(s), k - 1);
      }
      var r := Issued(s, k);
      assert r == [s] + Issued(NextSeq(s), k - 1);
      forall i | 0 <= i < k ensures r[i] == s + i {
        if i > 0 {
          assert r[i] == Issued(NextSeq(s), k - 1)[i - 1];
        }
      }
    }
  }

  /** The `||` fold over an RPC list in `dispatch_*`: the first RPC whose id
      is `id`. */
  function FindRpc(rpcs: seq<RpcDef>, id: U64, idOf: string -> U64): (r: Option<RpcDef>)
    ensures r.Some? ==> r.value in rpcs && idOf(r.value.name) == id
    ensures r.None? <==> forall x :: x in rpcs ==> idOf(x.name) != id
  {
    if rpcs == [] then None
    else if idOf(rpcs[0].name) == id then Some(rpcs[0])
    else FindRpc(rpcs[1..], id, idOf)
  }

  /** The table after `register_handler<R>()` for each RPC of the list, in
      order, each installing the default handler. */
  function Defaults(rpcs: seq<RpcDef>, idOf: string -> U64): (r: map<U64, Handler>)
    decreases |rpcs|
  {
    if rpcs == [] then map[]
    else Defaults(rpcs[..|rpcs| - 1], idOf)[idOf(rpcs[|rpcs| - 1].name) := DefaultH]
  }

  /** The default table has exactly the ids of the list, all mapped to the
      default handler. */
  lemma {:induction false} DefaultsShape(rpcs: seq<RpcDef>, idOf: string -> U64)
    ensures forall r :: r in rpcs ==> idOf(r.name) in Defaults(rpcs, idOf)
    ensures forall k :: k in Defaults(rpcs, idOf) ==>
      Defaults(rpcs, idOf)[k] == DefaultH && exists r :: r in rpcs && idOf(r.name) == k
    decreases |rpcs|
  {
    if rpcs != [] {
      var init := rpcs[..|rpcs| - 1];
      DefaultsShape(init, idOf);
      assert rpcs == init + [rpcs[|rpcs| - 1]];
      forall k | k in Defaults(rpcs, idOf)
        ensures exists r :: r in rpcs && idOf(r.name) == k
      {
        if k != idOf(rpcs[|rpcs| - 1].name) {
          var r :| r in init && idOf(r.name) == k;
          assert r in rpcs;
        }
      }
    }
  }

  /** The reply header `dispatch_normal_req` builds is a response (and not a
      oneway request) that echoes the request's seq and id. */
  lemma ReplyHeaderEchoes(seqNo: U32, id: U64)
    ensures var h := MarkResp(DEFAULT_HEADER).(seqNo := seqNo).(id := id);
      IsResp(h) && !IsOnewayReq(h) && h.seqNo == seqNo && h.id == id && h == Header(RESP_BIT, seqNo, id)
  {
    MarkRespEffect(DEFAULT_HEADER);
    DefaultIsPlainRequest();
  }

  /** A oneway request header is a oneway request and not a response. */
  lemma OnewayHeaderShape(seqNo: U32, id: U64)
    ensures var h := MarkOnewayReq(DEFAULT_HEADER).(seqNo := seqNo).(id := id);
      IsOnewayReq(h) && !IsResp(h) && h == Header(ONEWAY_REQ_BIT, seqNo, id)
  {
    MarkOnewayReqEffect(DEFAULT_HEADER);
    DefaultIsPlainRequest();
  }

  /** `bulk_write`/`bulk_read`: the count the endpoint reports, which must be
      positive. */
  function CheckCount(n: int): (r: Result<nat>)
    ensures r.Ok? <==> n > 0
    ensures r.Ok? ==> r.value == n
  {
    if n <= 0 then Err("Fail to transfer") else Ok(n)
  }

  /** The handler tables the transport constructor fills: one
      `register_handler<R>()` with the default handler per user RPC, in the
      table for its kind. */
  method DefaultTables(idOf: string -> U64, userRpcs: seq<RpcDef>)
    returns (normal: map<U64, Handler>, oneway: map<U64, Handler>)
    ensures normal == Defaults(NormalRpcs(userRpcs), idOf)
    ensures oneway == Defaults(OnewayRpcs(userRpcs), idOf)
  {
    normal, oneway := map[], map[];
    var i := 0;
    while i < |userRpcs|
      invariant 0 <= i <= |userRpcs|
      invariant normal == Defaults(NormalRpcs(userRpcs[..i]), idOf)
      invariant oneway == Defaults(OnewayRpcs(userRpcs[..i]), idOf)
    {
      var r := userRpcs[i];
      assert userRpcs[..i + 1] == userRpcs[..i] + [r];
      SplitAppend(userRpcs[..i], r);
      if IsOneway(r) {
        oneway := oneway[idOf(r.name) := DefaultH];
      } else {
        normal := normal[idOf(r.name) := DefaultH];
      }
      i := i + 1;
    }
    assert userRpcs[..i] == userRpcs;
  }

  /** The seq number a response completion names. */
  function SeqOf(e: (int, Frame)): (s: U32)
  {
    e.1.h.seqNo
  }

  /** The pending calls left and the responses delivered when the response
      completions `evs` are taken in order from the pending calls `out`. */
  function Deliver(out: map<U32, RpcDef>, evs: seq<(int, Frame)>): (r: (map<U32, RpcDef>, seq<(U32, Payload)>))
    ensures |r.1| == |evs|
    ensures forall i :: 0 <= i < |evs| ==> r.1[i] == (SeqOf(evs[i]), evs[i].1.body)
    ensures r.0.Keys <= out.Keys
  {
    if evs == [] then (out, [])
    else
      var e := evs[|evs| - 1];
      var p := Deliver(out, evs[..|evs| - 1]);
      (p.0 - {SeqOf(e)}, p.1 + [(SeqOf(e), e.1.body)])
  }

  /** Every completion in `evs` names a call still pending when it arrives. */
  ghost predicate AllPending(out: map<U32, RpcDef>, evs: seq<(int, Frame)>)
  {
    evs == [] ||
    (AllPending(out, evs[..|evs| - 1]) && SeqOf(evs[|evs| - 1]) in Deliver(out, evs[..|evs| - 1]).0)
  }

  /** Each pending call is fulfilled at most once: the completions accepted
      in order name distinct calls that were pending at the start, and
      exactly those calls are no longer pending. */
  lemma {:induction false} DeliverOnce(out: map<U32, RpcDef>, evs: seq<(int, Frame)>)
    requires AllPending(out, evs)
    ensures forall i :: 0 <= i < |evs| ==> SeqOf(evs[i]) in out
    ensures forall i, j :: 0 <= i < j < |evs| ==> SeqOf(evs[i]) != SeqOf(evs[j])
    ensures Deliver(out, evs).0.Keys == out.Keys - set i | 0 <= i < |evs| :: SeqOf(evs[i])
  {
    if evs != [] {
      var init := evs[..|evs| - 1];
      DeliverOnce(out, init);
      var last := SeqOf(evs[|evs| - 1]);
      assert forall i :: 0 <= i < |init| ==> evs[i] == init[i];
      assert (set i | 0 <= i < |evs| :: SeqOf(evs[i])) ==
             (set i | 0 <= i < |init| :: SeqOf(init[i])) + {last};
    }
  }

  class Transport {
    const backend: Backend
    /** `Rpc::id`: a digest of the name. */
    const idOf: string -> U64
    /** The user RPCs the transport is instantiated with. */
    const userRpcs: seq<RpcDef>
    /** Decoding the `RegMem` request body. */
    const decodeRemote: Payload -> Option<RemoteBuffer>

    var normalHandlers: map<U64, Handler>
    var onewayHandlers: map<U64, Handler>
    var currentSeq: U32
    /** `outstanding_rpcs`: the RPC each pending call is waiting on. */
    var outstanding: map<U32, RpcDef>
    /** Responses delivered to callers' promises, in order. */
    var fulfilled: seq<(U32, Payload)>
    /** Frames posted for sending, in order. */
    var sent: seq<Frame>
    /** Invocations of user oneway handlers, in order. */
    var onewayCalls: seq<(U64, Payload)>
    var activeWorkers: nat
    /** The endpoint's registered remote region (DOCA backends). */
    var remoteSlot: Option<MemoryRegion>
    /** Buffers taken from the send and receive pools and not given back. */
    var sendHeld: nat
    var recvHeld: nat
    /** Response receives posted by `call` and not yet completed. */
    var pendingResps: nat

    /** `NormalRpcs`: `Bulk` and the user RPCs with a response. */
    function NormalList(): (r: seq<RpcDef>)
    {
      NormalRpcs([BULK] + userRpcs)
    }

    /** `OnewayRpcs`: `RegMem`, `UnregMem` and the user RPCs without one. */
    function OnewayList(): (r: seq<RpcDef>)
    {
      OnewayRpcs([REG_MEM, UNREG_MEM] + userRpcs)
    }

    /** Every posted response receive holds a receive buffer. */
    predicate Valid()
      reads this
    {
      recvHeld >= pendingResps
    }

    /** The constructor installs the default handler of every user RPC in the
        table for its kind. */
    constructor (backend: Backend, idOf: string -> U64, userRpcs: seq<RpcDef>,
                 decodeRemote: Payload -> Option<RemoteBuffer>)
      ensures this.backend == backend && this.idOf == idOf && this.userRpcs == userRpcs
      ensures this.decodeRemote == decodeRemote
      ensures normalHandlers == Defaults(NormalRpcs(userRpcs), idOf)
      ensures onewayHandlers == Defaults(OnewayRpcs(userRpcs), idOf)
      ensures currentSeq == 1 && outstanding == map[] && activeWorkers == 0
      ensures fulfilled == [] && sent == [] && onewayCalls == [] && remoteSlot.None?
      ensures sendHeld == 0 && recvHeld == 0 && pendingResps == 0 && Valid()
    {
      this.backend := backend;
      this.idOf := idOf;
      this.userRpcs := userRpcs;
      this.decodeRemote := decodeRemote;
      currentSeq := 1;
      outstanding := map[];
      fulfilled, sent, onewayCalls := [], [], [];
      activeWorkers := 0;
      remoteSlot := None;
      sendHeld, recvHeld, pendingResps := 0, 0, 0;
      new;
      normalHandlers, onewayHandlers := DefaultTables(idOf, userRpcs);
    }

    /** `register_handler<R>(h)`: overwrite R's entry in the table for its
        kind; the other table is untouched. */
    method RegisterHandler(r: RpcDef, h: Handler)
      modifies this
      ensures IsOneway(r) ==> onewayHandlers == old(onewayHandlers)[idOf(r.name) := h] &&
                              normalHandlers == old(normalHandlers)
      ensures !IsOneway(r) ==> normalHandlers == old(normalHandlers)[idOf(r.name) := h] &&
                               onewayHandlers == old(onewayHandlers)
      ensures currentSeq == old(currentSeq) && outstanding == old(outstanding) && sent == old(sent)
      ensures sendHeld == old(sendHeld) && recvHeld == old(recvHeld) && pendingResps == old(pendingResps)
      ensures remoteSlot == old(remoteSlot) && fulfilled == old(fulfilled) && onewayCalls == old(onewayCalls)
    {
      if IsOneway(r) {
        onewayHandlers := onewayHandlers[idOf(r.name) := h];
      } else {
        normalHandlers := normalHandlers[idOf(r.name) := h];
      }
    }

    /** `register_bulk_handler`: the `Bulk` handler plus the two hooks that
        register and unregister remote memory at the endpoint. */
    method RegisterBulkHandler(h: Handler)
      modifies this
      ensures normalHandlers == old(normalHandlers)[idOf(BULK.name) := h]
      ensures onewayHandlers == old(onewayHandlers)[idOf(REG_MEM.name) := RegMemHook][idOf(UNREG_MEM.name) := UnregMemHook]
      ensures currentSeq == old(currentSeq) && outstanding == old(outstanding) && sent == old(sent)
      ensures sendHeld == old(sendHeld) && recvHeld == old(recvHeld) && pendingResps == old(pendingResps)
      ensures remoteSlot == old(remoteSlot) && fulfilled == old(fulfilled) && onewayCalls == old(onewayCalls)
    {
      RegisterHandler(BULK, h);
      RegisterHandler(REG_MEM, RegMemHook);
      RegisterHandler(UNREG_MEM, UnregMemHook);
    }

    /** `oneway<R>(req)`: send a oneway request under the next seq; the call
        table is not touched. A non-positive send count is fatal. */
    method Oneway(r: RpcDef, req: Payload, nSend: int) returns (res: Result<()>)
      requires IsOneway(r)
      modifies this
      ensures currentSeq == NextSeq(old(currentSeq)) && outstanding == old(outstanding)
      ensures sent == old(sent) + [Frame(Header(ONEWAY_REQ_BIT, old(currentSeq), idOf(r.name)), req)]
      ensures IsOnewayReq(sent[|sent| - 1].h) && !IsResp(sent[|sent| - 1].h)
      ensures res.Ok? <==> nSend > 0
      ensures res.Ok? ==> sendHeld == old(sendHeld)
      ensures normalHandlers == old(normalHandlers) && onewayHandlers == old(onewayHandlers)
      ensures recvHeld == old(recvHeld) && pendingResps == old(pendingResps) && remoteSlot == old(remoteSlot)
      ensures fulfilled == old(fulfilled) && onewayCalls == old(onewayCalls)
    {
      sendHeld := sendHeld + 1;
      var ph := new PayloadHeader();
      ph.AsOnewayReq();
      ph.WithSeq(currentSeq);
      ph.WithId(idOf(r.name));
      OnewayHeaderShape(currentSeq, idOf(r.name));
      currentSeq := NextSeq(currentSeq);
      sent := sent + [Frame(ph.Value(), req)];
      if nSend <= 0 {
        return Err("Fail to send payload");
      }
      sendHeld := sendHeld - 1;
      return Ok(());
    }

    /** `call<R>(req)`: post the receive for the response, send the request
        under the next seq and record exactly one outstanding entry for it.
        The seq must not be pending already; a non-positive send count is
        fatal. The result is the seq the response will be matched by. */
    method Call(r: RpcDef, req: Payload, nSend: int) returns (res: Result<U32>)
      requires !IsOneway(r) && Valid()
      requires currentSeq !in outstanding
      modifies this
      ensures Valid()
      ensures currentSeq == NextSeq(old(currentSeq))
      ensures outstanding == old(outstanding)[old(currentSeq) := r]
      ensures sent == old(sent) + [Frame(Header(0, old(currentSeq), idOf(r.name)), req)]
      ensures pendingResps == old(pendingResps) + 1 && recvHeld == old(recvHeld) + 1
      ensures res.Ok? <==> nSend > 0
      ensures res.Ok? ==> res.value == old(currentSeq) && sendHeld == old(sendHeld)
      ensures normalHandlers == old(normalHandlers) && onewayHandlers == old(onewayHandlers)
      ensures remoteSlot == old(remoteSlot) && fulfilled == old(fulfilled) && onewayCalls == old(onewayCalls)
    {
      // post_recv_resp: take a receive buffer and post the receive
      recvHeld := recvHeld + 1;
      pendingResps := pendingResps + 1;
      sendHeld := sendHeld + 1;
      var seqNo := currentSeq;
      var ph := new PayloadHeader();
      ph.WithSeq(seqNo);
      ph.WithId(idOf(r.name));
      currentSeq := NextSeq(currentSeq);
      sent := sent + [Frame(ph.Value(), req)];
      outstanding := outstanding[seqNo := r];
      if nSend <= 0 {
        return Err("Fail to send payload");
      }
      sendHeld := sendHeld - 1;
      return Ok(seqNo);
    }

    /** The fiber `post_recv_resp` starts, run when the receive completes: a
        failed receive, a frame that is not a response, an id no normal RPC
        has, or a seq with no pending call is fatal. Otherwise the pending
        call for the seq is fulfilled once and removed. */
    method OnResponse(nRecv: int, f: Frame) returns (res: Result<()>)
      requires pendingResps > 0 && Valid()
      modifies this
      ensures Valid()
      ensures res.Ok? <==> nRecv > 0 && IsResp(f.h) && FindRpc(NormalList(), f.h.id, idOf).Some? &&
                           f.h.seqNo in old(outstanding)
      ensures res.Ok? ==> outstanding == old(outstanding) - {f.h.seqNo} &&
                          fulfilled == old(fulfilled) + [(f.h.seqNo, f.body)] &&
                          pendingResps == old(pendingResps) - 1 && recvHeld == old(recvHeld) - 1
      ensures res.Err? ==> outstanding == old(outstanding) && fulfilled == old(fulfilled)
      ensures currentSeq == old(currentSeq) && sent == old(sent) && sendHeld == old(sendHeld)
      ensures activeWorkers == old(activeWorkers)
      ensures normalHandlers == old(normalHandlers) && onewayHandlers == old(onewayHandlers)
      ensures remoteSlot == old(remoteSlot) && onewayCalls == old(onewayCalls)
    {
      if nRecv <= 0 {
        return Err("Fail to recv payload");
      }
      if !IsResp(f.h) {
        return Err("Payload is not response");
      }
      if FindRpc(NormalList(), f.h.id, idOf).None? {
        return Err("Mismatch rpc id");
      }
      if f.h.seqNo !in outstanding {
        return Err("No outstanding call for seq");
      }
      fulfilled := fulfilled + [(f.h.seqNo, f.body)];
      outstanding := outstanding - {f.h.seqNo};
      recvHeld := recvHeld - 1;
      pendingResps := pendingResps - 1;
      return Ok(());
    }

    /** What running the oneway handler for `id` did to the handler log and
        the remote slot, given whether it succeeded. */
    twostate predicate OnewayRan(id: U64, body: Payload, ok: bool)
      reads this
    {
      (id !in old(onewayHandlers) ==> !ok) &&
      (id in old(onewayHandlers) && old(onewayHandlers)[id].DefaultH? ==>
        ok && onewayCalls == old(onewayCalls) && remoteSlot == old(remoteSlot)) &&
      (id in old(onewayHandlers) && old(onewayHandlers)[id].User? ==>
        ok && onewayCalls == old(onewayCalls) + [(id, body)] && remoteSlot == old(remoteSlot)) &&
      (id in old(onewayHandlers) && old(onewayHandlers)[id].UnregMemHook? ==>
        ok && onewayCalls == old(onewayCalls) &&
        remoteSlot == if backend == Tcp then old(remoteSlot) else None) &&
      (id in old(onewayHandlers) && old(onewayHandlers)[id].RegMemHook? ==>
        onewayCalls == old(onewayCalls) &&
        (decodeRemote(body).None? ==> !ok) &&
        (decodeRemote(body).Some? && backend == Tcp ==> ok && remoteSlot == old(remoteSlot)) &&
        (decodeRemote(body).Some? && backend != Tcp ==>
          var reg := OpContexts.RegisterRemote(old(remoteSlot), decodeRemote(body).value);
          (reg.Ok? ==> ok && remoteSlot == reg.value) &&
          (reg.Err? ==> !ok && remoteSlot == old(remoteSlot))))
    }

    /** `dispatch_oneway_req` for the RPC the id names: run its handler. */
    method RunOneway(id: U64, body: Payload) returns (res: Result<()>)
      modifies this
      ensures OnewayRan(id, body, res.Ok?)
      ensures activeWorkers == old(activeWorkers)
      ensures res.Err? ==> remoteSlot == old(remoteSlot)
      ensures normalHandlers == old(normalHandlers) && onewayHandlers == old(onewayHandlers)
      ensures currentSeq == old(currentSeq) && outstanding == old(outstanding) && sent == old(sent)
      ensures sendHeld == old(sendHeld) && recvHeld == old(recvHeld) && pendingResps == old(pendingResps)
      ensures fulfilled == old(fulfilled)
    {
      if id !in onewayHandlers {
        return Err("No handler");
      }
      match onewayHandlers[id]
      case DefaultH =>
        return Ok(());
      case User(_) =>
        onewayCalls := onewayCalls + [(id, body)];
        return Ok(());
      case UnregMemHook =>
        if backend != Tcp {
          remoteSlot := None;
        }
        return Ok(());
      case RegMemHook =>
        var rb := decodeRemote(body);
        if rb.None? {
          return Err("Fail to decode request");
        }
        if backend == Tcp {
          return Ok(());
        }
        var reg := OpContexts.RegisterRemote(remoteSlot, rb.value);
        if reg.Err? {
          return Err(reg.reason);
        }
        remoteSlot := reg.value;
        return Ok(());
    }

    /** The response a normal RPC's handler gives, or a fatal error when the
        table has no callable handler for it. */
    function NormalResponse(r: RpcDef, id: U64, req: Payload): (resp: Result<Payload>)
      reads this
      ensures resp.Ok? <==> id in normalHandlers &&
                            ((normalHandlers[id].DefaultH? && !IsOneway(r)) || normalHandlers[id].User?)
      ensures resp.Ok? && normalHandlers[id].DefaultH? ==> Some(resp.value) == DefaultHandler(r, req)
    {
      if id !in normalHandlers then Err("No handler")
      else match normalHandlers[id]
        case DefaultH => if IsOneway(r) then Err("No response") else Ok(DefaultValue)
        case User(f) => Ok(f(req))
        case _ => Err("Handler of another type")
    }

    /** `serve_once`: receive one frame and serve it. */
    method ServeOnce(inp: ServeInput) returns (res: Result<bool>)
      requires forall r :: r in NormalList() ==> !IsOneway(r)
      modifies this
      // the stop predicate fired after the receive: no release
      ensures inp.stopAfterRecv ==> res == Ok(false) && recvHeld == old(recvHeld) + 1 && sent == old(sent)
      // a failed receive gives the buffer back and ends the worker
      ensures !inp.stopAfterRecv && inp.nRecv <= 0 ==> res == Ok(false) && recvHeld == old(recvHeld) && sent == old(sent)
      // a response arriving at the server is fatal
      ensures !inp.stopAfterRecv && inp.nRecv > 0 && IsResp(inp.frame.h) ==> res.Err?
      // a oneway request goes to the oneway table and is never answered
      ensures !inp.stopAfterRecv && inp.nRecv > 0 && !IsResp(inp.frame.h) && IsOnewayReq(inp.frame.h) ==>
        sent == old(sent) && sendHeld == old(sendHeld) &&
        (FindRpc(OnewayList(), inp.frame.h.id, idOf).None? ==> res.Err?) &&
        (FindRpc(OnewayList(), inp.frame.h.id, idOf).Some? ==> OnewayRan(inp.frame.h.id, inp.frame.body, res.Ok?)) &&
        (res.Ok? ==> res.value && recvHeld == old(recvHeld))
      // only a oneway request touches the handler log and the remote slot
      ensures !(!inp.stopAfterRecv && inp.nRecv > 0 && !IsResp(inp.frame.h) && IsOnewayReq(inp.frame.h)) ==>
        onewayCalls == old(onewayCalls) && remoteSlot == old(remoteSlot)
      ensures activeWorkers == old(activeWorkers)
      // a normal request is answered with a response header echoing its seq and id
      ensures !inp.stopAfterRecv && inp.nRecv > 0 && !IsResp(inp.frame.h) && !IsOnewayReq(inp.frame.h) ==>
        (FindRpc(NormalList(), inp.frame.h.id, idOf).None? ==> res.Err?) &&
        (res.Ok? ==>
          var r := FindRpc(NormalList(), inp.frame.h.id, idOf).value;
          var resp := old(NormalResponse(r, inp.frame.h.id, inp.frame.body));
          resp.Ok? &&
          sent == old(sent) + [Frame(Header(RESP_BIT, inp.frame.h.seqNo, inp.frame.h.id), resp.value)] &&
          recvHeld == old(recvHeld) &&
          res.value == (!inp.stopAfterSend && inp.nSend > 0) &&
          sendHeld == old(sendHeld) + (if inp.stopAfterSend then 1 else 0))
      ensures currentSeq == old(currentSeq) && outstanding == old(outstanding) && fulfilled == old(fulfilled)
      ensures normalHandlers == old(normalHandlers) && onewayHandlers == old(onewayHandlers)
      ensures pendingResps == old(pendingResps)
    {
      // the receive buffer is held from here on; it is counted below on the
      // paths that keep it and given back on the others
      if inp.stopAfterRecv {
        recvHeld := recvHeld + 1;
        return Ok(false);
      }
      if inp.nRecv <= 0 {
        return Ok(false);
      }
      var h := inp.frame.h;
      if IsResp(h) {
        recvHeld := recvHeld + 1;
        return Err("Payload is not request");
      }
      if IsOnewayReq(h) {
        if FindRpc(OnewayList(), h.id, idOf).None? {
          recvHeld := recvHeld + 1;
          return Err("Mismatch rpc id");
        }
        var ok := RunOneway(h.id, inp.frame.body);
        if ok.Err? {
          recvHeld := recvHeld + 1;
          return Err(ok.reason);
        }
        return Ok(true);
      }
      res := ServeNormal(h, inp.frame.body, inp.stopAfterSend, inp.nSend);
    }

    /** The normal-request half of `serve_once`: the frame, holding a
        receive buffer, is answered with a response header echoing its seq
        and id. */
    method ServeNormal(h: Header, body: Payload, stopAfterSend: bool, nSend: int) returns (res: Result<bool>)
      requires forall r :: r in NormalList() ==> !IsOneway(r)
      modifies this
      ensures FindRpc(NormalList(), h.id, idOf).None? ==> res.Err?
      ensures res.Ok? ==>
        var r := FindRpc(NormalList(), h.id, idOf).value;
        var resp := old(NormalResponse(r, h.id, body));
        resp.Ok? &&
        sent == old(sent) + [Frame(Header(RESP_BIT, h.seqNo, h.id), resp.value)] &&
        recvHeld == old(recvHeld) &&
        res.value == (!stopAfterSend && nSend > 0) &&
        sendHeld == old(sendHeld) + (if stopAfterSend then 1 else 0)
      ensures currentSeq == old(currentSeq) && outstanding == old(outstanding) && fulfilled == old(fulfilled)
      ensures normalHandlers == old(normalHandlers) && onewayHandlers == old(onewayHandlers)
      ensures pendingResps == old(pendingResps) && activeWorkers == old(activeWorkers)
      ensures onewayCalls == old(onewayCalls) && remoteSlot == old(remoteSlot)
    {
      recvHeld := recvHeld + 1;
      sendHeld := sendHeld + 1;
      var found := FindRpc(NormalList(), h.id, idOf);
      if found.None? {
        return Err("Mismatch rpc id");
      }
      var resp := NormalResponse(found.value, h.id, body);
      if resp.Err? {
        return Err(resp.reason);
      }
      var ph := new PayloadHeader();
      ph.AsResp();
      ph.WithSeq(h.seqNo);
      ph.WithId(h.id);
      ReplyHeaderEchoes(h.seqNo, h.id);
      sent := sent + [Frame(ph.Value(), resp.value)];
      recvHeld := recvHeld - 1;
      if stopAfterSend {
        return Ok(false);
      }
      if nSend <= 0 {
        sendHeld := sendHeld - 1;
        return Ok(false);
      }
      sendHeld := sendHeld - 1;
      return Ok(true);
    }

    /** The exit condition of `progress_until`. */
    predicate Drained(pred: bool)
      reads this
    {
      outstanding == map[] && activeWorkers == 0 && pred
    }

    /** `progress_until`: deliver response completions until no call is
        outstanding, no worker is active and the predicate holds. The
        completions `progress` yields are the parameter; the result is how
        many were consumed. A fatal response stops it. */
    method ProgressUntil(events: seq<(int, Frame)>, pred: bool) returns (res: Result<nat>)
      requires Valid()
      modifies this
      ensures Valid()
      ensures res.Ok? ==> (res.value <= |events| &&
                           (Drained(pred) || res.value == |events| || pendingResps == 0))
      // the consumed completions were each accepted, in order
      ensures res.Ok? ==> AllPending(old(outstanding), events[..res.value]) &&
                          outstanding == Deliver(old(outstanding), events[..res.value]).0 &&
                          fulfilled == old(fulfilled) + Deliver(old(outstanding), events[..res.value]).1
      ensures old(Drained(pred)) ==> res == Ok(0) && outstanding == old(outstanding)
      ensures currentSeq == old(currentSeq) && sent == old(sent) && activeWorkers == old(activeWorkers)
      ensures normalHandlers == old(normalHandlers) && onewayHandlers == old(onewayHandlers)
      ensures remoteSlot == old(remoteSlot) && onewayCalls == old(onewayCalls)
    {
      var i := 0;
      while !Drained(pred) && i < |events| && pendingResps > 0
        invariant 0 <= i <= |events| && Valid()
        invariant currentSeq == old(currentSeq) && sent == old(sent)
        invariant normalHandlers == old(normalHandlers) && onewayHandlers == old(onewayHandlers)
        invariant activeWorkers == old(activeWorkers)
        invariant remoteSlot == old(remoteSlot) && onewayCalls == old(onewayCalls)
        invariant AllPending(old(outstanding), events[..i])
        invariant outstanding == Deliver(old(outstanding), events[..i]).0
        invariant fulfilled == old(fulfilled) + Deliver(old(outstanding), events[..i]).1
        invariant old(Drained(pred)) ==> i == 0
      {
        var r := OnResponse(events[i].0, events[i].1);
        if r.Err? {
          return Err(r.reason);
        }
        assert events[..i + 1][..i] == events[..i];
        i := i + 1;
      }
      return Ok(i);
    }
  }
}
