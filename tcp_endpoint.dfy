/**
 * The TCP endpoint: operations are io_uring submissions over two sockets.
 * Every operation posts the whole local buffer; a short bulk write is
 * resubmitted for the bytes still unwritten.
 */
module TcpEndpoints {
  import opened Wrappers
  import opened EndpointLifecycle
  import opened OpContexts

  /** A submission queue entry: `len` bytes at offset `off` of the buffer. */
  datatype Sqe = Sqe(ctx: OpContext, op: Op, off: nat, len: nat)
  /** A completion queue entry: the context and the kernel's result. */
  datatype Cqe = Cqe(ctx: OpContext, res: int)

  /** The range `post<op>` submits: the whole buffer, except that a write
      continues from the bytes already written. */
  function PostRange(op: Op, size: nat, tx: nat): (r: (nat, nat))
    requires op == Write ==> tx <= size
    ensures r.0 + r.1 == size
    ensures op == Write ==> r.0 == tx
    ensures op != Write ==> r.0 == 0
  {
    if op == Write then (tx, size - tx) else (0, size)
  }

  /** What `progress` does with one completion. */
  datatype Action = Resolved(v: int) | Resubmit(off: nat, len: nat)

  /** The byte total afterwards and the action for a completion with result
      `res`, for an operation over a buffer of `size` bytes. */
  function Step(op: Op, size: nat, tx: nat, res: int): (r: (nat, Action))
    ensures res <= 0 ==> r == (tx, Resolved(res))
    ensures res > 0 ==> r.0 == tx + res
    ensures res > 0 && op != Write ==> r.1 == Resolved(tx + res)
    ensures res > 0 && op == Write ==>
      r.1 == if tx + res < size then Resubmit(tx + res, size - (tx + res)) else Resolved(tx + res)
  {
    if res <= 0 then (tx, Resolved(res))
    else
      var t := tx + res;
      if op == Write && t < size then (t, Resubmit(t, size - t)) else (t, Resolved(t))
  }

  /** The actions for a run of positive write completions. */
  function WriteRun(size: nat, tx: nat, ress: seq<nat>): (acts: seq<Action>)
    ensures |acts| == |ress|
    decreases |ress|
  {
    if ress == [] then []
    else
      var s := Step(Write, size, tx, ress[0]);
      [s.1] + WriteRun(size, s.0, ress[1..])
  }

  /** The action resubmits the buffer from `written` to its end. */
  predicate ResubmitsRest(a: Action, size: nat, written: nat)
  {
    a.Resubmit? && a.off == written && a.off + a.len == size
  }

  /** A write completed in positive pieces that add up to the rest of the
      buffer is resubmitted after every piece but the last, each time from
      the bytes written so far, and resolves once, to the buffer size. */
  lemma {:induction false} PartialWritesComplete(size: nat, tx: nat, ress: seq<nat>)
    requires ress != [] && forall i :: 0 <= i < |ress| ==> ress[i] > 0
    requires tx + Sum(ress) == size
    ensures WriteRun(size, tx, ress)[|ress| - 1] == Resolved(size)
    ensures forall i :: 0 <= i < |ress| - 1 ==>
      ResubmitsRest(WriteRun(size, tx, ress)[i], size, tx + Sum(ress[..i + 1]))
    decreases |ress|
  {
    var t := tx + ress[0];
    var acts := WriteRun(size, tx, ress);
    assert ress[..1] == [ress[0]];
    assert Sum([ress[0]]) == ress[0];
    if |ress| > 1 {
      var rest := ress[1..];
      assert Sum(rest) >= rest[0] > 0;
      PartialWritesComplete(size, t, rest);
      forall i | 1 <= i < |ress| - 1
        ensures ResubmitsRest(acts[i], size, tx + Sum(ress[..i + 1]))
      {
        assert ress[..i + 1] == [ress[0]] + rest[..i];
        SumConcat([ress[0]], rest[..i]);
      }
    }
  }

  lemma {:induction false} SumConcat(a: seq<nat>, b: seq<nat>)
    ensures Sum(a + b) == Sum(a) + Sum(b)
    decreases |a|
  {
    if a == [] {
      assert a + b == b;
    } else {
      assert (a + b)[1..] == a[1..] + b;
      SumConcat(a[1..], b);
    }
  }

  class TcpEndpoint {
    const base: EndpointBase
    /** Submitted entries, in order. */
    var sq: seq<Sqe>

    /** The constructor sets up the ring and moves the endpoint to Ready. */
    constructor ()
      ensures fresh(base) && base.IsReady() && sq == []
    {
      base := new EndpointBase();
      sq := [];
      new;
      base.Prepare();
    }

    /** `post<op>`: submit the range `PostRange` gives. */
    method Post(ctx: OpContext)
      requires ctx.op == Write ==> ctx.txSize <= ctx.lBuf.len
      modifies this
      ensures var r := PostRange(ctx.op, ctx.lBuf.len, ctx.txSize);
        sq == old(sq) + [Sqe(ctx, ctx.op, r.0, r.1)]
    {
      var r := PostRange(ctx.op, ctx.lBuf.len, ctx.txSize);
      sq := sq + [Sqe(ctx, ctx.op, r.0, r.1)];
    }

    /** `progress`: false iff no completion is available; otherwise apply
        `Step` to the completion's context. */
    method Progress(cqe: Option<Cqe>) returns (progressed: bool)
      modifies this, if cqe.Some? then {cqe.value.ctx} else {}
      ensures progressed <==> cqe.Some?
      ensures cqe.None? ==> sq == old(sq)
      ensures cqe.Some? ==> (
        var ctx := cqe.value.ctx;
        var s := Step(ctx.op, ctx.lBuf.len, old(ctx.txSize), cqe.value.res);
        ctx.txSize == s.0 &&
        match s.1
        case Resolved(v) => ctx.results == old(ctx.results) + [v] && sq == old(sq)
        case Resubmit(off, len) =>
          ctx.results == old(ctx.results) && sq == old(sq) + [Sqe(ctx, Write, off, len)])
    {
      if cqe.None? {
        return false;
      }
      var ctx := cqe.value.ctx;
      var res := cqe.value.res;
      if res > 0 {
        ctx.txSize := ctx.txSize + res;
      } else {
        ctx.Resolve(res);
        return true;
      }
      if ctx.op == Write && ctx.txSize < ctx.lBuf.len {
        Post(ctx);
        return true;
      }
      ctx.Resolve(ctx.txSize);
      return true;
    }

    /** `stop`: close both sockets and move to Stopping. */
    method Stop()
      requires base.IsRunning()
      modifies base
      ensures base.IsStopping()
    {
      base.Stop();
    }
  }
}
