/**
 * Per-operation contexts shared by every endpoint backend (`OpContext`,
 * `BulkContext`), and the completion rule the two DOCA backends (Comch and
 * RDMA) apply when a task finishes.
 */
module OpContexts {
  import opened Wrappers
  import opened MemoryRegions

  datatype Op = Send | Recv | Write | Read

  /** Bulk operations move data between a local and a registered remote
      buffer; the others carry RPC frames. */
  predicate IsBulk(op: Op) { op == Write || op == Read }

  /** How a DOCA task ended: success, the "bad state" error the SDK reports
      for a stopped context, or any other error with its (positive) code. */
  datatype TaskResult = Success | BadState | Failed(status: nat)

  /** A submitted piece of work: an operation over `[off, off + len)` of the
      context's buffers. */
  datatype Task = Task(op: Op, off: nat, len: nat)

  class OpContext {
    const op: Op
    /** `l_buf`. */
    const lBuf: MemoryRegion
    /** `r_buf` of a `BulkContext`; the empty region otherwise. */
    const rBuf: MemoryRegion
    const len: nat
    var txSize: nat
    /** The values passed to the result promise, in order. */
    var results: seq<int>

    /** `OpContext(op, l_buf)`: the length defaults to the buffer size. */
    constructor (op: Op, lBuf: MemoryRegion)
      ensures this.op == op && this.lBuf == lBuf && rBuf.Empty()
      ensures len == lBuf.len && txSize == 0 && results == []
    {
      this.op := op;
      this.lBuf := lBuf;
      rBuf := MemoryRegion(0, 0);
      len := lBuf.len;
      txSize := 0;
      results := [];
    }

    /** `OpContext(op, l_buf, len)`. */
    constructor WithLen(op: Op, lBuf: MemoryRegion, len: nat)
      ensures this.op == op && this.lBuf == lBuf && rBuf.Empty()
      ensures this.len == len && txSize == 0 && results == []
    {
      this.op := op;
      this.lBuf := lBuf;
      rBuf := MemoryRegion(0, 0);
      this.len := len;
      txSize := 0;
      results := [];
    }

    /** `BulkContext(op, l_buf, r_buf)`: the length is the remote size. */
    constructor Bulk(op: Op, lBuf: MemoryRegion, rBuf: MemoryRegion)
      ensures this.op == op && this.lBuf == lBuf && this.rBuf == rBuf
      ensures len == rBuf.len && txSize == 0 && results == []
    {
      this.op := op;
      this.lBuf := lBuf;
      this.rBuf := rBuf;
      len := rBuf.len;
      txSize := 0;
      results := [];
    }

    /** `op_res.set_value(v)`. */
    method Resolve(v: int)
      modifies this
      ensures results == old(results) + [v] && txSize == old(txSize)
    {
      results := results + [v];
    }
  }

  /** The value a DOCA completion hands to the promise, given the byte total
      after adding this task's bytes; `None` when the promise is left alone.
      Send and receive resolve at once; a bulk operation resolves only when
      the total reaches `len`, except that "bad state" always resolves to 0. */
  function DocaOutcome(op: Op, len: nat, txAfter: nat, r: TaskResult): (v: Option<int>)
    ensures r.BadState? ==> v == Some(0)
    ensures r.Success? && (!IsBulk(op) || txAfter == len) ==> v == Some(txAfter)
    ensures r.Failed? && (!IsBulk(op) || txAfter == len) ==> v == Some(-(r.status as int))
    ensures !r.BadState? && IsBulk(op) && txAfter != len ==> v == None
  {
    match r
    case BadState => Some(0)
    case Failed(status) => if !IsBulk(op) || txAfter == len then Some(-(status as int)) else None
    case Success => if !IsBulk(op) || txAfter == len then Some(txAfter) else None
  }

  /** The promise values an outcome adds: one value or none. */
  function Delivered(o: Option<int>): (vs: seq<int>)
    ensures |vs| <= 1 && (vs != [] <==> o.Some?)
  {
    match o
    case Some(v) => [v]
    case None => []
  }

  /** `task_cb` after the byte count is known: a completion that arrives when
      the endpoint is not running is dropped; otherwise the bytes are added
      and the outcome, if any, is delivered. */
  method DocaComplete(ctx: OpContext, running: bool, dataLen: nat, r: TaskResult)
    modifies ctx
    ensures !running ==> ctx.txSize == old(ctx.txSize) && ctx.results == old(ctx.results)
    ensures running ==> ctx.txSize == old(ctx.txSize) + dataLen
    ensures running ==>
      ctx.results == old(ctx.results) + Delivered(DocaOutcome(ctx.op, ctx.len, ctx.txSize, r))
  {
    if !running {
      return;
    }
    ctx.txSize := ctx.txSize + dataLen;
    var outcome := DocaOutcome(ctx.op, ctx.len, ctx.txSize, r);
    if outcome.Some? {
      ctx.Resolve(outcome.value);
    }
  }

  function Sum(xs: seq<nat>): (r: nat)
  {
    if xs == [] then 0 else xs[0] + Sum(xs[1..])
  }

  /** The promise values produced when bulk chunks of the given sizes all
      complete successfully, one after another, starting from total `tx`. */
  function SuccessRun(op: Op, len: nat, tx: nat, chunks: seq<nat>): (r: seq<int>)
    decreases |chunks|
  {
    if chunks == [] then []
    else
      var t := tx + chunks[0];
      Delivered(DocaOutcome(op, len, t, Success)) + SuccessRun(op, len, t, chunks[1..])
  }

  /** When non-empty chunks that add up to `len` all succeed, a bulk
      operation resolves exactly once, to `len`. */
  lemma {:induction false} AllChunksSucceed(op: Op, len: nat, tx: nat, chunks: seq<nat>)
    requires IsBulk(op) && chunks != []
    requires forall i :: 0 <= i < |chunks| ==> chunks[i] > 0
    requires tx + Sum(chunks) == len
    ensures SuccessRun(op, len, tx, chunks) == [len]
    decreases |chunks|
  {
    var t := tx + chunks[0];
    if |chunks| == 1 {
      assert chunks[1..] == [];
    } else {
      var rest := chunks[1..];
      assert rest[0] == chunks[1];
      assert Sum(rest) >= rest[0];
      assert t != len;
      AllChunksSucceed(op, len, t, rest);
    }
  }

  /** `register_remote_memory` on the one-region slot: an empty slot is
      filled, the same region again is accepted unchanged, and a different
      region is a fatal duplicate registration. */
  function RegisterRemote(slot: Option<MemoryRegion>, rBuf: RemoteBuffer): (r: Result<Option<MemoryRegion>>)
    ensures slot.None? ==> r == Ok(Some(rBuf.region))
    ensures slot.Some? && slot.value == rBuf.region ==> r == Ok(slot)
    ensures slot.Some? && slot.value != rBuf.region ==> r.Err?
  {
    match slot
    case None => Ok(Some(rBuf.region))
    case Some(reg) =>
      if rBuf.region.base == reg.base && rBuf.region.len == reg.len then Ok(slot)
      else Err("Duplicated registration")
  }
}
