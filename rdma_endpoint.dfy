/**
 * The DOCA RDMA endpoint: a control path for RPC frames and an optional data
 * path for bulk reads and writes, each bulk operation one task.
 */
module RdmaEndpoints {
  import opened Wrappers
  import opened MemoryRegions
  import opened EndpointLifecycle
  import opened OpContexts

  class RdmaEndpoint {
    const base: EndpointBase
    /** Whether a data path was configured at all. */
    const enableDataPath: bool
    /** Whether the control and data path contexts are in the RUNNING state. */
    var ctrlPathRunning: bool
    var dataPathStateRunning: bool
    var rMmap: Option<MemoryRegion>
    var submitted: seq<Task>

    constructor (enableDataPath: bool)
      ensures fresh(base) && base.IsIdle() && this.enableDataPath == enableDataPath
      ensures !ctrlPathRunning && !dataPathStateRunning && rMmap.None? && submitted == []
    {
      base := new EndpointBase();
      this.enableDataPath := enableDataPath;
      ctrlPathRunning, dataPathStateRunning := false, false;
      rMmap := None;
      submitted := [];
    }

    /** `data_path_running`: a disabled data path never counts as running. */
    predicate DataPathRunning()
      reads this
      ensures DataPathRunning() ==> enableDataPath
    {
      enableDataPath && dataPathStateRunning
    }

    /** `post<Recv>`/`post<Send>` on the control path: resolve to 0 when it
        is not running; a receive uses the whole buffer, a send `ctx.len`. */
    method PostCtrl(ctx: OpContext)
      requires ctx.op == Send || ctx.op == Recv
      modifies this, ctx
      ensures !old(ctrlPathRunning) ==> (ctx.results == old(ctx.results) + [0] && submitted == old(submitted))
      ensures old(ctrlPathRunning) ==> (ctx.results == old(ctx.results) &&
        submitted == old(submitted) + [Task(ctx.op, 0, if ctx.op == Recv then ctx.lBuf.len else ctx.len)])
      ensures ctx.txSize == old(ctx.txSize) && rMmap == old(rMmap)
      ensures ctrlPathRunning == old(ctrlPathRunning) && dataPathStateRunning == old(dataPathStateRunning)
    {
      if !ctrlPathRunning {
        ctx.Resolve(0);
        return;
      }
      if ctx.op == Recv {
        submitted := submitted + [Task(Recv, 0, ctx.lBuf.len)];
      } else {
        submitted := submitted + [Task(Send, 0, ctx.len)];
      }
    }

    /** `post_write`/`post_read`: the data path must be enabled. When it is
        not running, resolve to 0; otherwise the remote buffer must lie in
        the registered region, and one task moves all `ctx.len` bytes. */
    method PostBulk(ctx: OpContext)
      requires IsBulk(ctx.op) && enableDataPath
      requires DataPathRunning() ==> rMmap.Some? && rMmap.value.Contain(ctx.rBuf) && ctx.lBuf.len >= ctx.len
      modifies this, ctx
      ensures !old(DataPathRunning()) ==> (ctx.results == old(ctx.results) + [0] && submitted == old(submitted))
      ensures old(DataPathRunning()) ==> (ctx.results == old(ctx.results) &&
        submitted == old(submitted) + [Task(ctx.op, 0, ctx.len)])
      ensures ctx.txSize == old(ctx.txSize) && rMmap == old(rMmap)
      ensures ctrlPathRunning == old(ctrlPathRunning) && dataPathStateRunning == old(dataPathStateRunning)
    {
      if !DataPathRunning() {
        ctx.Resolve(0);
        return;
      }
      submitted := submitted + [Task(ctx.op, 0, ctx.len)];
    }

    /** `task_cb`: the completion rule, gated on the endpoint's status. */
    method TaskCb(ctx: OpContext, dataLen: nat, r: TaskResult)
      modifies ctx
      ensures !base.IsRunning() ==> (ctx.txSize == old(ctx.txSize) && ctx.results == old(ctx.results))
      ensures base.IsRunning() ==> (ctx.txSize == old(ctx.txSize) + dataLen &&
        ctx.results == old(ctx.results) + Delivered(DocaOutcome(ctx.op, ctx.len, ctx.txSize, r)))
    {
      DocaComplete(ctx, base.IsRunning(), dataLen, r);
    }

    /** `register_remote_memory`. */
    method RegisterRemoteMemory(rBuf: RemoteBuffer) returns (r: Result<()>)
      modifies this
      ensures RegisterRemote(old(rMmap), rBuf).Ok? ==> r.Ok? && rMmap == RegisterRemote(old(rMmap), rBuf).value
      ensures RegisterRemote(old(rMmap), rBuf).Err? ==> r.Err? && rMmap == old(rMmap)
      ensures submitted == old(submitted)
    {
      var res := RegisterRemote(rMmap, rBuf);
      if res.Err? {
        return Err(res.reason);
      }
      rMmap := res.value;
      return Ok(());
    }

    /** `unregister_remote_memory`: empties the slot; idempotent. */
    method UnregisterRemoteMemory()
      modifies this
      ensures rMmap.None? && submitted == old(submitted)
    {
      rMmap := None;
    }

    /** `stop`: asks the contexts to stop (their state changes later, through
        the SDK) and moves the status machine to Stopping. */
    method Stop()
      requires base.IsRunning()
      modifies base
      ensures base.IsStopping()
    {
      base.Stop();
    }
  }

  /** A bulk operation is one task of `ctx.len` bytes: a successful
      completion resolves it to `len` exactly when the whole length was
      moved, and leaves it pending otherwise. */
  lemma OneTaskOutcome(op: Op, len: nat, dataLen: nat)
    requires IsBulk(op)
    ensures SuccessRun(op, len, 0, [dataLen]) == (if dataLen == len then [len] else [])
  {
    assert [dataLen][1..] == [];
  }
}
