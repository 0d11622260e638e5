/**
 * The DOCA Comch endpoint: RPC frames go through a producer/consumer pair,
 * bulk data through a DMA context that cuts each operation into chunks of at
 * most `max_bulk_task_size` bytes.
 */
module ComchEndpoints {
  import opened Wrappers
  import opened Arith
  import opened MemoryRegions
  import opened EndpointLifecycle
  import opened OpContexts

  /** The chunks the posting loop submits for `[off, len)`: one every `m`
      bytes, each `min(m, len - off)` long. */
  function Chunks(op: Op, off: nat, len: nat, m: nat): (cs: seq<Task>)
    requires m > 0
    ensures forall i :: 0 <= i < |cs| ==> cs[i].op == op && cs[i].len > 0
    decreases len - off
  {
    if off >= len then [] else [Task(op, off, Min(m, len - off))] + Chunks(op, off + m, len, m)
  }

  function Lengths(ts: seq<Task>): (ls: seq<nat>)
    ensures |ls| == |ts| && forall i :: 0 <= i < |ts| ==> ls[i] == ts[i].len
  {
    if ts == [] then [] else [ts[0].len] + Lengths(ts[1..])
  }

  /** Chunk `i` starts at `off + i*m` and is `min(m, len - start)` long. */
  lemma {:induction false} ChunkShape(op: Op, off: nat, len: nat, m: nat, i: nat)
    requires m > 0 && i < |Chunks(op, off, len, m)|
    ensures off + i * m < len
    ensures Chunks(op, off, len, m)[i].off == off + i * m
    ensures Chunks(op, off, len, m)[i].len == Min(m, len - (off + i * m))
    decreases len - off
  {
    if i > 0 {
      ChunkShape(op, off + m, len, m, i - 1);
      MulSucc(i - 1, m);
    }
  }

  /** The chunks are back to back: the first starts at `off`, each ends where
      the next starts, and the last ends at `len`. So they are disjoint and
      cover exactly `[off, len)`. */
  lemma {:induction false} ChunksTile(op: Op, off: nat, len: nat, m: nat)
    requires m > 0 && off < len
    ensures var cs := Chunks(op, off, len, m);
      cs != [] && cs[0].off == off &&
      (forall i :: 0 <= i < |cs| - 1 ==> cs[i].off + cs[i].len == cs[i + 1].off) &&
      cs[|cs| - 1].off + cs[|cs| - 1].len == len
    decreases len - off
  {
    var cs := Chunks(op, off, len, m);
    if off + m < len {
      ChunksTile(op, off + m, len, m);
      var rest := Chunks(op, off + m, len, m);
      assert cs == [Task(op, off, m)] + rest;
    }
  }

  /** The chunk lengths add up to the bytes to move. */
  lemma {:induction false} ChunksSum(op: Op, off: nat, len: nat, m: nat)
    requires m > 0 && off <= len
    ensures Sum(Lengths(Chunks(op, off, len, m))) == len - off
    decreases len - off
  {
    var cs := Chunks(op, off, len, m);
    if off < len {
      if off + m <= len {
        ChunksSum(op, off + m, len, m);
      } else {
        assert Chunks(op, off + m, len, m) == [];
      }
      assert Lengths(cs)[1..] == Lengths(cs[1..]);
    }
  }

  /** A bulk operation of `len > 0` bytes whose chunks all succeed resolves
      exactly once, to `len`. */
  lemma BulkResolvesOnceToLen(op: Op, len: nat, m: nat)
    requires IsBulk(op) && m > 0 && len > 0
    ensures SuccessRun(op, len, 0, Lengths(Chunks(op, 0, len, m))) == [len]
  {
    ChunksSum(op, 0, len, m);
    AllChunksSucceed(op, len, 0, Lengths(Chunks(op, 0, len, m)));
  }

  class ComchEndpoint {
    /** The shared status machine; `running()` is its Running state. */
    const base: EndpointBase
    /** Whether the consumer, producer and DMA contexts are running. */
    var consumerRunning: bool
    var producerRunning: bool
    var dmaRunning: bool
    /** The single registered remote region (`r_mmap`). */
    var rMmap: Option<MemoryRegion>
    const maxBulkTaskSize: nat
    /** Tasks handed to the SDK, in submission order. */
    var submitted: seq<Task>

    /** The chunk size reported by the device is positive. */
    predicate Valid() { maxBulkTaskSize > 0 }

    constructor (maxBulkTaskSize: nat)
      requires maxBulkTaskSize > 0
      ensures Valid() && fresh(base) && base.IsIdle()
      ensures this.maxBulkTaskSize == maxBulkTaskSize && rMmap.None? && submitted == []
      ensures !consumerRunning && !producerRunning && !dmaRunning
    {
      base := new EndpointBase();
      this.maxBulkTaskSize := maxBulkTaskSize;
      rMmap := None;
      submitted := [];
      consumerRunning, producerRunning, dmaRunning := false, false, false;
    }

    /** `post_recv`: with the consumer stopped, resolve to 0 at once. */
    method PostRecv(ctx: OpContext)
      modifies this, ctx
      ensures !old(consumerRunning) ==> ctx.results == old(ctx.results) + [0] && submitted == old(submitted)
      ensures old(consumerRunning) ==> (ctx.results == old(ctx.results) &&
        submitted == old(submitted) + [Task(Recv, 0, ctx.lBuf.len)])
      ensures ctx.txSize == old(ctx.txSize) && rMmap == old(rMmap)
      ensures consumerRunning == old(consumerRunning) && producerRunning == old(producerRunning) && dmaRunning == old(dmaRunning)
    {
      if !consumerRunning {
        ctx.Resolve(0);
        return;
      }
      submitted := submitted + [Task(Recv, 0, ctx.lBuf.len)];
    }

    /** `post_send`: with the producer stopped, resolve to 0 at once;
        otherwise send `ctx.len` bytes. */
    method PostSend(ctx: OpContext)
      modifies this, ctx
      ensures !old(producerRunning) ==> ctx.results == old(ctx.results) + [0] && submitted == old(submitted)
      ensures old(producerRunning) ==> (ctx.results == old(ctx.results) &&
        submitted == old(submitted) + [Task(Send, 0, ctx.len)])
      ensures ctx.txSize == old(ctx.txSize) && rMmap == old(rMmap)
      ensures consumerRunning == old(consumerRunning) && producerRunning == old(producerRunning) && dmaRunning == old(dmaRunning)
    {
      if !producerRunning {
        ctx.Resolve(0);
        return;
      }
      submitted := submitted + [Task(Send, 0, ctx.len)];
    }

    /** `post<op>` for `post_write`/`post_read`: with DMA stopped, resolve
        to 0; otherwise the remote buffer must lie in the registered region,
        the local buffer must hold `len` bytes, and one memcpy task is
        submitted per chunk. */
    method PostBulk(ctx: OpContext)
      requires Valid() && IsBulk(ctx.op)
      requires dmaRunning ==> rMmap.Some? && rMmap.value.Contain(ctx.rBuf) && ctx.lBuf.len >= ctx.len
      modifies this, ctx
      ensures !old(dmaRunning) ==> ctx.results == old(ctx.results) + [0] && submitted == old(submitted)
      ensures old(dmaRunning) ==> (ctx.results == old(ctx.results) &&
        submitted == old(submitted) + Chunks(ctx.op, 0, ctx.len, maxBulkTaskSize))
      ensures ctx.txSize == old(ctx.txSize) && rMmap == old(rMmap)
      ensures consumerRunning == old(consumerRunning) && producerRunning == old(producerRunning) && dmaRunning == old(dmaRunning)
    {
      if !dmaRunning {
        ctx.Resolve(0);
        return;
      }
      var off := 0;
      ghost var start := submitted;
      while off < ctx.len
        invariant start + Chunks(ctx.op, 0, ctx.len, maxBulkTaskSize) ==
                  submitted + Chunks(ctx.op, off, ctx.len, maxBulkTaskSize)
        invariant rMmap == old(rMmap) && dmaRunning == old(dmaRunning)
        invariant consumerRunning == old(consumerRunning) && producerRunning == old(producerRunning)
        modifies this
        decreases ctx.len - off
      {
        submitted := submitted + [Task(ctx.op, off, Min(maxBulkTaskSize, ctx.len - off))];
        off := off + maxBulkTaskSize;
      }
    }

    /** `task_cb`: the completion rule, gated on the endpoint's status. */
    method TaskCb(ctx: OpContext, dataLen: nat, r: TaskResult)
      modifies ctx
      ensures !base.IsRunning() ==> ctx.txSize == old(ctx.txSize) && ctx.results == old(ctx.results)
      ensures base.IsRunning() ==> (ctx.txSize == old(ctx.txSize) + dataLen &&
        ctx.results == old(ctx.results) + Delivered(DocaOutcome(ctx.op, ctx.len, ctx.txSize, r)))
    {
      DocaComplete(ctx, base.IsRunning(), dataLen, r);
    }

    /** `register_remote_memory`. */
    method RegisterRemoteMemory(rBuf: RemoteBuffer) returns (r: Result<()>)
      modifies this
      ensures RegisterRemote(old(rMmap), rBuf).Ok? ==> r.Ok? && rMmap == RegisterRemote(old(rMmap), rBuf).value
      ensures RegisterRemote(old(rMmap), rBuf).Err? ==> r.Err? && rMmap == old(rMmap)
      ensures submitted == old(submitted)
    {
      var res := RegisterRemote(rMmap, rBuf);
      if res.Err? {
        return Err(res.reason);
      }
      rMmap := res.value;
      return Ok(());
    }

    /** `unregister_remote_memory`: empties the slot; idempotent. */
    method UnregisterRemoteMemory()
      modifies this
      ensures rMmap.None? && submitted == old(submitted)
    {
      rMmap := None;
    }
  }
}
