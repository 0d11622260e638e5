/**
 * The DPA thread group: a fixed number of thread slots on the DPA, each
 * either idle or busy with one task. `trigger` claims the lowest idle slot,
 * stamps a task's input with the slot's index and records that task as
 * outstanding under that id; the reply callback looks the id up, copies the
 * reply into its task's output, forgets that task, frees the slot and
 * fulfils that task's promise.
 *
 * The DOCA objects behind a thread (queues, producers, consumers,
 * completions) are left out; a reply is the `payload_t` the device sends
 * back.
 */
module DpaThreads {
  import opened Wrappers
  import opened Bytes

  /** `sizeof(dpa_thread_args_t)`: six 64-bit handles, four 32-bit ids and
      the 64-bit `d_ctx`. */
  const ARGS_SIZE: nat := 72

  /** `MSGQ_PAYLOAD_LENGTH`. */
  const PAYLOAD_LENGTH: nat := 24

  /** `payload_t`: a 64-bit id and the payload bytes. */
  datatype Payload = Payload(id: U64, data: seq<Byte>)

  /** Where a task's promise stands: not yet triggered, waiting for its
      reply, or fulfilled. A promise gives out its future once, so a
      context is triggered at most once. */
  datatype TaskState = Fresh | Pending | Done

  /** `TaskContext`: the promise, the input and the output of one task. */
  class TaskContext {
    var input: Payload
    var output: Payload
    var state: TaskState

    constructor (input: Payload)
      ensures this.input == input && state == Fresh
    {
      this.input := input;
      output := Payload(0, []);
      state := Fresh;
    }
  }

  /** `DPAThread`'s check on the size of its thread local storage, which
      starts with the thread's arguments: a smaller size dies. */
  function TlsCheck(tlsSize: nat): (r: Result<()>)
    ensures r.Ok? <==> tlsSize >= ARGS_SIZE
  {
    if tlsSize < ARGS_SIZE then Err("tls size must bigger than 72") else Ok(())
  }

  /** One `DPAThread`: its slot index and the size of its local storage. */
  datatype Thread = Thread(index: nat, tlsSize: nat)

  class DPAThreadGroup {
    /** The threads added so far, in the order of `add`. */
    var threads: seq<Thread>
    /** `active_flags`: one flag per slot, sized by the constructor. */
    var active: seq<bool>
    /** `outstanding_tasks`, keyed by the 32-bit input id. */
    var outstanding: map<nat, TaskContext>

    /** Thread i sits in slot i; a slot is busy exactly when a task is
        outstanding under its index, that task waits for its reply with the
        slot's index as input id, and slots without a thread stay idle. */
    ghost predicate Valid()
      reads this, outstanding.Values
    {
      |threads| <= |active| < U32_MOD
      && (forall i :: 0 <= i < |threads| ==> threads[i].index == i && TlsCheck(threads[i].tlsSize).Ok?)
      && (forall i :: 0 <= i < |threads| ==> (active[i] <==> i in outstanding))
      && (forall i :: |threads| <= i < |active| ==> !active[i])
      && (forall id :: id in outstanding ==>
            id < |threads| && outstanding[id].input.id == id && outstanding[id].state == Pending)
    }

    /** `DPAThreadGroup(dev, n_thread, fn)`: n idle slots and no thread. */
    constructor (nThread: U32)
      ensures Valid()
      ensures threads == [] && outstanding == map[]
      ensures |active| == nThread && forall i :: 0 <= i < nThread ==> !active[i]
    {
      threads := [];
      active := seq(nThread, _ => false);
      outstanding := map[];
    }

    /** `add(user_args)`: a new thread in the next slot, whose local storage
        holds the thread's arguments followed by the user's. The group's
        slots must have room for it, since the slot search indexes the flags
        by thread index. */
    method Add(userArgsSize: nat)
      requires Valid() && |threads| < |active|
      modifies this
      ensures Valid()
      ensures threads == old(threads) + [Thread(|old(threads)|, userArgsSize + ARGS_SIZE)]
      ensures active == old(active) && outstanding == old(outstanding)
    {
      var tlsSize := userArgsSize + ARGS_SIZE;
      assert TlsCheck(tlsSize).Ok?;
      threads := threads + [Thread(|threads|, tlsSize)];
    }

    /** One pass of `get_one_inactive_thread`: the lowest idle slot among
        the threads, now marked busy; `None` when every thread is busy, where
        the source yields to other fibers and searches again. */
    method GetOneInactive() returns (r: Option<nat>)
      requires |threads| <= |active| < U32_MOD
      modifies this
      ensures threads == old(threads) && outstanding == old(outstanding)
      ensures r.None? ==> active == old(active) && forall i :: 0 <= i < |threads| ==> active[i]
      ensures r.Some? ==>
        r.value < |threads| && !old(active)[r.value]
        && (forall i :: 0 <= i < r.value ==> old(active)[i])
        && active == old(active)[r.value := true]
    {
      for i := 0 to |threads|
        invariant active == old(active)
        invariant forall k :: 0 <= k < i ==> active[k]
      {
        if !active[i] {
          active := active[i := true];
          return Some(i);
        }
      }
      return None;
    }

    /** `trigger(ctx)`: claim a slot, stamp its index into the input as the
        id and record that task as outstanding under that id. `None` stands
        for the search finding every slot busy. */
    method Trigger(ctx: TaskContext) returns (r: Option<nat>)
      requires Valid() && ctx.state == Fresh
      modifies this, ctx
      ensures Valid()
      ensures threads == old(threads)
      ensures r.None? ==>
        active == old(active) && outstanding == old(outstanding) && ctx.input == old(ctx.input)
        && forall i :: 0 <= i < |threads| ==> active[i]
      ensures r.Some? ==>
        var id := r.value;
        id < |threads| && id !in old(outstanding)
        && (forall i :: 0 <= i < id ==> old(active)[i])
        && active == old(active)[id := true]
        && outstanding == old(outstanding)[id := ctx]
        && ctx.input == old(ctx.input).(id := id) && ctx.state == Pending
    {
      r := GetOneInactive();
      if r.None? {
        return;
      }
      var id := r.value;
      ctx.input := ctx.input.(id := id);
      ctx.state := Pending;
      outstanding := outstanding[id := ctx];
    }

    /** The callback for a received reply: the id is looked up as a 32-bit
        key; an unknown id is logged and dropped; a known one has its reply
        copied into its task's output, its entry erased, its slot freed and
        its promise fulfilled. */
    method OnRecv(p: Payload)
      requires Valid()
      modifies this, outstanding.Values
      ensures Valid()
      ensures threads == old(threads)
      ensures p.id % U32_MOD !in old(outstanding) ==>
        active == old(active) && outstanding == old(outstanding)
        && forall c :: c in old(outstanding).Values ==> c.output == old(c.output) && c.state == old(c.state)
      ensures p.id % U32_MOD in old(outstanding) ==>
        var id := p.id % U32_MOD;
        var ctx := old(outstanding)[id];
        ctx.output == p && ctx.state == Done && ctx.input == old(ctx.input)
        && outstanding == old(outstanding) - {id}
        && active == old(active)[id := false]
        && forall c :: c in outstanding.Values ==> c.output == old(c.output) && c.state == old(c.state)
    {
      var id := p.id % U32_MOD;
      if id !in outstanding {
        return;
      }
      var ctx := outstanding[id];
      OutstandingDistinct();
      ctx.output := p;
      outstanding := outstanding - {id};
      active := active[id := false];
      ctx.state := Done;
    }

    /** No two outstanding tasks share a context: each carries its own id. */
    lemma OutstandingDistinct()
      requires Valid()
      ensures forall a, b :: a in outstanding && b in outstanding && a != b ==> outstanding[a] != outstanding[b]
    {
    }
  }
}
