/**
 * The shuffle stage: the pipeline dispatcher that moves spill tasks from the
 * local and remote spill queues to the transfer queues and the disk queue,
 * the `ShuffleWorker` loop that either transfers a task or forwards it to
 * the spill queue, and the sequential parts of the naive worker pool
 * (worker roles, the scatter buffer, the partition split and the checks on
 * bulk counts).
 */
module ShuffleWorkers {
  import opened Bytes
  import opened Wrappers

  /** A spill task as the shuffle stage sees it: the partition of its buffer
      and the buffer's `actual_size()`. */
  datatype SpillTask = SpillTask(pid: nat, actualSize: nat)

  /** The fronts of the non-empty queues, in queue order. */
  function Fronts<T>(qs: seq<seq<T>>): (r: seq<T>)
    ensures |r| <= |qs|
    decreases |qs|
  {
    if qs == [] then []
    else Fronts(qs[..|qs| - 1]) + (if qs[|qs| - 1] == [] then [] else [qs[|qs| - 1][0]])
  }

  /** Every queue with its front (if any) removed. */
  function Popped<T>(qs: seq<seq<T>>): (r: seq<seq<T>>)
    ensures |r| == |qs|
    ensures forall i :: 0 <= i < |qs| ==> qs[i] == (if qs[i] == [] then [] else [qs[i][0]]) + r[i]
  {
    seq(|qs|, i requires 0 <= i < |qs| => if qs[i] == [] then [] else qs[i][1..])
  }

  /** One more queue adds its front, if any. */
  lemma FrontsStep<T>(qs: seq<seq<T>>, i: nat)
    requires i < |qs|
    ensures Fronts(qs[..i + 1]) == Fronts(qs[..i]) + (if qs[i] == [] then [] else [qs[i][0]])
  {
    assert qs[..i + 1][..i] == qs[..i];
  }

  /** The queues with the fronts of the first i removed. */
  function PoppedUpTo<T>(qs: seq<seq<T>>, i: nat): (r: seq<seq<T>>)
    ensures |r| == |qs|
  {
    seq(|qs|, j requires 0 <= j < |qs| => if j < i && qs[j] != [] then qs[j][1..] else qs[j])
  }

  /** All queues joined, in queue order. */
  function Flatten<T>(qs: seq<seq<T>>): (r: seq<T>)
    decreases |qs|
  {
    if qs == [] then [] else Flatten(qs[..|qs| - 1]) + qs[|qs| - 1]
  }

  /** Appending to one queue adds exactly that task to the joined contents. */
  lemma {:induction false} FlattenAppend<T>(qs: seq<seq<T>>, k: nat, t: T)
    requires k < |qs|
    ensures multiset(Flatten(qs[k := qs[k] + [t]])) == multiset(Flatten(qs)) + multiset{t}
    decreases |qs|
  {
    var qs' := qs[k := qs[k] + [t]];
    assert qs'[..|qs'| - 1] == if k == |qs| - 1 then qs[..|qs| - 1] else qs[..|qs| - 1][k := qs[k] + [t]];
    if k < |qs| - 1 {
      FlattenAppend(qs[..|qs| - 1], k, t);
    }
  }

  /** Tasks whose partition `fn` sends to the transfer queues
      (`want`) or not (`!want`), in order. */
  function Select(ts: seq<SpillTask>, want: bool, fn: nat -> bool): (r: seq<SpillTask>)
    decreases |ts|
  {
    if ts == [] then []
    else Select(ts[..|ts| - 1], want, fn) + (if fn(ts[|ts| - 1].pid) == want then [ts[|ts| - 1]] else [])
  }

  /** The transfer queues, the disk queue and the `trsqs_i` counter. */
  datatype Routing = Routing(trsqs: seq<seq<SpillTask>>, dsq: seq<SpillTask>, ti: U32)

  /** `++trsqs_i` on a `uint32_t`: wraps to 0 after the largest value. */
  function NextTi(ti: U32): (n: U32)
    ensures n == (ti + 1) % U32_MOD
  {
    if ti + 1 == U32_MOD then 0 else ti + 1
  }

  /** `x % n` by repeated subtraction. */
  function ModBy(x: nat, n: nat): (r: nat)
    requires n > 0
    ensures r < n
    decreases x
  {
    if x < n then x else ModBy(x - n, n)
  }

  /** Counting up by one moves `ModBy` to the next residue, wrapping to 0. */
  lemma {:induction false} ModBySucc(x: nat, n: nat)
    requires n > 0
    ensures ModBy(x + 1, n) == if ModBy(x, n) + 1 == n then 0 else ModBy(x, n) + 1
    decreases x
  {
    if x >= n {
      ModBySucc(x - n, n);
    }
  }

  /** The index `choose_one_trsq` computes as written: the incremented
      counter modulo the number of REMOTE spill queues, used to index the
      transfer queues. A modulus of zero and an index past the transfer
      queues are undefined behaviour in the source, an `Err` here. */
  function ChosenIndexAsWritten(ti: U32, nR: nat, nT: nat): (r: Result<nat>)
    ensures r.Ok? <==> nR > 0 && ModBy(NextTi(ti), nR) < nT
    ensures r.Ok? ==> r.value < nR && r.value < nT
  {
    if nR == 0 then Err("modulo by zero")
    else if ModBy(NextTi(ti), nR) >= nT then Err("index past the transfer queues")
    else Ok(ModBy(NextTi(ti), nR))
  }

  /** With more remote spill queues than transfer queues the index as
      written leaves the transfer queues: from counter nT - 1 it is nT. */
  lemma AsWrittenIndexOutOfRange(nR: nat, nT: nat)
    requires 0 < nT < nR && nT < U32_MOD
    ensures ChosenIndexAsWritten(nT - 1, nR, nT) == Err("index past the transfer queues")
  {
    assert NextTi(nT - 1) == nT;
    assert ModBy(nT, nR) == nT;
  }

  /** With fewer remote spill queues than transfer queues the transfer
      queues from nR on never receive a task. */
  lemma AsWrittenSkipsQueues(ti: U32, nR: nat, nT: nat, k: nat)
    requires 0 < nR <= k < nT
    ensures ChosenIndexAsWritten(ti, nR, nT) != Ok(k)
  {
  }

  /** The index `choose_one_trsq` evidently means: the incremented counter
      modulo the number of transfer queues. */
  function ChosenIndex(ti: U32, nT: nat): (k: nat)
    requires nT > 0
    ensures k < nT
  {
    ModBy(NextTi(ti), nT)
  }

  /** When there are as many remote spill queues as transfer queues, as the
      offload server builds them, the two indices agree. */
  lemma AsWrittenAgreesWhenEqual(ti: U32, n: nat)
    requires n > 0
    ensures ChosenIndexAsWritten(ti, n, n) == Ok(ChosenIndex(ti, n))
  {
  }

  /** Round robin: away from the counter's wrap, consecutive choices take
      consecutive transfer queues, back to the first after the last. */
  lemma RoundRobin(ti: U32, nT: nat)
    requires ti + 2 < U32_MOD && nT > 0
    ensures ChosenIndex(ti + 1, nT) == if ChosenIndex(ti, nT) + 1 == nT then 0 else ChosenIndex(ti, nT) + 1
  {
    ModBySucc(ti + 1, nT);
  }

  /** One local-queue task: to a transfer queue when `fn` holds for its
      partition, else to the disk queue. */
  function RouteOne(s: Routing, t: SpillTask, nT: nat, fn: nat -> bool): (r: Routing)
    requires 0 < nT <= |s.trsqs|
    ensures |r.trsqs| == |s.trsqs|
  {
    if fn(t.pid) then
      var k := ChosenIndex(s.ti, nT);
      Routing(s.trsqs[k := s.trsqs[k] + [t]], s.dsq, NextTi(s.ti))
    else Routing(s.trsqs, s.dsq + [t], s.ti)
  }

  /** Routing a sequence of local-queue tasks in order. */
  function Route(s: Routing, ts: seq<SpillTask>, nT: nat, fn: nat -> bool): (r: Routing)
    requires 0 < nT <= |s.trsqs|
    ensures |r.trsqs| == |s.trsqs|
    decreases |ts|
  {
    if ts == [] then s else RouteOne(Route(s, ts[..|ts| - 1], nT, fn), ts[|ts| - 1], nT, fn)
  }

  /** Routing one more task is one more `RouteOne`. */
  lemma RouteSnoc(s: Routing, ts: seq<SpillTask>, t: SpillTask, nT: nat, fn: nat -> bool)
    requires 0 < nT <= |s.trsqs|
    ensures Route(s, ts + [t], nT, fn) == RouteOne(Route(s, ts, nT, fn), t, nT, fn)
  {
    assert (ts + [t])[..|ts|] == ts;
  }

  /** Routed tasks reach the disk queue exactly when `fn` is false for
      their partition, in their order. */
  lemma {:induction false} RouteDsq(s: Routing, ts: seq<SpillTask>, nT: nat, fn: nat -> bool)
    requires 0 < nT <= |s.trsqs|
    ensures Route(s, ts, nT, fn).dsq == s.dsq + Select(ts, false, fn)
    decreases |ts|
  {
    if ts != [] {
      RouteDsq(s, ts[..|ts| - 1], nT, fn);
    }
  }

  lemma ModSucc(x: nat)
    ensures ((x % U32_MOD) + 1) % U32_MOD == (x + 1) % U32_MOD
  {
  }

  /** The counter advances once per transfer-queue choice. */
  lemma {:induction false} RouteTi(s: Routing, ts: seq<SpillTask>, nT: nat, fn: nat -> bool)
    requires 0 < nT <= |s.trsqs|
    ensures Route(s, ts, nT, fn).ti == (s.ti + |Select(ts, true, fn)|) % U32_MOD
    decreases |ts|
  {
    if ts != [] {
      var init := ts[..|ts| - 1];
      RouteTi(s, init, nT, fn);
      if fn(ts[|ts| - 1].pid) {
        ModSucc(s.ti + |Select(init, true, fn)|);
      }
    }
  }

  /** The transfer queues gain exactly those tasks for which `fn` holds. */
  lemma {:induction false} RouteTrsqs(s: Routing, ts: seq<SpillTask>, nT: nat, fn: nat -> bool)
    requires 0 < nT <= |s.trsqs|
    ensures multiset(Flatten(Route(s, ts, nT, fn).trsqs)) == multiset(Flatten(s.trsqs)) + multiset(Select(ts, true, fn))
    decreases |ts|
  {
    if ts != [] {
      var init := ts[..|ts| - 1];
      var t := ts[|ts| - 1];
      RouteTrsqs(s, init, nT, fn);
      var mid := Route(s, init, nT, fn);
      if fn(t.pid) {
        FlattenAppend(mid.trsqs, ChosenIndex(mid.ti, nT), t);
      }
    }
  }

  /** Each task ends up in exactly one place. */
  lemma SelectPartition(ts: seq<SpillTask>, fn: nat -> bool)
    ensures multiset(Select(ts, true, fn)) + multiset(Select(ts, false, fn)) == multiset(ts)
    decreases |ts|
  {
    if ts != [] {
      SelectPartition(ts[..|ts| - 1], fn);
      assert ts == ts[..|ts| - 1] + [ts[|ts| - 1]];
    }
  }

  /** `all_of(q.empty())` over a list of queues. */
  function AllEmpty<T>(qs: seq<seq<T>>): (r: bool)
    ensures r <==> forall i :: 0 <= i < |qs| ==> qs[i] == []
  {
    if qs == [] then true else qs[0] == [] && AllEmpty(qs[1..])
  }

  /** `PipelineShuffleWorkerPool`: the dispatcher's queues and counter. */
  class PipelineDispatcher {
    /** The dispatch function: true sends a partition to a remote node. */
    const fn: nat -> bool
    /** Local spill queues, remote spill queues, transfer queues. */
    var lsqs: seq<seq<SpillTask>>
    var rsqs: seq<seq<SpillTask>>
    var trsqs: seq<seq<SpillTask>>
    /** The disk spill queue. */
    var dsq: seq<SpillTask>
    var trsqsI: U32

    /** `choose_one_trsq` (as corrected) picks among the transfer queues,
        so there must be at least one. */
    predicate Valid()
      reads this
    {
      0 < |trsqs|
    }

    constructor (lsqs: seq<seq<SpillTask>>, rsqs: seq<seq<SpillTask>>, trsqs: seq<seq<SpillTask>>, fn: nat -> bool)
      requires 0 < |trsqs|
      ensures this.lsqs == lsqs && this.rsqs == rsqs && this.trsqs == trsqs && this.fn == fn
      ensures dsq == [] && trsqsI == 0 && Valid()
    {
      this.lsqs, this.rsqs, this.trsqs, this.fn := lsqs, rsqs, trsqs, fn;
      dsq := [];
      trsqsI := 0;
    }

    /** `all_queue_empty`: no local and no remote spill queue holds a task. */
    predicate AllQueueEmpty()
      reads this
    {
      AllEmpty(lsqs) && AllEmpty(rsqs)
    }

    /** `choose_one_trsq`: bump the counter and pick the transfer queue. */
    method ChooseOneTrsq() returns (k: nat)
      requires Valid()
      modifies this
      ensures lsqs == old(lsqs) && rsqs == old(rsqs) && trsqs == old(trsqs) && dsq == old(dsq)
      ensures trsqsI == NextTi(old(trsqsI)) && k == ChosenIndex(old(trsqsI), |trsqs|)
    {
      trsqsI := NextTi(trsqsI);
      k := ModBy(trsqsI, |trsqs|);
    }

    /** One pass of `do_dispatch`: take at most one task from each local
        queue and route it, then move at most one task from each remote
        queue to the disk queue. */
    method DispatchPass()
      requires Valid()
      modifies this
      ensures Valid() && lsqs == Popped(old(lsqs)) && rsqs == Popped(old(rsqs))
      ensures var r := Route(Routing(old(trsqs), old(dsq), old(trsqsI)), Fronts(old(lsqs)), |old(trsqs)|, fn);
        trsqs == r.trsqs && trsqsI == r.ti && dsq == r.dsq + Fronts(old(rsqs))
    {
      DispatchLocal();
      DispatchRemote();
    }

    /** The loop over the local spill queues. */
    method DispatchLocal()
      requires Valid()
      modifies this
      ensures Valid() && lsqs == Popped(old(lsqs)) && rsqs == old(rsqs)
      ensures Routing(trsqs, dsq, trsqsI) == Route(Routing(old(trsqs), old(dsq), old(trsqsI)), Fronts(old(lsqs)), |old(trsqs)|, fn)
    {
      var L := lsqs;
      var s0 := Routing(trsqs, dsq, trsqsI);
      var nT := |trsqs|;
      var i := 0;
      while i < |L|
        invariant 0 <= i <= |L| && |lsqs| == |L| && rsqs == old(rsqs) && 0 < |trsqs| == nT
        invariant lsqs == PoppedUpTo(L, i)
        invariant Routing(trsqs, dsq, trsqsI) == Route(s0, Fronts(L[..i]), nT, fn)
      {
        DispatchLocalQueue(L, i, s0, nT);
        i := i + 1;
      }
      assert L[..i] == L;
      assert lsqs == Popped(L);
    }

    /** The body of the local loop for queue i: pop its front, if any; a
        task `fn` sends away goes to the chosen transfer queue, any other to
        the disk queue. */
    method DispatchLocalQueue(L: seq<seq<SpillTask>>, i: nat, ghost s0: Routing, nT: nat)
      requires i < |L| && lsqs == PoppedUpTo(L, i) && 0 < |trsqs| == nT <= |s0.trsqs|
      requires Routing(trsqs, dsq, trsqsI) == Route(s0, Fronts(L[..i]), nT, fn)
      modifies this
      ensures lsqs == PoppedUpTo(L, i + 1) && rsqs == old(rsqs) && |trsqs| == nT
      ensures Routing(trsqs, dsq, trsqsI) == Route(s0, Fronts(L[..i + 1]), nT, fn)
    {
      FrontsStep(L, i);
      if L[i] == [] {
        assert Fronts(L[..i + 1]) == Fronts(L[..i]);
        assert lsqs == PoppedUpTo(L, i + 1);
        return;
      }
      var t := L[i][0];
      lsqs := lsqs[i := L[i][1..]];
      assert lsqs == PoppedUpTo(L, i + 1);
      RouteSnoc(s0, Fronts(L[..i]), t, nT, fn);
      RouteFront(t);
    }

    /** A task `fn` sends away goes to the chosen transfer queue, any other
        to the disk queue. */
    method RouteFront(t: SpillTask)
      requires Valid()
      modifies this
      ensures lsqs == old(lsqs) && rsqs == old(rsqs) && |trsqs| == |old(trsqs)|
      ensures Routing(trsqs, dsq, trsqsI) == RouteOne(Routing(old(trsqs), old(dsq), old(trsqsI)), t, |old(trsqs)|, fn)
    {
      if fn(t.pid) {
        var k := ChooseOneTrsq();
        trsqs := trsqs[k := trsqs[k] + [t]];
      } else {
        dsq := dsq + [t];
      }
    }

    /** The loop over the remote spill queues: every front goes to the disk
        queue. */
    method DispatchRemote()
      requires Valid()
      modifies this
      ensures Valid() && rsqs == Popped(old(rsqs)) && lsqs == old(lsqs)
      ensures trsqs == old(trsqs) && trsqsI == old(trsqsI) && dsq == old(dsq) + Fronts(old(rsqs))
    {
      var R := rsqs;
      var i := 0;
      while i < |R|
        invariant 0 <= i <= |R| && |rsqs| == |R| && lsqs == old(lsqs) && Valid()
        invariant trsqs == old(trsqs) && trsqsI == old(trsqsI)
        invariant forall j :: 0 <= j < i ==> rsqs[j] == Popped(R)[j]
        invariant forall j :: i <= j < |R| ==> rsqs[j] == R[j]
        invariant dsq == old(dsq) + Fronts(R[..i])
      {
        assert R[..i + 1][..i] == R[..i];
        if R[i] != [] {
          var t := R[i][0];
          rsqs := rsqs[i := R[i][1..]];
          dsq := dsq + [t];
        }
        i := i + 1;
      }
      assert R[..i] == R;
      assert rsqs == Popped(R);
    }
  }

  /** A dispatch pass takes at most one task from each queue and loses
      none: everything taken is now in a transfer queue or the disk queue. */
  lemma DispatchConserves(s: Routing, lsqs: seq<seq<SpillTask>>, rsqs: seq<seq<SpillTask>>, nT: nat, fn: nat -> bool)
    requires 0 < nT <= |s.trsqs|
    ensures var r := Route(s, Fronts(lsqs), nT, fn);
      multiset(Flatten(r.trsqs)) + multiset(r.dsq + Fronts(rsqs)) ==
      multiset(Flatten(s.trsqs)) + multiset(s.dsq) + multiset(Fronts(lsqs)) + multiset(Fronts(rsqs))
    ensures |Fronts(lsqs)| <= |lsqs| && |Fronts(rsqs)| <= |rsqs|
  {
    RouteDsq(s, Fronts(lsqs), nT, fn);
    RouteTrsqs(s, Fronts(lsqs), nT, fn);
    SelectPartition(Fronts(lsqs), fn);
  }

  /** `ShuffleWorker`: the worker's two task queues, the spill queue it
      forwards local tasks to, and those tasks whose futures it resolved. */
  class ShuffleWorker {
    const fn: nat -> bool
    var localTaskQ: seq<SpillTask>
    var remoteTaskQ: seq<SpillTask>
    var spillQ: seq<SpillTask>
    var resolved: seq<(SpillTask, nat)>

    constructor (fn: nat -> bool, localTaskQ: seq<SpillTask>, remoteTaskQ: seq<SpillTask>)
      ensures this.fn == fn && this.localTaskQ == localTaskQ && this.remoteTaskQ == remoteTaskQ
      ensures spillQ == [] && resolved == []
    {
      this.fn, this.localTaskQ, this.remoteTaskQ := fn, localTaskQ, remoteTaskQ;
      spillQ, resolved := [], [];
    }

    /** One iteration of `handle_spill_task` on the local (`fromRemote`
        false) or remote queue: stop when not running; otherwise pop the
        front task. A partition `fn` sends away is transferred, and the
        transferred count must equal `actual_size()` (otherwise fatal); any
        other task goes to the spill queue unchanged. */
    method HandleSpillTaskOnce(fromRemote: bool, running: bool, nBulk: int) returns (res: Result<bool>)
      requires running ==> (if fromRemote then remoteTaskQ else localTaskQ) != []
      modifies this
      ensures !running ==> (res == Ok(false) && localTaskQ == old(localTaskQ) && remoteTaskQ == old(remoteTaskQ) &&
                            spillQ == old(spillQ) && resolved == old(resolved))
      ensures running ==>
        var q := if fromRemote then old(remoteTaskQ) else old(localTaskQ);
        var t := q[0];
        (if fromRemote then remoteTaskQ == q[1..] && localTaskQ == old(localTaskQ)
                       else localTaskQ == q[1..] && remoteTaskQ == old(remoteTaskQ)) &&
        (fn(t.pid) ==> spillQ == old(spillQ) &&
                       (res.Ok? <==> nBulk == t.actualSize) &&
                       (res.Ok? ==> res.value && resolved == old(resolved) + [(t, t.actualSize)])) &&
        (!fn(t.pid) ==> res == Ok(true) && spillQ == old(spillQ) + [t] && resolved == old(resolved))
    {
      if !running {
        return Ok(false);
      }
      var t: SpillTask;
      if fromRemote {
        t := remoteTaskQ[0];
        remoteTaskQ := remoteTaskQ[1..];
      } else {
        t := localTaskQ[0];
        localTaskQ := localTaskQ[1..];
      }
      if fn(t.pid) {
        if nBulk != t.actualSize {
          return Err("Fail to transfer buffer of partition");
        }
        resolved := resolved + [(t, t.actualSize)];
      } else {
        spillQ := spillQ + [t];
      }
      return Ok(true);
    }
  }

  /** `NaiveShuffleWorkerPool`'s worker roles: fewer than four workers is
      fatal; worker i serves the remote queue iff i >= n/2. */
  function WorkerRoles(n: nat): (r: Result<seq<bool>>)
    ensures r.Ok? <==> n >= 4
    ensures r.Ok? ==> |r.value| == n && forall i :: 0 <= i < n ==> (r.value[i] <==> i >= n / 2)
  {
    if n < 4 then Err("n worker >= 4") else Ok(seq(n, i => i >= n / 2))
  }

  /** With the roles assigned, both queues have at least two workers. */
  lemma BothQueuesServed(n: nat)
    requires n >= 4
    ensures var roles := WorkerRoles(n).value;
      !roles[0] && !roles[1] && roles[n - 1] && roles[n - 2]
  {
  }

  /** All partitions joined in order. */
  function Concat(ps: seq<seq<Byte>>): (r: seq<Byte>)
    decreases |ps|
  {
    if ps == [] then [] else Concat(ps[..|ps| - 1]) + ps[|ps| - 1]
  }

  /** Two distinct partitions both fit inside the joined buffer. */
  lemma {:induction false} ConcatHoldsTwo(ps: seq<seq<Byte>>, a: nat, b: nat)
    requires a < b < |ps|
    ensures |Concat(ps)| >= |ps[a]| + |ps[b]|
    decreases |ps|
  {
    var init := ps[..|ps| - 1];
    if b < |ps| - 1 {
      ConcatHoldsTwo(init, a, b);
    } else {
      ConcatHoldsOne(init, a);
    }
  }

  lemma {:induction false} ConcatHoldsOne(ps: seq<seq<Byte>>, a: nat)
    requires a < |ps|
    ensures |Concat(ps)| >= |ps[a]|
    decreases |ps|
  {
    if a < |ps| - 1 {
      ConcatHoldsOne(ps[..|ps| - 1], a);
    }
  }

  /** The number of bytes in the partitions before partition i. */
  function PrefixLength(ps: seq<seq<Byte>>, i: nat): (r: nat)
    requires i <= |ps|
  {
    |Concat(ps[..i])|
  }

  /** The bytes at [off, off + len) of the buffer are exactly `p`. */
  predicate InRange(buf: seq<Byte>, off: nat, len: nat, p: seq<Byte>)
  {
    off + len <= |buf| && buf[off..off + len] == p
  }

  /** The partitions before i are joined at the front of all of them. */
  lemma {:induction false} ConcatPrefix(ps: seq<seq<Byte>>, i: nat)
    requires i <= |ps|
    ensures |Concat(ps[..i])| <= |Concat(ps)| && Concat(ps)[..|Concat(ps[..i])|] == Concat(ps[..i])
    decreases |ps|
  {
    if i < |ps| {
      var init := ps[..|ps| - 1];
      assert init[..i] == ps[..i];
      ConcatPrefix(init, i);
    } else {
      assert ps[..i] == ps;
    }
  }

  /** Partition j sits in the joined buffer right after the partitions
      before it. */
  lemma PartitionInRange(ps: seq<seq<Byte>>, j: nat)
    requires j < |ps|
    ensures InRange(Concat(ps), PrefixLength(ps, j), |ps[j]|, ps[j])
  {
    ConcatPrefix(ps, j + 1);
    assert ps[..j + 1][..j] == ps[..j];
    var pre := Concat(ps[..j]);
    assert Concat(ps[..j + 1]) == pre + ps[j];
    assert Concat(ps)[|pre|..|pre| + |ps[j]|] == (pre + ps[j])[|pre|..];
  }

  /** The scatter loop of `do_shuffle`: the partitions are appended to one
      buffer; partition i's offset is the total length before it and its
      length is its size, so that range of the buffer is exactly partition
      i. */
  method Scatter(partitions: seq<seq<Byte>>) returns (scatter: seq<Byte>, lengths: seq<nat>, offsets: seq<nat>)
    ensures scatter == Concat(partitions)
    ensures |lengths| == |partitions| && |offsets| == |partitions|
    ensures forall i :: 0 <= i < |partitions| ==> lengths[i] == |partitions[i]|
    ensures forall i :: 0 <= i < |partitions| ==> offsets[i] == PrefixLength(partitions, i)
    ensures forall i :: 0 <= i < |partitions| ==> InRange(scatter, offsets[i], lengths[i], partitions[i])
  {
    scatter, lengths, offsets := [], [], [];
    var i := 0;
    while i < |partitions|
      invariant 0 <= i <= |partitions| && |lengths| == i && |offsets| == i
      invariant scatter == Concat(partitions[..i])
      invariant forall j :: 0 <= j < i ==> lengths[j] == |partitions[j]|
      invariant forall j :: 0 <= j < i ==> offsets[j] == PrefixLength(partitions, j)
    {
      var p := partitions[i];
      assert partitions[..i + 1][..i] == partitions[..i];
      offsets := offsets + [|scatter|];
      scatter := scatter + p;
      lengths := lengths + [|p|];
      i := i + 1;
    }
    assert partitions[..i] == partitions;
    forall j | 0 <= j < |partitions|
      ensures InRange(scatter, offsets[j], lengths[j], partitions[j])
    {
      PartitionInRange(partitions, j);
    }
  }

  /** The partition split of `do_shuffle`: ids below n for which `fn`
      holds go to `remote_ps`, the others to `local_ps`; both lists are
      increasing, so each id appears once, in exactly one list. */
  method SplitPartitions(n: nat, fn: nat -> bool) returns (remotePs: seq<nat>, localPs: seq<nat>)
    ensures forall k :: 0 <= k < |remotePs| ==> remotePs[k] < n && fn(remotePs[k])
    ensures forall k :: 0 <= k < |localPs| ==> localPs[k] < n && !fn(localPs[k])
    ensures forall k, l :: 0 <= k < l < |remotePs| ==> remotePs[k] < remotePs[l]
    ensures forall k, l :: 0 <= k < l < |localPs| ==> localPs[k] < localPs[l]
    ensures forall pid :: 0 <= pid < n ==> (pid in remotePs <==> fn(pid)) && (pid in localPs <==> !fn(pid))
    ensures |remotePs| + |localPs| == n
  {
    remotePs, localPs := [], [];
    var pid := 0;
    while pid < n
      invariant 0 <= pid <= n && |remotePs| + |localPs| == pid
      invariant forall k :: 0 <= k < |remotePs| ==> remotePs[k] < pid && fn(remotePs[k])
      invariant forall k :: 0 <= k < |localPs| ==> localPs[k] < pid && !fn(localPs[k])
      invariant forall k, l :: 0 <= k < l < |remotePs| ==> remotePs[k] < remotePs[l]
      invariant forall k, l :: 0 <= k < l < |localPs| ==> localPs[k] < localPs[l]
      invariant forall q :: 0 <= q < pid ==> (q in remotePs <==> fn(q)) && (q in localPs <==> !fn(q))
    {
      if fn(pid) {
        remotePs := remotePs + [pid];
      } else {
        localPs := localPs + [pid];
      }
      pid := pid + 1;
    }
  }

  /** One `bulk` per listed partition, in list order: the offset and
      length of the scatter range each one posts. */
  method PostBulks(pids: seq<nat>, offsets: seq<nat>, lengths: seq<nat>) returns (posted: seq<(nat, nat)>)
    requires forall k :: 0 <= k < |pids| ==> pids[k] < |offsets| && pids[k] < |lengths|
    ensures |posted| == |pids|
    ensures forall k :: 0 <= k < |pids| ==> posted[k] == (offsets[pids[k]], lengths[pids[k]])
  {
    posted := [];
    var k := 0;
    while k < |pids|
      invariant 0 <= k <= |pids| && |posted| == k
      invariant forall j :: 0 <= j < k ==> posted[j] == (offsets[pids[j]], lengths[pids[j]])
    {
      posted := posted + [(offsets[pids[k]], lengths[pids[k]])];
      k := k + 1;
    }
  }

  /** What `do_shuffle` hands to the two transports: the partitions posted
      on the DMA (`io`) transport and on the RDMA transport, with the
      scatter range each transfer covers. */
  datatype Transfers = Transfers(ioPids: seq<nat>, io: seq<(nat, nat)>, rdmaPids: seq<nat>, rdma: seq<(nat, nat)>)

  /** Every posted range holds exactly its partition's bytes. */
  predicate RangesHold(scatter: seq<Byte>, partitions: seq<seq<Byte>>, pids: seq<nat>, ranges: seq<(nat, nat)>)
  {
    |ranges| == |pids|
    && forall k :: 0 <= k < |pids| ==>
         pids[k] < |partitions| && InRange(scatter, ranges[k].0, ranges[k].1, partitions[pids[k]])
  }

  /** The transfer blocks of `do_shuffle` as written: both the DMA block
      and the RDMA block iterate over `local_ps`, so every local partition
      is sent twice and no partition `fn` sends to the remote node is sent
      at all. */
  method ShuffleTransfersAsWritten(partitions: seq<seq<Byte>>, fn: nat -> bool) returns (scatter: seq<Byte>, t: Transfers)
    ensures scatter == Concat(partitions)
    ensures t.rdmaPids == t.ioPids && t.rdma == t.io
    ensures forall pid :: 0 <= pid < |partitions| ==> (pid in t.ioPids <==> !fn(pid))
    ensures forall pid :: 0 <= pid < |partitions| && fn(pid) ==> pid !in t.ioPids && pid !in t.rdmaPids
    ensures RangesHold(scatter, partitions, t.ioPids, t.io)
  {
    var lengths, offsets;
    scatter, lengths, offsets := Scatter(partitions);
    var remotePs, localPs := SplitPartitions(|partitions|, fn);
    var io := PostBulks(localPs, offsets, lengths);
    var rdma := PostBulks(localPs, offsets, lengths);
    t := Transfers(localPs, io, localPs, rdma);
  }

  /** The transfer blocks as evidently intended: local partitions over the
      DMA transport, remote ones over RDMA, each partition exactly once. */
  method ShuffleTransfers(partitions: seq<seq<Byte>>, fn: nat -> bool) returns (scatter: seq<Byte>, t: Transfers)
    ensures scatter == Concat(partitions)
    ensures forall pid :: 0 <= pid < |partitions| ==> (pid in t.ioPids <==> !fn(pid)) && (pid in t.rdmaPids <==> fn(pid))
    ensures |t.ioPids| + |t.rdmaPids| == |partitions|
    ensures RangesHold(scatter, partitions, t.ioPids, t.io) && RangesHold(scatter, partitions, t.rdmaPids, t.rdma)
  {
    var lengths, offsets;
    scatter, lengths, offsets := Scatter(partitions);
    var remotePs, localPs := SplitPartitions(|partitions|, fn);
    var io := PostBulks(localPs, offsets, lengths);
    var rdma := PostBulks(remotePs, offsets, lengths);
    t := Transfers(localPs, io, remotePs, rdma);
  }

  /** Waiting on the transfer futures in order: a count that differs from
      the one expected is fatal. */
  method CheckBulkCounts(counts: seq<int>, expected: seq<int>) returns (res: Result<()>)
    requires |counts| == |expected|
    ensures res.Ok? <==> counts == expected
  {
    var i := 0;
    while i < |counts|
      invariant 0 <= i <= |counts| && counts[..i] == expected[..i]
    {
      if counts[i] != expected[i] {
        return Err("Fail to trans data");
      }
      assert counts[..i + 1] == counts[..i] + [counts[i]];
      assert expected[..i + 1] == expected[..i] + [expected[i]];
      i := i + 1;
    }
    assert counts == counts[..i] && expected == expected[..i];
    return Ok(());
  }

  /** The counts the transfers of the local partitions return when each
      completes: the length of its range. */
  function FullCounts(partitions: seq<seq<Byte>>, localPs: seq<nat>): (r: seq<int>)
    requires forall k :: 0 <= k < |localPs| ==> localPs[k] < |partitions|
    ensures |r| == |localPs|
  {
    seq(|localPs|, k requires 0 <= k < |localPs| => |partitions[localPs[k]]|)
  }

  /** As written: every count is compared with the size of the whole
      scatter region. */
  function AsWrittenExpected(regionSize: nat, nLocal: nat): (r: seq<int>)
    ensures |r| == nLocal && forall k :: 0 <= k < nLocal ==> r[k] == regionSize
  {
    seq(nLocal, _ => regionSize)
  }

  /** As intended: each count is compared with the length of its own
      partition's range. */
  function IntendedExpected(lengths: seq<nat>, localPs: seq<nat>): (r: seq<int>)
    requires forall k :: 0 <= k < |localPs| ==> localPs[k] < |lengths|
    ensures |r| == |localPs| && forall k :: 0 <= k < |localPs| ==> r[k] == lengths[localPs[k]]
  {
    seq(|localPs|, k requires 0 <= k < |localPs| => lengths[localPs[k]])
  }

  /** As written, the check rejects a shuffle in which every local transfer
      completes, as soon as a local partition and some other partition both
      hold bytes: that partition's count is smaller than the region. */
  lemma {:induction false} AsWrittenRejectsCompleteTransfers(partitions: seq<seq<Byte>>, localPs: seq<nat>, k: nat, other: nat)
    requires forall j :: 0 <= j < |localPs| ==> localPs[j] < |partitions|
    requires k < |localPs| && other < |partitions| && other != localPs[k]
    requires partitions[other] != []
    ensures FullCounts(partitions, localPs) != AsWrittenExpected(|Concat(partitions)|, |localPs|)
  {
    var a := localPs[k];
    if a < other {
      ConcatHoldsTwo(partitions, a, other);
    } else {
      ConcatHoldsTwo(partitions, other, a);
    }
    assert FullCounts(partitions, localPs)[k] < AsWrittenExpected(|Concat(partitions)|, |localPs|)[k];
  }

  /** The intended check accepts exactly the complete transfers. */
  lemma IntendedAcceptsCompleteTransfers(partitions: seq<seq<Byte>>, lengths: seq<nat>, localPs: seq<nat>)
    requires |lengths| == |partitions| && forall i :: 0 <= i < |partitions| ==> lengths[i] == |partitions[i]|
    requires forall k :: 0 <= k < |localPs| ==> localPs[k] < |partitions|
    ensures IntendedExpected(lengths, localPs) == FullCounts(partitions, localPs)
  {
  }
}
