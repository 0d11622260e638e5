/**
 * The status state machine every transport endpoint inherits:
 * Idle -> Ready -> Running -> Stopping -> Exited, one asserted step at a time.
 */
module EndpointLifecycle {
  import opened Wrappers

  datatype Status = Idle | Ready | Running | Stopping | Exited

  /** The four lifecycle calls. */
  datatype Transition = Prepare | Run | Stop | Shutdown

  /** Position of a status along the lifecycle. */
  function Rank(s: Status): (r: nat)
  {
    match s
    case Idle => 0
    case Ready => 1
    case Running => 2
    case Stopping => 3
    case Exited => 4
  }

  /** The status a call moves to, or None where the call's assert fails. */
  function Next(s: Status, t: Transition): (r: Option<Status>)
    ensures r.Some? ==> Rank(r.value) == Rank(s) + 1
    ensures r.Some? <==> (t, s) in {(Prepare, Idle), (Run, Ready), (Stop, Running), (Shutdown, Stopping)}
  {
    match (t, s)
    case (Prepare, Idle) => Some(Ready)
    case (Run, Ready) => Some(Running)
    case (Stop, Running) => Some(Stopping)
    case (Shutdown, Stopping) => Some(Exited)
    case _ => None
  }

  /** The status after a series of calls, None as soon as one of them fails. */
  function Apply(s: Status, ts: seq<Transition>): (r: Option<Status>)
    decreases |ts|
  {
    if ts == [] then Some(s)
    else match Next(s, ts[0])
      case None => None
      case Some(s') => Apply(s', ts[1..])
  }

  /** The status only moves forward: every successful series of calls raises
      the rank by its length, so no status is ever revisited. */
  lemma {:induction false} ApplyAdvances(s: Status, ts: seq<Transition>)
    requires Apply(s, ts).Some?
    ensures Rank(Apply(s, ts).value) == Rank(s) + |ts|
    decreases |ts|
  {
    if ts != [] {
      ApplyAdvances(Next(s, ts[0]).value, ts[1..]);
    }
  }

  /** No call leaves Exited, and the only complete run from Idle is
      prepare, run, stop, shutdown. */
  lemma {:induction false} ExitedIsFinal(ts: seq<Transition>)
    ensures Apply(Exited, ts).Some? <==> ts == []
  {
  }

  lemma {:induction false} OnlyFullLifecycleReachesExited(ts: seq<Transition>)
    requires Apply(Idle, ts) == Some(Exited)
    ensures ts == [Prepare, Run, Stop, Shutdown]
  {
    ApplyAdvances(Idle, ts);
    assert |ts| == 4;
    assert Next(Idle, ts[0]) == Some(Ready);
    assert Apply(Ready, ts[1..]) == Some(Exited);
    assert Next(Ready, ts[1]) == Some(Running);
    assert Apply(Running, ts[2..]) == Some(Exited) by { assert ts[1..][1..] == ts[2..]; }
    assert Next(Running, ts[2]) == Some(Stopping);
    assert Apply(Stopping, ts[3..]) == Some(Exited) by { assert ts[2..][1..] == ts[3..]; }
    assert Next(Stopping, ts[3]) == Some(Exited);
  }

  /** `EndpointBase`. */
  class EndpointBase {
    var status: Status

    /** Starts in the given status, Idle unless told otherwise. */
    constructor (s: Status := Idle)
      ensures status == s
    {
      status := s;
    }

    predicate IsIdle() reads this { status == Idle }
    predicate IsReady() reads this { status == Ready }
    predicate IsRunning() reads this { status == Running }
    predicate IsStopping() reads this { status == Stopping }
    predicate IsExited() reads this { status == Exited }

    method Prepare()
      requires IsIdle()
      modifies this
      ensures Next(old(status), Transition.Prepare) == Some(status) && IsReady()
    {
      status := Ready;
    }

    method Run()
      requires IsReady()
      modifies this
      ensures Next(old(status), Transition.Run) == Some(status) && IsRunning()
    {
      status := Running;
    }

    method Stop()
      requires IsRunning()
      modifies this
      ensures Next(old(status), Transition.Stop) == Some(status) && IsStopping()
    {
      status := Stopping;
    }

    method Shutdown()
      requires IsStopping()
      modifies this
      ensures Next(old(status), Transition.Shutdown) == Some(status) && IsExited()
    {
      status := Exited;
    }
  }
}
