/** The event loop that runs rechecks one at a time, as a transition system over its channels. */
module RecheckLoop {
  import opened Basics

  type Chan = nat

  type Header = nat

  /** A recheck goroutine: the head it rechecks for, and the channel that cancels it. */
  datatype Run = Run(head: Header, cancel: Chan)

  /** A launch, with the number of requests accepted before it. */
  datatype Launch = Launch(head: Header, after: nat)

  /** Where the loop is: about to launch, in its select, handing a done channel to a caller, waiting for the
      last recheck after shutdown, or gone. */
  datatype Place = Top | Selecting | Handing | Draining | Exited

  datatype Sys = Sys(
    place: Place,
    curDone: Option<Chan>,
    nextDone: Chan,
    launchNextRun: bool,
    recheckReq: Option<Header>,
    cancelCh: Option<Chan>,
    runs: map<Chan, Run>,              // running goroutines by their done channel
    closed: set<Chan>,
    doubleClose: bool,                 // some channel was closed twice, which panics
    unmade: Chan,                       // channels from here on have not been made
    requests: seq<Header>,             // accepted requests, oldest first
    granted: map<Chan, nat>,           // done channel handed to callers, with the number of the latest such request
    launches: map<Chan, Launch>)       // every launch, by its done channel

  function Close(s: Sys, c: Chan): (r: Sys)
  {
    s.(closed := s.closed + {c}, doubleClose := s.doubleClose || c in s.closed)
  }

  function CloseOpt(s: Sys, c: Option<Chan>): (r: Sys) { if c.Some? then Close(s, c.value) else s }

  predicate Initial(s: Sys)
  {
    && s.place == Top && s.curDone.None? && !s.launchNextRun && s.recheckReq.None? && s.cancelCh.None?
    && s.runs == map[] && s.closed == {} && !s.doubleClose && s.nextDone < s.unmade
    && s.requests == [] && s.granted == map[] && s.launches == map[]
  }

  datatype Step =
    | Enter                          // top of the loop: launch if nothing runs and a run was asked for
    | Request(head: Header)          // TriggerRecheck sends a request
    | Grant                          // ... and receives the done channel of the next run
    | Finish(done: Chan)             // a recheck goroutine closes its done channel
    | Reap                           // the loop sees the current run done
    | Shutdown                       // the loop sees the shutdown channel
    | Leave                          // the last run is done, the loop exits
    | Late                           // TriggerRecheck after the exit gets a closed channel

  predicate Enabled(s: Sys, t: Step)
  {
    match t
    case Enter => s.place == Top
    case Request(_) => s.place == Selecting
    case Grant => s.place == Handing
    case Finish(d) => d in s.runs
    case Reap => s.place == Selecting && s.curDone.Some? && s.curDone.value in s.closed
    case Shutdown => s.place == Selecting
    case Leave => s.place == Draining && s.curDone.Some? && s.curDone.value in s.closed
    case Late => s.place == Exited
  }

  function Take(s: Sys, t: Step): (r: Sys)
    requires Enabled(s, t)
  {
    match t
    case Enter =>
      if s.curDone.None? && s.launchNextRun && s.recheckReq.Some? then
        var cancel, next := s.unmade, s.unmade + 1;
        s.(place := Selecting,
           cancelCh := Some(cancel),
           runs := s.runs[s.nextDone := Run(s.recheckReq.value, cancel)],
           launches := s.launches[s.nextDone := Launch(s.recheckReq.value, |s.requests|)],
           curDone := Some(s.nextDone), nextDone := next, unmade := s.unmade + 2,
           launchNextRun := false, recheckReq := None)
      else s.(place := Selecting)
    case Request(head) =>
      var c := if s.curDone.Some? && s.cancelCh.Some? then Close(s, s.cancelCh.value).(cancelCh := None) else s;
      c.(place := Handing, recheckReq := Some(head), launchNextRun := true, requests := s.requests + [head])
    case Grant => s.(place := Top, granted := s.granted[s.nextDone := |s.requests|])
    case Finish(d) => Close(s, d).(runs := s.runs - {d})
    case Reap => s.(place := Top, curDone := None, cancelCh := None)
    case Shutdown =>
      if s.curDone.Some? then CloseOpt(s, s.cancelCh).(place := Draining)
      else Close(s, s.nextDone).(place := Exited)
    case Leave => Close(s, s.nextDone).(place := Exited)
    case Late => Close(s, s.unmade).(granted := s.granted[s.unmade := |s.requests|], unmade := s.unmade + 1)
  }

  // ---- the invariant ----------------------------------------------------------------------------------------

  /** All channels in use exist, and the roles do not overlap. */
  ghost predicate Apart(s: Sys)
  {
    && s.nextDone < s.unmade && (forall c :: c in s.closed ==> c < s.unmade)
    && (s.curDone.Some? ==> s.curDone.value < s.unmade && s.curDone.value != s.nextDone)
    && (s.cancelCh.Some? ==> s.cancelCh.value < s.unmade && s.cancelCh.value != s.nextDone && s.cancelCh != s.curDone)
    && s.nextDone !in s.launches && (forall d :: d in s.launches ==> d < s.unmade)
    && (forall d :: d in s.granted ==> d < s.unmade)
  }

  /** The only goroutine is the current run, and it runs until its done channel is closed. */
  ghost predicate OneRun(s: Sys)
  {
    && (s.curDone.None? ==> s.runs == map[] && s.cancelCh.None?)
    && (s.curDone.Some? ==>
          && s.curDone.value in s.launches
          && (s.curDone.value in s.closed ==> s.runs == map[])
          && (s.curDone.value !in s.closed ==> s.runs.Keys == {s.curDone.value}))
  }

  /** Channels still to be closed are open. */
  ghost predicate StillOpen(s: Sys)
  {
    && !s.doubleClose
    && (s.nextDone in s.closed <==> s.place == Exited)
    && (s.cancelCh.Some? && !s.place.Draining? && !s.place.Exited? ==> s.cancelCh.value !in s.closed)
    && (s.place.Draining? ==> s.curDone.Some?)
    && (s.place.Exited? ==> s.runs == map[])
  }

  /** A pending request is the latest one; in particular a launch always finds a request. */
  ghost predicate LatestPending(s: Sys)
  {
    && (s.launchNextRun <==> s.recheckReq.Some?)
    && (s.recheckReq.Some? ==> |s.requests| > 0 && s.recheckReq.value == s.requests[|s.requests| - 1])
    && (s.place.Handing? ==> s.launchNextRun)
  }

  /** Some recheck was launched after all `n` requests. */
  ghost predicate LaunchedAfter(s: Sys, n: nat) { exists d :: d in s.launches && s.launches[d].after == n }

  /** The latest request has been launched, or is remembered; the loop does not sit idle on a remembered one; and a run
      that is not cancelled is the one for the latest request. */
  ghost predicate NoneForgotten(s: Sys)
  {
    && (s.requests != [] && !s.launchNextRun ==> LaunchedAfter(s, |s.requests|))
    && (s.place.Selecting? && s.curDone.None? ==> !s.launchNextRun)
    && (s.curDone.Some? && s.cancelCh.Some? && s.curDone.value in s.launches ==>
          s.launches[s.curDone.value].after == |s.requests|)
  }

  /** Every launch used the latest head requested before it. */
  ghost predicate LaunchesLatest(s: Sys)
  {
    forall d :: d in s.launches ==>
      0 < s.launches[d].after <= |s.requests| && s.launches[d].head == s.requests[s.launches[d].after - 1]
  }

  /** A granted channel belongs to a launch that came after its request, or to the launch still to come, or is
      closed without ever having had a run, which happens only at the exit. */
  ghost predicate GrantsServed(s: Sys)
  {
    forall d :: d in s.granted ==>
      && s.granted[d] <= |s.requests|
      && (d in s.launches ==> s.granted[d] <= s.launches[d].after && (d in s.closed || s.curDone == Some(d)))
      && (d !in s.launches && d != s.nextDone ==> s.place.Exited? && d in s.closed)
  }

  /** The run's cancel channel is open until a request follows its launch, or the loop shuts down. */
  ghost predicate Cancellable(s: Sys, d: Chan)
    requires d in s.runs && d in s.launches
  {
    var c := s.runs[d].cancel;
    && s.runs[d].head == s.launches[d].head && c < s.unmade && c != s.nextDone && c != d
    && (s.cancelCh.Some? ==> s.cancelCh.value == c && |s.requests| == s.launches[d].after)
    && (s.cancelCh.None? ==> |s.requests| > s.launches[d].after)
    && (c in s.closed <==> s.cancelCh.None? || s.place.Draining?)
  }

  ghost predicate CancelsSuperseded(s: Sys)
  {
    forall d :: d in s.runs && d in s.launches ==> Cancellable(s, d)
  }

  ghost predicate Base(s: Sys)
  {
    Apart(s) && OneRun(s) && StillOpen(s) && LatestPending(s) && LaunchesLatest(s) && GrantsServed(s)
  }

  ghost predicate Inv(s: Sys) { Base(s) && CancelsSuperseded(s) && NoneForgotten(s) }

  lemma EnterKeepsBase(s: Sys)
    requires Base(s) && Enabled(s, Enter)
    ensures Base(Take(s, Enter))
  {}

  lemma RequestKeepsBase(s: Sys, head: Header)
    requires Base(s) && Enabled(s, Request(head))
    ensures Base(Take(s, Request(head)))
  {}

  lemma FinishKeepsBase(s: Sys, d: Chan)
    requires Base(s) && Enabled(s, Finish(d))
    ensures Base(Take(s, Finish(d)))
  {}

  lemma ShutdownKeepsBase(s: Sys)
    requires Base(s) && Enabled(s, Shutdown)
    ensures Base(Take(s, Shutdown))
  {
    hide Apart, OneRun, StillOpen, LatestPending, LaunchesLatest, GrantsServed;
    ShutdownKeepsShape(s);
    ShutdownKeepsGrants(s);
  }

  lemma ShutdownKeepsShape(s: Sys)
    requires Base(s) && Enabled(s, Shutdown)
    ensures var r := Take(s, Shutdown); Apart(r) && OneRun(r) && StillOpen(r) && LatestPending(r)
  {
    hide LaunchesLatest, GrantsServed;
  }

  lemma ShutdownKeepsGrants(s: Sys)
    requires Base(s) && Enabled(s, Shutdown)
    ensures LaunchesLatest(Take(s, Shutdown)) && GrantsServed(Take(s, Shutdown))
  {
    hide Apart, LatestPending;
  }

  lemma LeaveKeepsBase(s: Sys)
    requires Base(s) && Enabled(s, Leave)
    ensures Base(Take(s, Leave))
  {}

  lemma LateKeepsBase(s: Sys)
    requires Base(s) && Enabled(s, Late)
    ensures Base(Take(s, Late))
  {}

  lemma StepKeepsBase(s: Sys, t: Step)
    requires Base(s) && Enabled(s, t)
    ensures Base(Take(s, t))
  {
    match t
    case Enter => EnterKeepsBase(s);
    case Request(head) => RequestKeepsBase(s, head);
    case Grant =>
    case Finish(d) => FinishKeepsBase(s, d);
    case Reap =>
    case Shutdown => ShutdownKeepsBase(s);
    case Leave => LeaveKeepsBase(s);
    case Late => LateKeepsBase(s);
  }

  lemma StepKeepsCancels(s: Sys, t: Step)
    requires Inv(s) && Enabled(s, t)
    ensures CancelsSuperseded(Take(s, t))
  {
    hide LaunchesLatest, GrantsServed;
    var r := Take(s, t);
    forall d | d in r.runs && d in r.launches ensures Cancellable(r, d) {
      assert d in s.runs && d in s.launches ==> Cancellable(s, d);
    }
  }

  lemma StepForgetsNone(s: Sys, t: Step)
    requires Base(s) && NoneForgotten(s) && Enabled(s, t)
    ensures NoneForgotten(Take(s, t))
  {
    hide LaunchesLatest, GrantsServed, StillOpen;
    var r := Take(s, t);
    if t.Enter? && s.curDone.None? && s.launchNextRun {
      assert s.nextDone in r.launches && r.launches[s.nextDone].after == |r.requests|;
    } else if s.requests != [] && LaunchedAfter(s, |s.requests|) {
      var d :| d in s.launches && s.launches[d].after == |s.requests|;
      assert d in r.launches && r.launches[d] == s.launches[d];
    }
  }

  lemma StepKeepsInv(s: Sys, t: Step)
    requires Inv(s) && Enabled(s, t)
    ensures Inv(Take(s, t))
  {
    hide Base, CancelsSuperseded, NoneForgotten;
    assert Base(s) && Inv(s);
    StepKeepsBase(s, t);
    StepKeepsCancels(s, t);
    StepForgetsNone(s, t);
  }

  // ---- runs ---------------------------------------------------------------------------------------------------

  ghost predicate Reaches(s: Sys, steps: seq<Step>, r: Sys)
    decreases |steps|
  {
    if steps == [] then s == r else Enabled(s, steps[0]) && Reaches(Take(s, steps[0]), steps[1..], r)
  }

  lemma {:induction false} RunKeepsInv(s: Sys, steps: seq<Step>, r: Sys)
    requires Inv(s) && Reaches(s, steps, r)
    ensures Inv(r)
    decreases |steps|
  {
    if steps != [] {
      StepKeepsInv(s, steps[0]);
      RunKeepsInv(Take(s, steps[0]), steps[1..], r);
    }
  }

  lemma ReachableInv(s: Sys, steps: seq<Step>, r: Sys)
    requires Initial(s) && Reaches(s, steps, r)
    ensures Inv(r)
  {
    assert Inv(s);
    hide Inv, Initial, Reaches;
    RunKeepsInv(s, steps, r);
  }

  /** Over every run of the loop: at most one recheck runs at a time; no channel is closed twice; every launch uses
      the head requested last; and once the loop has exited, every done channel ever handed out is closed. */
  lemma RecheckLoopIsSafe(s: Sys, steps: seq<Step>, r: Sys)
    requires Initial(s) && Reaches(s, steps, r)
    ensures |r.runs| <= 1 && !r.doubleClose
    ensures forall d :: d in r.launches ==>
              0 < r.launches[d].after <= |r.requests| && r.launches[d].head == r.requests[r.launches[d].after - 1]
    ensures r.place.Exited? ==> r.granted.Keys <= r.closed && r.runs == map[]
  {
    hide Initial, Reaches, Take;
    ReachableInv(s, steps, r);
    if r.curDone.Some? && r.curDone.value !in r.closed {
      assert |r.runs.Keys| == |r.runs|;
    }
  }

  /** A caller's channel is closed before the exit only by a recheck launched after the caller's request, for the
      caller's head or a later one. */
  lemma GrantIsServedByLaterRun(s: Sys, steps: seq<Step>, r: Sys, d: Chan)
    requires Initial(s) && Reaches(s, steps, r) && d in r.granted && d in r.closed && !r.place.Exited?
    ensures d in r.launches && r.granted[d] <= r.launches[d].after
    ensures d !in r.runs
  {
    hide Initial, Reaches, Take;
    ReachableInv(s, steps, r);
  }

  /** Whenever the loop waits in its select with no recheck running, the latest request accepted so far has been launched;
      so a request waits only for the recheck that it cancels. */
  lemma IdleMeansLaunched(s: Sys, steps: seq<Step>, r: Sys)
    requires Initial(s) && Reaches(s, steps, r) && r.place.Selecting? && r.requests != []
    ensures r.curDone.None? ==>
              exists d :: d in r.launches && r.launches[d].after == |r.requests| &&
                          r.launches[d].head == r.requests[|r.requests| - 1]
    ensures !LaunchedAfter(r, |r.requests|) ==>
              && r.curDone.Some? && r.curDone.value in r.launches && r.cancelCh.None?
              && r.launches[r.curDone.value].after < |r.requests|
  {
    hide Initial, Reaches, Take;
    ReachableInv(s, steps, r);
    if r.curDone.None? {
      var d :| d in r.launches && r.launches[d].after == |r.requests|;
    }
  }

  /** Taken by the loop, a recheck or a caller that has already sent its request; nobody asks for anything new. */
  predicate Internal(t: Step) { t.Enter? || t.Grant? || t.Finish? || t.Reap? || t.Leave? }

  /** How many steps the launch of the latest request is away, at most. */
  function StepsToLaunch(s: Sys): (n: nat)
    ensures n <= 5
  {
    match s.place
    case Top => if s.curDone.None? then 1 else if s.curDone.value in s.closed then 3 else 4
    case Selecting => if s.curDone.Some? && s.curDone.value !in s.closed then 3 else 2
    case Handing => 5
    case _ => 0
  }

  /** The step that brings a remembered request closer to its launch. */
  function TowardsLaunch(s: Sys): (t: Step)
  {
    match s.place
    case Handing => Grant
    case Selecting => if s.curDone.Some? && s.curDone.value !in s.closed then Finish(s.curDone.value) else Reap
    case _ => Enter
  }

  lemma OneStepCloser(s: Sys)
    requires Inv(s) && s.requests != [] && !s.place.Draining? && !s.place.Exited? && !LaunchedAfter(s, |s.requests|)
    ensures Internal(TowardsLaunch(s)) && Enabled(s, TowardsLaunch(s))
    ensures var r := Take(s, TowardsLaunch(s));
            && r.requests == s.requests && !r.place.Draining? && !r.place.Exited?
            && (LaunchedAfter(r, |r.requests|) || StepsToLaunch(r) < StepsToLaunch(s))
  {
    hide Cancellable, GrantsServed, LaunchesLatest;
    var r := Take(s, TowardsLaunch(s));
    if s.place.Top? && s.curDone.None? {
      assert s.nextDone in r.launches && r.launches[s.nextDone].after == |r.requests|;
    }
  }

  /** The latest request can always be launched: at most five steps of the loop and of the running recheck lead there. */
  lemma {:induction false} LaunchIsNear(s: Sys) returns (more: seq<Step>, r: Sys)
    requires Inv(s) && s.requests != [] && !s.place.Draining? && !s.place.Exited?
    ensures Reaches(s, more, r) && |more| <= StepsToLaunch(s) && forall i :: 0 <= i < |more| ==> Internal(more[i])
    ensures r.requests == s.requests && LaunchedAfter(r, |s.requests|)
    decreases StepsToLaunch(s)
  {
    hide Inv, LaunchedAfter, Take, Enabled;
    if LaunchedAfter(s, |s.requests|) {
      more, r := [], s;
    } else {
      var t := TowardsLaunch(s);
      OneStepCloser(s);
      StepKeepsInv(s, t);
      var rest;
      if LaunchedAfter(Take(s, t), |s.requests|) {
        rest, r := [], Take(s, t);
      } else {
        rest, r := LaunchIsNear(Take(s, t));
      }
      more := [t] + rest;
      assert more[1..] == rest;
    }
  }

  /** Over every run, until shutdown: no request is ever out of reach of its recheck. */
  lemma RequestCanBeLaunched(s: Sys, steps: seq<Step>, r: Sys) returns (more: seq<Step>, q: Sys)
    requires Initial(s) && Reaches(s, steps, r) && r.requests != [] && !r.place.Draining? && !r.place.Exited?
    ensures Reaches(r, more, q) && |more| <= 5 && forall i :: 0 <= i < |more| ==> Internal(more[i])
    ensures q.requests == r.requests && LaunchedAfter(q, |r.requests|)
  {
    hide Inv, LaunchedAfter, Take, Enabled, Initial, Reaches;
    ReachableInv(s, steps, r);
    more, q := LaunchIsNear(r);
  }

  function StepsToExit(s: Sys): (n: nat)
    ensures n <= 5
  {
    match s.place
    case Handing => 5
    case Top => 4
    case Selecting => 3
    case Draining => if s.curDone.Some? && s.curDone.value !in s.closed then 2 else 1
    case Exited => 0
  }

  function TowardsExit(s: Sys): (t: Step)
  {
    match s.place
    case Handing => Grant
    case Top => Enter
    case Selecting => Shutdown
    case _ => if s.curDone.Some? && s.curDone.value !in s.closed then Finish(s.curDone.value) else Leave
  }

  lemma OneStepToExit(s: Sys)
    requires Inv(s) && !s.place.Exited?
    ensures TowardsExit(s).Shutdown? || Internal(TowardsExit(s))
    ensures Enabled(s, TowardsExit(s)) && StepsToExit(Take(s, TowardsExit(s))) < StepsToExit(s)
  {
    hide Cancellable, GrantsServed, LaunchesLatest;
  }

  /** The loop can always be shut down: at most five steps lead to its exit, where every channel handed out is closed. */
  lemma {:induction false} ExitIsNear(s: Sys) returns (more: seq<Step>, r: Sys)
    requires Inv(s)
    ensures Reaches(s, more, r) && |more| <= StepsToExit(s) && r.place.Exited?
    ensures forall i :: 0 <= i < |more| ==> more[i].Shutdown? || Internal(more[i])
    decreases StepsToExit(s)
  {
    hide Inv, Take, Enabled;
    if s.place.Exited? {
      more, r := [], s;
    } else {
      var t := TowardsExit(s);
      OneStepToExit(s);
      StepKeepsInv(s, t);
      var rest;
      rest, r := ExitIsNear(Take(s, t));
      more := [t] + rest;
      assert more[1..] == rest;
    }
  }

  /** A running recheck is told to stop exactly when a request has followed its launch, or the loop is shutting down. */
  lemma CancelledIffSuperseded(s: Sys, steps: seq<Step>, r: Sys, d: Chan)
    requires Initial(s) && Reaches(s, steps, r) && d in r.runs
    ensures d in r.launches && r.runs[d].head == r.launches[d].head
    ensures r.runs[d].cancel in r.closed <==> |r.requests| > r.launches[d].after || r.place.Draining?
  {
    hide Initial, Reaches, Take;
    ReachableInv(s, steps, r);
    assert Cancellable(r, d);
  }
}
