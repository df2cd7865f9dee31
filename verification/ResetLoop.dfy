/** The transaction pool's event loop: at most one subpool reset at a time, and Sync waiters. */
module ResetLoop {
  import opened Basics

  type Header = nat

  type Waiter = nat

  /** A reset from one head to another, with the number of heads announced before its launch. */
  datatype Reset = Reset(oldHead: Header, newHead: Header, after: nat)

  datatype Answer = Done(reset: nat) | Terminated

  datatype Place = Top | Selecting | Exited

  datatype Sys = Sys(
    place: Place,
    oldHead: Header,
    newHead: Header,
    heads: seq<Header>,                // the head at the start and every head announced since
    resetForced: bool,
    resetWaiter: Option<Waiter>,
    busy: bool,                        // the token in resetBusy
    running: set<nat>,                 // reset goroutines that have not reported yet, by launch number
    launched: seq<Reset>,              // every reset launched, in order
    asked: map<Waiter, nat>,           // every Sync request accepted, with the number of launches before it
    answers: map<Waiter, Answer>,
    answeredTwice: bool,
    displaced: set<Waiter>)            // waiters that a later Sync request pushed out

  predicate Initial(s: Sys)
  {
    && s.place == Top && s.newHead == s.oldHead && s.heads == [s.oldHead] && !s.resetForced && s.resetWaiter.None? && !s.busy
    && s.running == {} && s.launched == [] && s.asked == map[] && s.answers == map[] && !s.answeredTwice
    && s.displaced == {}
  }

  datatype Step =
    | Enter                            // top of the loop: launch a reset if one is needed and none is running
    | ChainHead(head: Header)          // a new head arrives
    | Report(reset: nat)               // a reset goroutine reports completion to the loop
    | Sync(waiter: Waiter)             // a forced reset is requested
    | Quit                             // the pool is closed
    | Abandon(reset: nat)              // a reset goroutine finds the loop gone

  predicate Enabled(s: Sys, t: Step)
  {
    match t
    case Enter => s.place.Top?
    case ChainHead(_) => s.place.Selecting?
    case Report(i) => s.place.Selecting? && i in s.running
    case Sync(w) => s.place.Selecting? && w !in s.asked
    case Quit => s.place.Selecting?
    case Abandon(i) => s.place.Exited? && i in s.running
  }

  function Reply(s: Sys, a: Answer): (r: Sys)
  {
    if s.resetWaiter.None? then s
    else
      var w := s.resetWaiter.value;
      s.(answers := s.answers[w := a], answeredTwice := s.answeredTwice || w in s.answers, resetWaiter := None)
  }

  function HeadOf(s: Sys, i: nat): (h: Header) { if i < |s.launched| then s.launched[i].newHead else s.oldHead }

  function Take(s: Sys, t: Step): (r: Sys)
    requires Enabled(s, t)
  {
    match t
    case Enter =>
      if (s.newHead != s.oldHead || s.resetForced) && !s.busy then
        s.(place := Selecting, busy := true, running := s.running + {|s.launched|},
           launched := s.launched + [Reset(s.oldHead, s.newHead, |s.heads|)], resetForced := false)
      else s.(place := Selecting)
    case ChainHead(head) => s.(place := Top, newHead := head, heads := s.heads + [head])
    case Report(i) =>
      var c := s.(place := Top, oldHead := HeadOf(s, i), busy := false, running := s.running - {i});
      if s.resetWaiter.Some? && !s.resetForced then Reply(c, Done(i)) else c
    case Sync(w) =>
      s.(place := Top, resetForced := true, resetWaiter := Some(w), asked := s.asked[w := |s.launched|],
         displaced := if s.resetWaiter.Some? then s.displaced + {s.resetWaiter.value} else s.displaced)
    case Quit => Reply(s, Terminated).(place := Exited)
    case Abandon(i) => s.(running := s.running - {i})
  }

  // ---- the invariant ------------------------------------------------------------------------------------------

  /** Each reset starts at the head where the one before it ended. */
  ghost predicate Chained(head: Header, launched: seq<Reset>)
  {
    forall i :: 0 <= i < |launched| ==> StartsAtPrevious(head, launched, i)
  }

  predicate StartsAtPrevious(head: Header, launched: seq<Reset>, i: nat)
    requires i < |launched|
  {
    launched[i].oldHead == if i == 0 then head else launched[i - 1].newHead
  }

  /** The token is out exactly while the latest launch has not reported; then the old head is still its start,
      otherwise it is where the latest launch ended. */
  ghost predicate OneReset(s: Sys, head: Header)
  {
    && Chained(head, s.launched)
    && (s.place.Exited? ==> s.running <= {|s.launched| - 1})
    && (!s.place.Exited? && s.busy ==> |s.launched| > 0 && s.running == {|s.launched| - 1})
    && (!s.place.Exited? && !s.busy ==>
          s.running == {} && s.oldHead == if s.launched == [] then head else s.launched[|s.launched| - 1].newHead)
  }

  /** Every waiter is waiting, answered or displaced, and exactly one of these. */
  ghost predicate Accounted(s: Sys)
  {
    && !s.answeredTwice
    && s.answers.Keys !! s.displaced
    && (s.resetWaiter.Some? ==> s.resetWaiter.value !in s.answers && s.resetWaiter.value !in s.displaced)
    && s.asked.Keys == s.answers.Keys + s.displaced + (if s.resetWaiter.Some? then {s.resetWaiter.value} else {})
    && (s.place.Exited? ==> s.resetWaiter.None?)
  }

  /** A waiter whose forced reset has been launched waits for a reset launched after its request. */
  ghost predicate ServedLater(s: Sys)
  {
    && (s.resetWaiter.Some? && s.resetWaiter.value in s.asked ==>
          && s.asked[s.resetWaiter.value] <= |s.launched|
          && (!s.resetForced ==> s.asked[s.resetWaiter.value] < |s.launched|))
    && (forall w :: w in s.answers && s.answers[w].Done? && w in s.asked ==>
          s.asked[w] <= s.answers[w].reset < |s.launched| && s.answers[w].reset !in s.running)
  }

  /** Every reset goes to the latest head announced before its launch. */
  ghost predicate ToLatest(s: Sys)
  {
    && s.heads != [] && s.newHead == s.heads[|s.heads| - 1]
    && forall i :: 0 <= i < |s.launched| ==>
         0 < s.launched[i].after <= |s.heads| && s.launched[i].newHead == s.heads[s.launched[i].after - 1]
  }

  /** The loop does not wait without a running reset while one is needed, nor a waiter without one that will answer. */
  ghost predicate NoneForgotten(s: Sys)
  {
    && (s.place.Selecting? && !s.busy ==> s.newHead == s.oldHead && !s.resetForced)
    && (!s.place.Exited? && s.resetWaiter.Some? && !s.resetForced ==> s.busy)
  }

  ghost predicate Inv(s: Sys, head: Header)
  {
    OneReset(s, head) && Accounted(s) && ServedLater(s) && ToLatest(s) && NoneForgotten(s)
  }

  lemma EnterKeepsInv(s: Sys, head: Header)
    requires Inv(s, head) && Enabled(s, Enter)
    ensures Inv(Take(s, Enter), head)
  {
    var n := Take(s, Enter);
    forall i | 0 <= i < |n.launched| ensures StartsAtPrevious(head, n.launched, i) {
      if i < |s.launched| { assert StartsAtPrevious(head, s.launched, i); }
    }
  }

  lemma ReportKeepsInv(s: Sys, head: Header, i: nat)
    requires Inv(s, head) && Enabled(s, Report(i))
    ensures Inv(Take(s, Report(i)), head)
  {}

  lemma SyncKeepsInv(s: Sys, head: Header, w: Waiter)
    requires Inv(s, head) && Enabled(s, Sync(w))
    ensures Inv(Take(s, Sync(w)), head)
  {}

  lemma StepKeepsInv(s: Sys, head: Header, t: Step)
    requires Inv(s, head) && Enabled(s, t)
    ensures Inv(Take(s, t), head)
  {
    match t
    case Enter => EnterKeepsInv(s, head);
    case ChainHead(_) =>
    case Report(i) => ReportKeepsInv(s, head, i);
    case Sync(w) => SyncKeepsInv(s, head, w);
    case Quit =>
    case Abandon(_) =>
  }

  // ---- runs -------------------------------------------------------------------------------------------------------

  ghost predicate Reaches(s: Sys, steps: seq<Step>, r: Sys)
    decreases |steps|
  {
    if steps == [] then s == r else Enabled(s, steps[0]) && Reaches(Take(s, steps[0]), steps[1..], r)
  }

  lemma {:induction false} RunKeepsInv(s: Sys, head: Header, steps: seq<Step>, r: Sys)
    requires Inv(s, head) && Reaches(s, steps, r)
    ensures Inv(r, head)
    decreases |steps|
  {
    if steps != [] {
      StepKeepsInv(s, head, steps[0]);
      RunKeepsInv(Take(s, steps[0]), head, steps[1..], r);
    }
  }

  /** Over every run: resets never overlap, and each goes from the head at which the previous one ended to the latest head
      announced before its launch. */
  lemma ResetsAreSequential(s: Sys, steps: seq<Step>, r: Sys)
    requires Initial(s) && Reaches(s, steps, r)
    ensures |r.running| <= 1 && Chained(s.oldHead, r.launched)
    ensures forall i :: 0 <= i < |r.launched| ==>
              0 < r.launched[i].after <= |r.heads| && r.launched[i].newHead == r.heads[r.launched[i].after - 1]
  {
    RunKeepsInv(s, s.oldHead, steps, r);
    if |r.launched| > 0 {
      SubsetOfOne(r.running, |r.launched| - 1);
    }
  }

  lemma SubsetOfOne(a: set<nat>, x: nat)
    requires a <= {x}
    ensures |a| <= 1
  {
    if x in a { assert a == {x}; } else { assert a == {}; }
  }

  /** Over every run: a waiter that no later Sync displaced is either still waiting or answered, never twice; the
      success answer names a completed reset that was launched after the request; after the exit it has its answer. */
  lemma WaiterIsAnswered(s: Sys, steps: seq<Step>, r: Sys, w: Waiter)
    requires Initial(s) && Reaches(s, steps, r) && w in r.asked && w !in r.displaced
    ensures !r.answeredTwice
    ensures w in r.answers || r.resetWaiter == Some(w)
    ensures w in r.answers && r.answers[w].Done? ==>
              r.asked[w] <= r.answers[w].reset < |r.launched| && r.answers[w].reset !in r.running
    ensures r.place.Exited? ==> w in r.answers
  {
    RunKeepsInv(s, s.oldHead, steps, r);
  }

  /** Over every run: when the loop waits and no reset is running, the pool is at the latest head, and every waiter that was
      not displaced has been told so. */
  lemma IdleIsCaughtUp(s: Sys, steps: seq<Step>, r: Sys)
    requires Initial(s) && Reaches(s, steps, r) && r.place.Selecting? && r.running == {}
    ensures r.heads != [] && r.oldHead == r.heads[|r.heads| - 1]
    ensures r.oldHead == if r.launched == [] then s.oldHead else r.launched[|r.launched| - 1].newHead
    ensures forall w :: w in r.asked && w !in r.displaced ==> w in r.answers
  {
    RunKeepsInv(s, s.oldHead, steps, r);
  }

  /** The head at which the pool will be when the running reset, if any, has reported. */
  function ComingHead(s: Sys): (h: Header)
  {
    if s.busy && s.launched != [] then s.launched[|s.launched| - 1].newHead else s.oldHead
  }

  /** How many steps it takes, at most, until the loop waits with no reset running. */
  function StepsToIdle(s: Sys): (n: nat)
    ensures n <= 5
  {
    var needed := s.newHead != ComingHead(s) || s.resetForced;
    match s.place
    case Exited => 0
    case Top => if s.busy then (if needed then 5 else 3) else (if needed then 3 else 1)
    case Selecting => if s.busy then (if needed then 4 else 2) else 0
  }

  lemma OneStepToIdle(s: Sys, head: Header)
    requires Inv(s, head) && !s.place.Exited? && !(s.place.Selecting? && !s.busy)
    ensures var t := if s.place.Top? then Enter else Report(|s.launched| - 1);
            && Enabled(s, t) && StepsToIdle(Take(s, t)) < StepsToIdle(s)
            && !Take(s, t).place.Exited? && Take(s, t).heads == s.heads
  {
    assert s.busy ==> |s.launched| > 0;
  }

  /** The loop can always catch up: at most five steps, launches and reports alone, lead to where it waits idle. */
  lemma {:induction false} IdleIsNear(s: Sys, head: Header) returns (more: seq<Step>, r: Sys)
    requires Inv(s, head) && !s.place.Exited?
    ensures Reaches(s, more, r) && |more| <= StepsToIdle(s)
    ensures forall i :: 0 <= i < |more| ==> more[i].Enter? || more[i].Report?
    ensures r.place.Selecting? && !r.busy && r.heads == s.heads
    decreases StepsToIdle(s)
  {
    if s.place.Selecting? && !s.busy {
      more, r := [], s;
    } else {
      OneStepToIdle(s, head);
      hide Inv, Take, Enabled, StepsToIdle;
      var t := if s.place.Top? then Enter else Report(|s.launched| - 1);
      StepKeepsInv(s, head, t);
      var rest;
      rest, r := IdleIsNear(Take(s, t), head);
      more := [t] + rest;
      assert more[1..] == rest;
    }
  }

  /** Over every run: once the pool is closed, a reset that is still running ends by itself, and then none is left. */
  lemma ExitEndsResets(s: Sys, steps: seq<Step>, r: Sys, i: nat)
    requires Initial(s) && Reaches(s, steps, r) && r.place.Exited? && i in r.running
    ensures Enabled(r, Abandon(i)) && Take(r, Abandon(i)) == r.(running := {})
  {
    RunKeepsInv(s, s.oldHead, steps, r);
    assert r.running == {i};
  }

  /** A displaced waiter is never answered: with two outstanding requests the first one hangs. */
  lemma DisplacedIsNeverAnswered(s: Sys, steps: seq<Step>, r: Sys, w: Waiter)
    requires Initial(s) && Reaches(s, steps, r) && w in r.displaced
    ensures w in r.asked && w !in r.answers && r.resetWaiter != Some(w)
  {
    RunKeepsInv(s, s.oldHead, steps, r);
  }

  /** Requests that are made one at a time displace nobody. */
  ghost predicate OneAtATime(s: Sys, steps: seq<Step>)
    decreases |steps|
  {
    steps == [] ||
    (Enabled(s, steps[0]) && (steps[0].Sync? ==> s.resetWaiter.None?) && OneAtATime(Take(s, steps[0]), steps[1..]))
  }

  /** Nobody is displaced exactly when no Sync request is made while another waiter is outstanding. */
  lemma {:induction false} DisplacedIff(s: Sys, head: Header, steps: seq<Step>, r: Sys)
    requires Inv(s, head) && Reaches(s, steps, r)
    ensures s.displaced <= r.displaced
    ensures r.displaced == s.displaced <==> OneAtATime(s, steps)
    decreases |steps|
  {
    if steps != [] {
      var n := Take(s, steps[0]);
      StepKeepsInv(s, head, steps[0]);
      DisplacedIff(n, head, steps[1..], r);
      if steps[0].Sync? && s.resetWaiter.Some? {
        assert s.resetWaiter.value in n.displaced;
      }
    }
  }

  /** Two requests before the first forced reset completes: the first caller is displaced. */
  lemma SecondSyncDisplaces(s: Sys)
    requires Initial(s)
    ensures exists r :: Reaches(s, [Enter, Sync(0), Enter, Sync(1)], r) && 0 in r.displaced && 0 !in r.answers
  {
    var a := Take(s, Enter);
    var b := Take(a, Sync(0));
    var c := Take(b, Enter);
    var d := Take(c, Sync(1));
    assert Reaches(d, [], d);
    assert Reaches(c, [Sync(1)], d) by { assert [Sync(1)][1..] == []; }
    assert Reaches(b, [Enter, Sync(1)], d) by { assert [Enter, Sync(1)][1..] == [Sync(1)]; }
    assert Reaches(a, [Sync(0), Enter, Sync(1)], d) by { assert [Sync(0), Enter, Sync(1)][1..] == [Enter, Sync(1)]; }
    assert [Enter, Sync(0), Enter, Sync(1)][1..] == [Sync(0), Enter, Sync(1)];
    assert Reaches(s, [Enter, Sync(0), Enter, Sync(1)], d);
  }
}
