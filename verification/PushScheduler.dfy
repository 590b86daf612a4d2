/**
  The relay's push scheduler (`pushScheduler` in `integrations/alexa-relay/src/app.js`).

  JavaScript runs one piece of code at a time, so a step is what runs between two awaits: a call of
  `schedule`, the continuation after a push has settled, the `finally` callback, an immediate.
  A push may throw at once, fail later or succeed, and logging may itself throw; all of that is
  left open. Each loop that was ever begun and has not run its `finally` is in `loops`.
 */
module PushScheduler {

  datatype Loop = InFlight | Leaving

  datatype Scheduler = Scheduler(running: bool, pending: bool, immediates: nat, loops: seq<Loop>, pushes: nat)

  /** How a push begins: the call returns a promise to await, it throws and that is logged, or logging throws too. */
  datatype Begin = Awaits | Throws | ThrowsTwice

  /** How an awaited push ends: it is reported or its error logged, or the logging of the error throws. */
  datatype End = Handled | Unhandled

  datatype Step =
    | Schedule(begin: Begin)
    | Immediate(begin: Begin)
    | Settle(loop: nat, end: End, begin: Begin)
    | Finally(loop: nat)

  const NEW_SCHEDULER: Scheduler := Scheduler(false, false, 0, [], 0)

  predicate Enabled(s: Scheduler, step: Step) {
    match step
    case Schedule(_) => true
    case Immediate(_) => s.immediates > 0
    case Settle(loop, _, _) => loop < |s.loops| && s.loops[loop] == InFlight
    case Finally(loop) => loop < |s.loops| && s.loops[loop] == Leaving
  }

  /** Where a loop stands once it has called push: a push that throws at once leaves nothing pending. */
  function Begun(begin: Begin): Loop { if begin == Awaits then InFlight else Leaving }

  function Called(s: Scheduler, begin: Begin): Scheduler {
    if s.running then s.(pending := true)
    else s.(pending := false, running := true, loops := s.loops + [Begun(begin)], pushes := s.pushes + 1)
  }

  function Apply(s: Scheduler, step: Step): Scheduler
    requires Enabled(s, step)
  {
    match step
    case Schedule(begin) => Called(s, begin)
    case Immediate(begin) => Called(s.(immediates := s.immediates - 1), begin)
    case Settle(loop, end, begin) =>
      if s.pending && end == Handled
      then s.(pending := false, loops := s.loops[loop := Begun(begin)], pushes := s.pushes + 1)
      else s.(loops := s.loops[loop := Leaving])
    case Finally(loop) =>
      s.(running := false, loops := s.loops[..loop] + s.loops[loop + 1..],
         immediates := if s.pending then s.immediates + 1 else s.immediates)
  }

  ghost predicate CanRun(s: Scheduler, run: seq<Step>)
    decreases |run|
  {
    run == [] || (Enabled(s, run[0]) && CanRun(Apply(s, run[0]), run[1..]))
  }

  ghost function After(s: Scheduler, run: seq<Step>): Scheduler
    requires CanRun(s, run)
    decreases |run|
  {
    if run == [] then s else After(Apply(s, run[0]), run[1..])
  }

  /** A loop is under way exactly when `running` says so; pending work has a loop or an immediate to pick it up. */
  ghost predicate Invariant(s: Scheduler) {
    && |s.loops| == (if s.running then 1 else 0)
    && (s.pending ==> s.running || s.immediates > 0)
  }

  lemma StepKeeps(s: Scheduler, step: Step)
    requires Invariant(s) && Enabled(s, step)
    ensures Invariant(Apply(s, step))
  {}

  lemma {:induction false} RunKeeps(s: Scheduler, run: seq<Step>)
    requires Invariant(s) && CanRun(s, run)
    ensures Invariant(After(s, run))
    decreases |run|
  {
    hide Invariant, Enabled, Apply;
    if run != [] {
      StepKeeps(s, run[0]);
      RunKeeps(Apply(s, run[0]), run[1..]);
    }
  }

  /** At most one push is in flight, in every interleaving. */
  lemma OnePushAtATime(run: seq<Step>, a: nat, b: nat)
    requires CanRun(NEW_SCHEDULER, run)
    requires var s := After(NEW_SCHEDULER, run); a < |s.loops| && b < |s.loops| && s.loops[a] == s.loops[b] == InFlight
    ensures a == b
  {
    RunKeeps(NEW_SCHEDULER, run);
  }

  predicate Quiet(s: Scheduler) { s.loops == [] && s.immediates == 0 }

  /** Pending work always has someone to pick it up. */
  lemma PendingIsPickedUp(run: seq<Step>)
    requires CanRun(NEW_SCHEDULER, run)
    ensures var s := After(NEW_SCHEDULER, run);
            && (s.pending ==> s.loops != [] || s.immediates > 0)
            && (Quiet(s) ==> !s.pending && !s.running)
  {
    RunKeeps(NEW_SCHEDULER, run);
  }

  // ----- no lost wake-up

  lemma {:induction false} Split(s: Scheduler, run: seq<Step>, i: nat)
    requires CanRun(s, run) && i <= |run|
    ensures CanRun(s, run[..i]) && CanRun(After(s, run[..i]), run[i..])
    ensures After(After(s, run[..i]), run[i..]) == After(s, run)
    decreases |run|
  {
    if i == 0 {
      assert run[..0] == [] && run[0..] == run;
    } else {
      Split(Apply(s, run[0]), run[1..], i - 1);
      assert run[1..][..i - 1] == run[..i][1..] && run[1..][i - 1..] == run[i..];
    }
  }

  /** Step `i` of the run calls push, which reads the relay's state at that moment. */
  ghost predicate Reads(run: seq<Step>, i: nat)
    requires CanRun(NEW_SCHEDULER, run) && i < |run|
  {
    Split(NEW_SCHEDULER, run, i);
    Apply(After(NEW_SCHEDULER, run[..i]), run[i]).pushes > After(NEW_SCHEDULER, run[..i]).pushes
  }

  lemma PrefixStep(run: seq<Step>, i: nat)
    requires CanRun(NEW_SCHEDULER, run) && i < |run|
    ensures CanRun(NEW_SCHEDULER, run[..i]) && CanRun(NEW_SCHEDULER, run[..i + 1])
    ensures Enabled(After(NEW_SCHEDULER, run[..i]), run[i])
    ensures After(NEW_SCHEDULER, run[..i + 1]) == Apply(After(NEW_SCHEDULER, run[..i]), run[i])
  {
    Split(NEW_SCHEDULER, run, i);
    Split(NEW_SCHEDULER, run, i + 1);
    Split(NEW_SCHEDULER, run[..i + 1], i);
    var s := After(NEW_SCHEDULER, run[..i]);
    assert run[..i + 1][..i] == run[..i] && run[..i + 1][i..] == [run[i]];
    assert run[i..][0] == run[i] && [run[i]][1..] == [];
    assert After(Apply(s, run[i]), []) == Apply(s, run[i]);
  }

  /** Only a push takes the pending mark away. */
  lemma PendingStays(s: Scheduler, step: Step)
    requires Enabled(s, step) && Apply(s, step).pushes == s.pushes
    ensures s.pending || step.Schedule? ==> Apply(s, step).pending
  {}

  lemma PushesGrow(s: Scheduler, step: Step)
    requires Enabled(s, step)
    ensures Apply(s, step).pushes >= s.pushes
  {}

  lemma {:induction false} StillPending(run: seq<Step>, i: nat, k: nat)
    requires CanRun(NEW_SCHEDULER, run) && i < k <= |run| && run[i].Schedule?
    requires forall j :: i <= j < |run| ==> !Reads(run, j)
    ensures CanRun(NEW_SCHEDULER, run[..k]) && After(NEW_SCHEDULER, run[..k]).pending
    decreases k
  {
    hide Apply, CanRun, After;
    PrefixStep(run, k - 1);
    var s, step := After(NEW_SCHEDULER, run[..k - 1]), run[k - 1];
    assert !Reads(run, k - 1);
    PushesGrow(s, step);
    PendingStays(s, step);
    if i < k - 1 {
      StillPending(run, i, k - 1);
    }
  }

  /**
    No lost wake-up: when a run ends with nothing under way and nothing queued, every call of
    `schedule` in it is followed (or answered on the spot) by a push that reads the state then,
    however pushes and logging failed in between.
   */
  lemma NoLostWakeup(run: seq<Step>, i: nat)
    requires CanRun(NEW_SCHEDULER, run) && i < |run| && run[i].Schedule?
    requires Quiet(After(NEW_SCHEDULER, run))
    ensures exists j :: i <= j < |run| && Reads(run, j)
  {
    PendingIsPickedUp(run);
    hide Apply, After, CanRun, Reads;
    assert run[..|run|] == run;
    if forall j :: i <= j < |run| ==> !Reads(run, j) {
      StillPending(run, i, |run|);
    }
  }

  // ----- it gets there

  function Weight(loops: seq<Loop>): nat {
    if loops == [] then 0 else if loops[0] == InFlight then 3 else 2
  }

  function Work(s: Scheduler): nat {
    (if s.running && s.pending then 10 else 0) + 11 * s.immediates + Weight(s.loops)
  }

  /** Until all is quiet some step of the scheduler's own can be taken, and each leaves less to do. */
  lemma QuietsDown(run: seq<Step>)
    requires CanRun(NEW_SCHEDULER, run)
    ensures var s := After(NEW_SCHEDULER, run);
            && (forall step :: Enabled(s, step) && !step.Schedule? ==> Work(Apply(s, step)) < Work(s))
            && (Quiet(s) <==> forall step :: Enabled(s, step) ==> step.Schedule?)
  {
    RunKeeps(NEW_SCHEDULER, run);
    var s := After(NEW_SCHEDULER, run);
    hide CanRun, After;
    forall step | Enabled(s, step) && !step.Schedule? ensures Work(Apply(s, step)) < Work(s) {
      LessWork(s, step);
    }
    if s.immediates > 0 {
      assert Enabled(s, Immediate(Awaits));
    } else if s.loops != [] {
      assert Enabled(s, Settle(0, Handled, Awaits)) || Enabled(s, Finally(0));
    }
  }

  lemma LessWork(s: Scheduler, step: Step)
    requires Invariant(s) && Enabled(s, step) && !step.Schedule?
    ensures Work(Apply(s, step)) < Work(s)
  {}

  // ----- how many pushes there are

  function Asked(run: seq<Step>): nat {
    if run == [] then 0 else (if run[0].Schedule? then 1 else 0) + Asked(run[1..])
  }

  /** Pushes made, and those that are bound to follow. */
  function Due(s: Scheduler): nat { s.pushes + s.immediates + if s.running && s.pending then 1 else 0 }

  lemma {:induction false} DueWhenAsked(s: Scheduler, run: seq<Step>)
    requires Invariant(s) && CanRun(s, run)
    ensures s.pushes <= After(s, run).pushes && Due(After(s, run)) <= Due(s) + Asked(run)
    decreases |run|
  {
    if run != [] {
      DueStep(s, run[0]);
      StepKeeps(s, run[0]);
      hide Invariant, Due, Apply, Enabled;
      DueWhenAsked(Apply(s, run[0]), run[1..]);
    }
  }

  lemma DueStep(s: Scheduler, step: Step)
    requires Invariant(s) && Enabled(s, step)
    ensures s.pushes <= Apply(s, step).pushes && Due(Apply(s, step)) <= Due(s) + if step.Schedule? then 1 else 0
  {}

  /** There are never more pushes than calls of `schedule`. */
  lemma NoPushUnasked(run: seq<Step>)
    requires CanRun(NEW_SCHEDULER, run)
    ensures After(NEW_SCHEDULER, run).pushes <= Asked(run)
  {
    DueWhenAsked(NEW_SCHEDULER, run);
  }

  function BeginOf(step: Step): Begin
    requires !step.Finally?
  {
    step.begin
  }

  /** The step calls push and gets a promise to await. */
  predicate Opens(s: Scheduler, step: Step)
    requires Enabled(s, step)
  {
    Apply(s, step).pushes > s.pushes && !step.Finally? && BeginOf(step) == Awaits
  }

  /** The promises handed out in a run, less those that have settled. */
  ghost function Unsettled(s: Scheduler, run: seq<Step>): int
    requires CanRun(s, run)
    decreases |run|
  {
    if run == [] then 0
    else
      (if Opens(s, run[0]) then 1 else 0) - (if run[0].Settle? then 1 else 0)
      + Unsettled(Apply(s, run[0]), run[1..])
  }

  function InFlights(loops: seq<Loop>): nat {
    if loops == [] then 0 else (if loops[0] == InFlight then 1 else 0) + InFlights(loops[1..])
  }

  lemma InFlightStep(s: Scheduler, step: Step)
    requires Invariant(s) && Enabled(s, step)
    ensures InFlights(Apply(s, step).loops)
            == InFlights(s.loops) + (if Opens(s, step) then 1 else 0) - (if step.Settle? then 1 else 0)
    ensures InFlights(s.loops) <= 1
  {
    assert |s.loops| == 1 ==> s.loops == [s.loops[0]] && s.loops[1..] == [];
    assert |Apply(s, step).loops| == 1 ==> Apply(s, step).loops == [Apply(s, step).loops[0]] && Apply(s, step).loops[1..] == [];
  }

  lemma {:induction false} UnsettledAreInFlight(s: Scheduler, run: seq<Step>)
    requires Invariant(s) && CanRun(s, run)
    ensures InFlights(After(s, run).loops) == InFlights(s.loops) + Unsettled(s, run)
    ensures Invariant(After(s, run))
    decreases |run|
  {
    if run != [] {
      InFlightStep(s, run[0]);
      StepKeeps(s, run[0]);
      hide Invariant, Enabled, Apply, InFlights, Opens;
      UnsettledAreInFlight(Apply(s, run[0]), run[1..]);
    }
  }

  /** No push is begun while the promise of an earlier one has not settled. */
  lemma NeverTwoUnsettled(run: seq<Step>)
    requires CanRun(NEW_SCHEDULER, run)
    ensures 0 <= Unsettled(NEW_SCHEDULER, run) <= 1
  {
    UnsettledAreInFlight(NEW_SCHEDULER, run);
    var s := After(NEW_SCHEDULER, run);
    hide CanRun, After, Unsettled;
    assert |s.loops| == 1 ==> s.loops == [s.loops[0]] && s.loops[1..] == [];
  }

  function Calls(begins: seq<Begin>): (run: seq<Step>)
    ensures |run| == |begins| && forall i :: 0 <= i < |run| ==> run[i] == Schedule(begins[i])
  {
    seq(|begins|, i requires 0 <= i < |begins| => Schedule(begins[i]))
  }

  lemma {:induction false} CallsWhileRunning(s: Scheduler, begins: seq<Begin>, last: Step)
    requires s.running && Enabled(s.(pending := s.pending || begins != []), last)
    ensures var run, t := Calls(begins) + [last], s.(pending := s.pending || begins != []);
            CanRun(s, run) && After(s, run) == Apply(t, last)
    decreases |begins|
  {
    var run := Calls(begins) + [last];
    if begins == [] {
      assert run == [last] && run[1..] == [];
      assert CanRun(Apply(s, last), []) && After(Apply(s, last), []) == Apply(s, last);
    } else {
      assert run[0] == Schedule(begins[0]) && run[1..] == Calls(begins[1..]) + [last];
      CallsWhileRunning(s.(pending := true), begins[1..], last);
    }
  }

  /** Any number of calls during a push come to one more push when it is done, and leave nothing pending. */
  lemma CallsAreCoalesced(s: Scheduler, begins: seq<Begin>, begin: Begin)
    requires Invariant(s) && s.loops == [InFlight] && begins != []
    ensures var run := Calls(begins) + [Settle(0, Handled, begin)];
            && CanRun(s, run)
            && After(s, run) == s.(pending := false, loops := [if begin == Awaits then InFlight else Leaving], pushes := s.pushes + 1)
  {
    CallsWhileRunning(s, begins, Settle(0, Handled, begin));
  }

  /** A call at rest makes one push, and if nothing else is asked for all is at rest again after it. */
  lemma OneCallOnePush(s: Scheduler, end: End, begin: Begin)
    requires Invariant(s) && Quiet(s)
    ensures var run := [Schedule(Awaits), Settle(0, end, begin), Finally(0)];
            CanRun(s, run) && After(s, run) == s.(pushes := s.pushes + 1)
  {
    var run := [Schedule(Awaits), Settle(0, end, begin), Finally(0)];
    var a := Apply(s, run[0]);
    var b := Apply(a, run[1]);
    var c := Apply(b, run[2]);
    assert run[1..][0] == run[1] && run[1..][1..] == run[2..] && run[2..][0] == run[2] && run[2..][1..] == [];
    assert CanRun(c, []) && After(c, []) == c;
    assert CanRun(b, run[2..]) && After(b, run[2..]) == c;
    assert CanRun(a, run[1..]) && After(a, run[1..]) == c;
  }

  /** When even the logging of an error throws, the loop ends without another push, and what is pending is queued. */
  lemma ThrowingEndsTheLoop(s: Scheduler, begin: Begin)
    requires Invariant(s) && s.loops == [InFlight]
    ensures var run := [Settle(0, Unhandled, begin), Finally(0)];
            && CanRun(s, run)
            && After(s, run) == s.(running := false, loops := [], immediates := s.immediates + if s.pending then 1 else 0)
  {
    var run := [Settle(0, Unhandled, begin), Finally(0)];
    var a := Apply(s, run[0]);
    var b := Apply(a, run[1]);
    assert run[1..][0] == run[1] && run[1..][1..] == [];
    assert CanRun(b, []) && After(b, []) == b;
    assert CanRun(a, run[1..]) && After(a, run[1..]) == b;
  }
}
