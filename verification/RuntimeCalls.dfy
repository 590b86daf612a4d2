/**
  What calls come to: applying settings starts what the call under way asked for, in every interleaving;
  and whole calls of applying, stopping and cancelling, step by step.
 */
module RuntimeCalls {
  import opened Common
  import opened Runtime

  lemma {:induction false} LastStep(s: Runtime, run: seq<Step>)
    requires CanRun(s, run) && run != []
    ensures var n := |run| - 1;
            CanRun(s, run[..n]) && Enabled(After(s, run[..n]), run[n]) && After(s, run) == Apply(After(s, run[..n]), run[n])
    decreases |run|
  {
    hide Enabled, Apply;
    var n := |run| - 1;
    if n == 0 {
      assert run[..0] == [] && CanRun(Apply(s, run[0]), run[1..]) && run[1..] == [];
    } else {
      LastStep(Apply(s, run[0]), run[1..]);
      assert run[1..][..n - 1] == run[..n][1..] && run[..n][0] == run[0];
    }
  }

  datatype Asked = Asked(collector: nat, settings: nat)

  /** What the latest call to apply settings asked for. */
  function LastAsked(run: seq<Step>): Option<Asked> {
    if run == [] then None
    else
      match run[|run| - 1]
      case ToApply(BeginApply(collector, settings)) => Some(Asked(collector, settings))
      case _ => LastAsked(run[..|run| - 1])
  }

  function PendingIn(phase: Phase): Option<Asked> {
    match phase
    case Applying(c, x) => Some(Asked(c, x))
    case Cancelling(c, x, _) => Some(Asked(c, x))
    case Waiting(c, x, _) => Some(Asked(c, x))
    case Persisting(c, x, _) => Some(Asked(c, x))
    case Checking(c, x) => Some(Asked(c, x))
    case Launching(c, x) => Some(Asked(c, x))
    case _ => None
  }

  lemma ApplyPending(s: Runtime, step: ApplyStep)
    requires ApplyEnabled(s, step)
    ensures var pending := PendingIn(ApplyStepped(s, step).phase);
            pending.Some? ==>
              match step
              case BeginApply(c, x) => pending == Some(Asked(c, x))
              case _ => pending == PendingIn(s.phase)
  {
    hide OldOf, CancelTask, Launched;
    match step
    case Launch(id) =>
      if s.phase.Launching? {
        LaunchedIsIdle(s, id, s.phase.collector, s.phase.settings);
      } else {
        LaunchedIsIdle(s, id, s.phase.prior.collector, s.phase.prior.settings);
      }
    case _ =>
  }

  lemma LaunchedIsIdle(s: Runtime, id: nat, collector: nat, settings: nat)
    ensures Launched(s, id, collector, settings).phase == Idle
  {}

  lemma StopPending(s: Runtime, step: StopStep)
    requires StopEnabled(s, step)
    ensures PendingIn(StopStepped(s, step).phase) == None
  {
    hide Cancelled;
  }

  lemma CallPhase(s: Runtime, caller: nat, step: CallerStep)
    requires CallEnabled(s, caller, step)
    ensures CallStepped(s, caller, step).phase == s.phase
  {
    hide Cancelled;
  }

  lemma PendingStep(s: Runtime, step: Step)
    requires Enabled(s, step)
    ensures var pending := PendingIn(Apply(s, step).phase);
            pending.Some? ==>
              match step
              case ToApply(BeginApply(c, x)) => pending == Some(Asked(c, x))
              case _ => pending == PendingIn(s.phase)
  {
    hide ApplyStepped, StopStepped, CallStepped, PendingIn, ApplyEnabled, StopEnabled, CallEnabled, TaskEnabled;
    match step
    case Around(_) =>
    case ToApply(apply) => ApplyPending(s, apply);
    case ToStop(stop) => StopPending(s, stop);
    case Goroutine(_, _) =>
    case Call(caller, call) => CallPhase(s, caller, call);
  }

  /** Until it has launched, whatever happens meanwhile, a call goes on with what it was asked for. */
  lemma {:induction false} PendingIsLastAsked(run: seq<Step>)
    requires CanRun(NEW_RUNTIME, run) && PendingIn(After(NEW_RUNTIME, run).phase).Some?
    ensures LastAsked(run) == PendingIn(After(NEW_RUNTIME, run).phase)
    decreases |run|
  {
    if run != [] {
      LastStep(NEW_RUNTIME, run);
      var n := |run| - 1;
      PendingStep(After(NEW_RUNTIME, run[..n]), run[n]);
      hide Enabled, Apply, After, CanRun;
      if PendingIn(After(NEW_RUNTIME, run[..n]).phase).Some? {
        PendingIsLastAsked(run[..n]);
      }
    }
  }

  /** From `s` to `t` one goroutine is started, under the present gate and context, and recorded. */
  ghost predicate StartsCollector(s: Runtime, t: Runtime, id: nat, asked: Asked) {
    && t.tasks == s.tasks[id := Task(asked.collector, asked.settings, s.startGate, s.rootCancelled, false, Starting)]
    && t.recorded == Some(id) && t.active == Some(asked.settings) && t.phase == Idle
    && t.started && t.startGate == s.startGate && t.released == s.released && t.callers == s.callers
  }

  /**
    When persisting succeeds, what is started is what the call asked for, under its settings, whether or not
    a collector ran before; and nothing else is live.
   */
  lemma SucceededPersistLaunches(run: seq<Step>, id: nat)
    requires CanRun(NEW_RUNTIME, run)
    requires var s := After(NEW_RUNTIME, run); s.phase.Persisting? && s.started && id !in s.tasks
    ensures LastAsked(run).Some? && NoneLive(After(NEW_RUNTIME, run))
    ensures var s := After(NEW_RUNTIME, run);
            && ApplyEnabled(s, Persist(true))
            && var saved := ApplyStepped(s, Persist(true));
            && ApplyEnabled(saved, Check)
            && var checked := ApplyStepped(saved, Check);
            && ApplyEnabled(checked, Launch(id))
            && StartsCollector(s, ApplyStepped(checked, Launch(id)), id, LastAsked(run).value)
  {
    PendingIsLastAsked(run);
    Reachable(run);
    hide After, CanRun, Live;
  }

  /** The same for any moment at which a call is about to launch, whatever happened since it persisted. */
  lemma LaunchStartsWhatWasAsked(run: seq<Step>, id: nat)
    requires CanRun(NEW_RUNTIME, run) && ApplyEnabled(After(NEW_RUNTIME, run), Launch(id))
    requires After(NEW_RUNTIME, run).phase.Launching?
    ensures LastAsked(run).Some?
    ensures var s := After(NEW_RUNTIME, run);
            var t := ApplyStepped(s, Launch(id));
            if s.started then StartsCollector(s, t, id, LastAsked(run).value) else t == s.(phase := Idle)
  {
    PendingIsLastAsked(run);
    hide After, CanRun;
  }

  // ----- whole calls

  lemma NoStep(s: Runtime)
    ensures CanRun(s, []) && After(s, []) == s
  {}

  /** A collector is recorded, in `Run`, and not cancelled; nobody applies or stops. */
  ghost predicate RunsCollector(s: Runtime, id: nat) {
    && s.phase.Idle? && s.started && s.recorded == Some(id) && id in s.tasks
    && s.tasks[id].stage.Running? && !s.tasks[id].cancelled && s.active == Some(s.tasks[id].settings)
  }

  /** The same, with that collector cancelled and its done channel closed. */
  function WithEnded(s: Runtime, id: nat): Runtime
    requires id in s.tasks
  {
    s.(tasks := s.tasks[id := s.tasks[id].(cancelled := true, stage := Closed)])
  }

  /** A collector leaves `Run` and closes its done channel. */
  lemma ThenEnds(s: Runtime, run: seq<Step>, id: nat) returns (more: seq<Step>)
    requires CanRun(s, run) && id in After(s, run).tasks && After(s, run).tasks[id].stage.Running?
    ensures more == run + [Goroutine(id, Finish), Goroutine(id, CloseDone)] && CanRun(s, more)
    ensures var t := After(s, run);
            After(s, more) == t.(tasks := t.tasks[id := t.tasks[id].(stage := Closed)])
  {
    hide CanRun, After;
    more := Then(s, run, Goroutine(id, Finish));
    more := Then(s, more, Goroutine(id, CloseDone));
  }

  /** Applying settings up to saving them: the collector that runs is cancelled, ends and is waited for. */
  lemma ApplyEndsOld(s: Runtime, prior: nat, asked: Asked) returns (run: seq<Step>)
    requires RunsCollector(s, prior)
    ensures run == [ToApply(BeginApply(asked.collector, asked.settings)), ToApply(ReadOld), ToApply(CancelOld),
                    Goroutine(prior, Finish), Goroutine(prior, CloseDone), ToApply(OldEnded)]
    ensures CanRun(s, run)
    ensures After(s, run)
            == WithEnded(s, prior).(phase := Persisting(asked.collector, asked.settings,
                                                      Some(Old(prior, s.tasks[prior].collector, s.tasks[prior].settings))))
  {
    hide CanRun, After;
    NoStep(s);
    run := Then(s, [], ToApply(BeginApply(asked.collector, asked.settings)));
    run := Then(s, run, ToApply(ReadOld));
    run := Then(s, run, ToApply(CancelOld));
    run := ThenEnds(s, run, prior);
    run := Then(s, run, ToApply(OldEnded));
  }

  /** ... and from there, when saving succeeds: the new collector is started in its place. */
  lemma ApplyReplaces(s: Runtime, prior: nat, id: nat, asked: Asked) returns (run: seq<Step>)
    requires RunsCollector(s, prior) && id !in s.tasks
    ensures CanRun(s, run) && StartsCollector(WithEnded(s, prior), After(s, run), id, asked)
    ensures forall step :: step in run && step.ToApply? && step.apply.Persist? ==> step.apply.ok
  {
    hide CanRun, After;
    run := ApplyEndsOld(s, prior, asked);
    run := Then(s, run, ToApply(Persist(true)));
    run := Then(s, run, ToApply(Check));
    run := Then(s, run, ToApply(Launch(id)));
  }

  /** If the old collector does not end in time the call gives up: nothing is saved or started, and once it has ended it is forgotten. */
  lemma TimedOutStartsNothing(s: Runtime, prior: nat, asked: Asked) returns (run: seq<Step>)
    requires RunsCollector(s, prior)
    ensures run == [ToApply(BeginApply(asked.collector, asked.settings)), ToApply(ReadOld), ToApply(CancelOld), ToApply(TimeOut),
                    Goroutine(prior, Finish), Goroutine(prior, CloseDone), ToApply(ForgetOld)]
    ensures CanRun(s, run) && After(s, run) == WithEnded(s, prior).(recorded := None, active := None)
  {
    hide CanRun, After;
    NoStep(s);
    run := Then(s, [], ToApply(BeginApply(asked.collector, asked.settings)));
    run := Then(s, run, ToApply(ReadOld));
    run := Then(s, run, ToApply(CancelOld));
    run := Then(s, run, ToApply(TimeOut));
    run := ThenEnds(s, run, prior);
    run := Then(s, run, ToApply(ForgetOld));
  }

  /** Without a context applying settings does nothing. */
  lemma NotStartedAppliesNothing(s: Runtime, asked: Asked) returns (run: seq<Step>)
    requires s.phase.Idle? && !s.started
    ensures run == [ToApply(BeginApply(asked.collector, asked.settings)), ToApply(ReadOld)]
    ensures CanRun(s, run) && After(s, run) == s
  {
    hide CanRun, After;
    NoStep(s);
    run := Then(s, [], ToApply(BeginApply(asked.collector, asked.settings)));
    run := Then(s, run, ToApply(ReadOld));
  }

  /** Stopping while a collector runs takes the context away, cancels the collector, waits for it and forgets it. */
  lemma StopEndsCollector(s: Runtime, prior: nat) returns (run: seq<Step>)
    requires RunsCollector(s, prior)
    ensures run == [ToStop(BeginStop), ToStop(ReadForStop), ToStop(CancelForStop),
                    Goroutine(prior, Finish), Goroutine(prior, CloseDone), ToStop(EndedForStop), ToStop(EndStop)]
    ensures CanRun(s, run) && After(s, run) == WithEnded(s, prior).(started := false, recorded := None)
  {
    hide CanRun, After;
    NoStep(s);
    run := Then(s, [], ToStop(BeginStop));
    run := Then(s, run, ToStop(ReadForStop));
    run := Then(s, run, ToStop(CancelForStop));
    run := ThenEnds(s, run, prior);
    run := Then(s, run, ToStop(EndedForStop));
    run := Then(s, run, ToStop(EndStop));
  }

  /** A collector that ends by itself closes its channel and takes itself off the record. */
  lemma EndedIsForgotten(s: Runtime, prior: nat) returns (run: seq<Step>)
    requires RunsCollector(s, prior)
    ensures run == [Goroutine(prior, Finish), Goroutine(prior, CloseDone), Goroutine(prior, TidyUp)]
    ensures CanRun(s, run) && After(s, run) == s.(tasks := s.tasks[prior := s.tasks[prior].(stage := Gone)], recorded := None)
  {
    hide CanRun, After;
    NoStep(s);
    run := [];
    run := ThenEnds(s, run, prior);
    run := Then(s, run, Goroutine(prior, TidyUp));
  }

  /** Before the runtime is given a context, no goroutine is started. */
  lemma NothingBeforeStart(run: seq<Step>)
    requires CanRun(NEW_RUNTIME, run) && NoStart(run)
    ensures After(NEW_RUNTIME, run).tasks == map[]
  {
    NothingStarts(NEW_RUNTIME, run);
  }

  // ----- gates and contexts

  /** A gate that is held, released and cleared leaves no gate behind; one that was held meanwhile stays. */
  lemma GateComesAndGoes(s: Runtime, gate: nat, newer: nat) returns (alone: seq<Step>, overtaken: seq<Step>)
    requires gate !in s.released && newer !in s.released && gate != newer
    ensures alone == [Around(Hold(gate)), Around(Release(gate)), Around(Clear(gate))] && CanRun(s, alone)
    ensures After(s, alone) == s.(released := s.released[gate := true], startGate := None)
    ensures overtaken == [Around(Hold(gate)), Around(Release(gate)), Around(Hold(newer)), Around(Clear(gate))] && CanRun(s, overtaken)
    ensures After(s, overtaken) == s.(released := s.released[gate := true][newer := false], startGate := Some(newer))
  {
    hide CanRun, After;
    NoStep(s);
    var released := Then(s, [], Around(Hold(gate)));
    released := Then(s, released, Around(Release(gate)));
    alone := Then(s, released, Around(Clear(gate)));
    overtaken := Then(s, released, Around(Hold(newer)));
    overtaken := Then(s, overtaken, Around(Clear(gate)));
  }

  /** A collector started without a gate goes straight to `Run`, cancelled or not. */
  lemma UngatedEnters(s: Runtime, id: nat, step: TaskStep)
    requires id in s.tasks && s.tasks[id].gate.None? && s.tasks[id].stage.Starting?
    ensures TaskEnabled(s, id, PassGate) && TaskStepped(s, id, PassGate).tasks[id] == s.tasks[id].(stage := Running, entered := true)
    ensures TaskEnabled(s, id, step) && TaskStepped(s, id, step).tasks[id].stage != Starting ==> step == PassGate
  {}

  /** Cancelling the root reaches every goroutine, and turns away the one that is parked at a held gate. */
  lemma RootCancelReaches(s: Runtime, id: nat)
    requires s.started && id in s.tasks && !s.tasks[id].cancelled
    ensures GateEnabled(s, CancelRoot)
    ensures var t := GateStepped(s, CancelRoot);
            && TaskEnabled(t, id, HearCancel)
            && var after := TaskStepped(t, id, HearCancel).tasks[id];
            && after.cancelled
            && after.stage == if s.tasks[id].stage.Parked? && !GateOpen(s, s.tasks[id]) then TurnedAway else s.tasks[id].stage
  {}

  // ----- cancelling from outside

  /** Who cancels the current collector waits until it has closed its done channel, and returns then. */
  lemma CancellerWaits(s: Runtime, caller: nat, id: nat) returns (run: seq<Step>)
    requires RunsCollector(s, id) && caller !in s.callers
    ensures run == [Call(caller, ReadCurrent), Call(caller, CancelCurrent), Goroutine(id, Finish), Goroutine(id, CloseDone),
                    Call(caller, ReturnFromCancel)]
    ensures CanRun(s, run)
    ensures After(s, run) == WithEnded(s, id).(callers := s.callers[caller := Returned(Some(id))])
    ensures CanRun(s, run[..2]) && !Enabled(After(s, run[..2]), Call(caller, ReturnFromCancel))
  {
    hide CanRun, After;
    NoStep(s);
    var cancelled := Then(s, [], Call(caller, ReadCurrent));
    cancelled := Then(s, cancelled, Call(caller, CancelCurrent));
    run := ThenEnds(s, cancelled, id);
    run := Then(s, run, Call(caller, ReturnFromCancel));
    assert run[..2] == cancelled;
  }

  /** Without a current collector cancelling returns at once. */
  lemma NothingToCancel(s: Runtime, caller: nat) returns (run: seq<Step>)
    requires s.recorded == None && caller !in s.callers
    ensures run == [Call(caller, ReadCurrent), Call(caller, CancelCurrent)] && CanRun(s, run)
    ensures After(s, run) == s.(callers := s.callers[caller := Returned(None)])
  {
    hide CanRun, After;
    NoStep(s);
    run := Then(s, [], Call(caller, ReadCurrent));
    run := Then(s, run, Call(caller, CancelCurrent));
  }
}
