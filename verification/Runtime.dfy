/**
  The collector runtime of `internal/app/app.go` as a protocol: applying settings, stopping,
  cancelling from outside, holding back the start, and the collector goroutines, interleaved
  one step at a time.

  Applying and stopping exclude each other (`configureMu`), so one `phase` says how far whichever
  is under way has got; everything else can happen between any two of its steps. Timeouts, the
  outcome of persisting and the choice between ready branches of a `select` are left open. A
  collector's `Run` may end at any time. Settings and collectors are numbers.
 */
module Runtime {
  import opened Common

  /**
    A collector goroutine: not yet at its select, parked in it, committed to the cancelled branch, in
    and after `Run`, then `done` closed, then tidied up. What comes first to a parked goroutine, the
    release or the cancellation, decides its branch; one that finds both ready takes either.
   */
  datatype Stage = Starting | Parked | TurnedAway | Running | Ended | Closed | Gone

  datatype Task = Task(collector: nat, settings: nat, gate: Option<nat>, cancelled: bool, entered: bool, stage: Stage)

  /** The collector that was recorded when applying or stopping began. */
  datatype Old = Old(task: nat, collector: nat, settings: nat)

  datatype Phase =
    | Idle
    | Applying(collector: nat, settings: nat)
    | Cancelling(collector: nat, settings: nat, prior: Old)
    | Waiting(collector: nat, settings: nat, prior: Old)
    | TimedOut(prior: Old)
    | Persisting(collector: nat, settings: nat, previous: Option<Old>)
    | Checking(collector: nat, settings: nat)
    | Launching(collector: nat, settings: nat)
    | Restarting(prior: Old)
    | Stopping
    | StopCancelling(task: nat)
    | StopWaiting(task: nat)
    | StopEnding

  /** Someone in `cancelCurrentCollector`. */
  datatype Caller = Reading(task: Option<nat>) | Awaiting(cancelled: nat) | Returned(task: Option<nat>)

  datatype Runtime = Runtime(started: bool, rootCancelled: bool, recorded: Option<nat>, active: Option<nat>,
                             startGate: Option<nat>, released: map<nat, bool>, tasks: map<nat, Task>,
                             phase: Phase, callers: map<nat, Caller>)

  /** Around the collectors: the context they run under and the gates that hold them back. */
  datatype GateStep = Start | CancelRoot | Hold(gate: nat) | Release(gate: nat) | Clear(gate: nat)

  datatype ApplyStep =
    | BeginApply(collector: nat, settings: nat)
    | ReadOld
    | CancelOld
    | OldEnded
    | TimeOut
    | ForgetOld
    | Persist(ok: bool)
    | Check
    | Launch(id: nat)

  datatype StopStep = BeginStop | ReadForStop | CancelForStop | EndedForStop | EndStop

  /** What a collector goroutine does next; `HearCancel` is the root's cancellation reaching its context. */
  datatype TaskStep = HearCancel | Park | PassGate | Refuse | Finish | CloseDone | TidyUp

  /** What a caller of `cancelCurrentCollector` does next. */
  datatype CallerStep = ReadCurrent | CancelCurrent | ReturnFromCancel

  datatype Step =
    | Around(gate: GateStep)
    | ToApply(apply: ApplyStep)
    | ToStop(stop: StopStep)
    | Goroutine(id: nat, task: TaskStep)
    | Call(caller: nat, call: CallerStep)

  const NEW_RUNTIME: Runtime := Runtime(false, false, None, None, None, map[], map[], Idle, map[])

  // ----- the protocol

  predicate Live(t: Task) { !t.stage.Closed? && !t.stage.Gone? }

  /** Not past its select, and not committed to the cancelled branch. */
  predicate MayEnter(t: Task) { t.stage.Starting? || t.stage.Parked? }

  predicate DoneClosed(s: Runtime, id: nat) { id in s.tasks && !Live(s.tasks[id]) }

  predicate Open(s: Runtime, gate: nat) { gate in s.released && s.released[gate] }

  predicate GateEnabled(s: Runtime, step: GateStep) {
    match step
    case Start => true
    case CancelRoot => s.started
    case Hold(gate) => gate !in s.released
    case Release(gate) => gate in s.released && !s.released[gate]
    case Clear(gate) => Open(s, gate)
  }

  predicate ApplyEnabled(s: Runtime, step: ApplyStep) {
    match step
    case BeginApply(_, _) => s.phase.Idle?
    case ReadOld => s.phase.Applying?
    case CancelOld => s.phase.Cancelling? && s.phase.prior.task in s.tasks
    case OldEnded => s.phase.Waiting? && DoneClosed(s, s.phase.prior.task)
    case TimeOut => s.phase.Waiting?
    case ForgetOld => s.phase.TimedOut? && DoneClosed(s, s.phase.prior.task)
    case Persist(_) => s.phase.Persisting?
    case Check => s.phase.Checking?
    case Launch(id) => (s.phase.Launching? || s.phase.Restarting?) && id !in s.tasks
  }

  predicate StopEnabled(s: Runtime, step: StopStep) {
    match step
    case BeginStop => s.phase.Idle?
    case ReadForStop => s.phase.Stopping?
    case CancelForStop => s.phase.StopCancelling? && s.phase.task in s.tasks
    case EndedForStop => s.phase.StopWaiting? && DoneClosed(s, s.phase.task)
    case EndStop => s.phase.StopEnding?
  }

  /** There is no gate to wait for, or it has been released. */
  predicate GateOpen(s: Runtime, t: Task) { t.gate.None? || Open(s, t.gate.value) }

  predicate TaskEnabled(s: Runtime, id: nat, step: TaskStep) {
    id in s.tasks &&
    var t := s.tasks[id];
    match step
    case HearCancel => s.rootCancelled && !t.cancelled
    case Park => t.stage.Starting? && !GateOpen(s, t) && !t.cancelled
    case PassGate => MayEnter(t) && GateOpen(s, t)
    case Refuse => (t.stage.Starting? && t.gate.Some? && t.cancelled) || t.stage.TurnedAway?
    case Finish => t.stage.Running?
    case CloseDone => t.stage.Ended?
    case TidyUp => t.stage.Closed?
  }

  predicate CallEnabled(s: Runtime, caller: nat, step: CallerStep) {
    match step
    case ReadCurrent => caller !in s.callers
    case CancelCurrent =>
      caller in s.callers && s.callers[caller].Reading? && (s.callers[caller].task.Some? ==> s.callers[caller].task.value in s.tasks)
    case ReturnFromCancel => caller in s.callers && s.callers[caller].Awaiting? && DoneClosed(s, s.callers[caller].cancelled)
  }

  predicate Enabled(s: Runtime, step: Step) {
    match step
    case Around(gate) => GateEnabled(s, gate)
    case ToApply(apply) => ApplyEnabled(s, apply)
    case ToStop(stop) => StopEnabled(s, stop)
    case Goroutine(id, task) => TaskEnabled(s, id, task)
    case Call(caller, call) => CallEnabled(s, caller, call)
  }

  function WithTask(s: Runtime, id: nat, t: Task): Runtime { s.(tasks := s.tasks[id := t]) }

  /** Cancelling a context wakes a goroutine parked under it, unless the release already has. */
  function Cancelled(s: Runtime, t: Task): Task {
    t.(cancelled := true, stage := if t.stage.Parked? && !GateOpen(s, t) then TurnedAway else t.stage)
  }

  function CancelTask(s: Runtime, id: nat): Runtime
    requires id in s.tasks
  {
    WithTask(s, id, Cancelled(s, s.tasks[id]))
  }

  function OldOf(s: Runtime): Option<Old> {
    if s.recorded.Some? && s.recorded.value in s.tasks && s.active.Some?
    then Some(Old(s.recorded.value, s.tasks[s.recorded.value].collector, s.active.value))
    else None
  }

  /** Starting a collector under the lock: nothing happens when the runtime has no context. */
  function Launched(s: Runtime, id: nat, collector: nat, settings: nat): Runtime {
    if s.started
    then WithTask(s, id, Task(collector, settings, s.startGate, s.rootCancelled, false, Starting))
         .(recorded := Some(id), active := Some(settings), phase := Idle)
    else s.(phase := Idle)
  }

  function GateStepped(s: Runtime, step: GateStep): Runtime {
    match step
    case Start => s.(started := true)
    case CancelRoot => s.(rootCancelled := true)
    case Hold(gate) => s.(released := s.released[gate := false], startGate := Some(gate))
    case Release(gate) => s.(released := s.released[gate := true])
    case Clear(gate) => if s.startGate == Some(gate) then s.(startGate := None) else s
  }

  function ApplyStepped(s: Runtime, step: ApplyStep): Runtime
    requires ApplyEnabled(s, step)
  {
    match step
    case BeginApply(collector, settings) => s.(phase := Applying(collector, settings))
    case ReadOld =>
      if !s.started then s.(phase := Idle)
      else if OldOf(s).Some? then s.(phase := Cancelling(s.phase.collector, s.phase.settings, OldOf(s).value))
      else s.(phase := Persisting(s.phase.collector, s.phase.settings, None))
    case CancelOld => CancelTask(s, s.phase.prior.task).(phase := Waiting(s.phase.collector, s.phase.settings, s.phase.prior))
    case OldEnded => s.(phase := Persisting(s.phase.collector, s.phase.settings, Some(s.phase.prior)))
    case TimeOut => s.(phase := TimedOut(s.phase.prior))
    case ForgetOld => s.(phase := Idle, recorded := None, active := None)
    case Persist(ok) =>
      if ok then s.(phase := Checking(s.phase.collector, s.phase.settings))
      else if s.phase.previous.Some? then s.(phase := Restarting(s.phase.previous.value))
      else s.(phase := Idle)
    case Check => s.(phase := if s.started then Launching(s.phase.collector, s.phase.settings) else Idle)
    case Launch(id) =>
      if s.phase.Launching? then Launched(s, id, s.phase.collector, s.phase.settings)
      else Launched(s, id, s.phase.prior.collector, s.phase.prior.settings)
  }

  function StopStepped(s: Runtime, step: StopStep): Runtime
    requires StopEnabled(s, step)
  {
    match step
    case BeginStop => s.(phase := Stopping)
    case ReadForStop => s.(started := false, phase := if s.recorded.Some? then StopCancelling(s.recorded.value) else StopEnding)
    case CancelForStop => CancelTask(s, s.phase.task).(phase := StopWaiting(s.phase.task))
    case EndedForStop => s.(phase := StopEnding)
    case EndStop => s.(phase := Idle, started := false, recorded := None)
  }

  function NextTask(s: Runtime, t: Task, step: TaskStep): Task {
    match step
    case HearCancel => Cancelled(s, t)
    case Park => t.(stage := Parked)
    case PassGate => t.(stage := Running, entered := true)
    case Refuse => t.(stage := Ended)
    case Finish => t.(stage := Ended)
    case CloseDone => t.(stage := Closed)
    case TidyUp => t.(stage := Gone)
  }

  /** A goroutine's step; the last one clears the record if it is still its own. */
  function TaskStepped(s: Runtime, id: nat, step: TaskStep): Runtime
    requires id in s.tasks
  {
    WithTask(s, id, NextTask(s, s.tasks[id], step))
    .(recorded := if step.TidyUp? && s.recorded == Some(id) then None else s.recorded)
  }

  function CallStepped(s: Runtime, caller: nat, step: CallerStep): Runtime
    requires CallEnabled(s, caller, step)
  {
    match step
    case ReadCurrent => s.(callers := s.callers[caller := Reading(s.recorded)])
    case CancelCurrent =>
      var task := s.callers[caller].task;
      if task.Some? then CancelTask(s, task.value).(callers := s.callers[caller := Awaiting(task.value)])
      else s.(callers := s.callers[caller := Returned(None)])
    case ReturnFromCancel => s.(callers := s.callers[caller := Returned(Some(s.callers[caller].cancelled))])
  }

  function Apply(s: Runtime, step: Step): Runtime
    requires Enabled(s, step)
  {
    match step
    case Around(gate) => GateStepped(s, gate)
    case ToApply(apply) => ApplyStepped(s, apply)
    case ToStop(stop) => StopStepped(s, stop)
    case Goroutine(id, task) => TaskStepped(s, id, task)
    case Call(caller, call) => CallStepped(s, caller, call)
  }

  ghost predicate CanRun(s: Runtime, run: seq<Step>)
    decreases |run|
  {
    run == [] || (Enabled(s, run[0]) && CanRun(Apply(s, run[0]), run[1..]))
  }

  ghost function After(s: Runtime, run: seq<Step>): Runtime
    requires CanRun(s, run)
    decreases |run|
  {
    if run == [] then s else After(Apply(s, run[0]), run[1..])
  }

  // ----- the invariant

  /** At most one goroutine has not closed its `done`, and it is the recorded one. */
  ghost predicate OneLive(s: Runtime) {
    forall id :: id in s.tasks && Live(s.tasks[id]) ==> s.recorded == Some(id)
  }

  ghost predicate NoneLive(s: Runtime) {
    forall id :: id in s.tasks ==> !Live(s.tasks[id])
  }

  ghost predicate RecordSound(s: Runtime) {
    s.recorded.Some? ==>
      && s.recorded.value in s.tasks
      && s.tasks[s.recorded.value].stage != Gone
      && s.active == Some(s.tasks[s.recorded.value].settings)
  }

  ghost predicate Known(s: Runtime, prior: Old) {
    prior.task in s.tasks && s.tasks[prior.task].collector == prior.collector && s.tasks[prior.task].settings == prior.settings
  }

  /** Nothing but the old collector can be recorded while it is being waited for. */
  ghost predicate OnlyOld(s: Runtime, task: nat) {
    task in s.tasks && (s.recorded == None || s.recorded == Some(task))
  }

  ghost predicate PhaseSound(s: Runtime) {
    match s.phase
    case Cancelling(_, _, prior) => Known(s, prior) && OnlyOld(s, prior.task)
    case Waiting(_, _, prior) => Known(s, prior) && OnlyOld(s, prior.task) && s.tasks[prior.task].cancelled
    case TimedOut(prior) => Known(s, prior) && OnlyOld(s, prior.task) && s.tasks[prior.task].cancelled
    case Persisting(_, _, previous) => NoneLive(s) && (previous.Some? ==> Known(s, previous.value))
    case Checking(_, _) => NoneLive(s)
    case Launching(_, _) => NoneLive(s)
    case Restarting(prior) => NoneLive(s) && Known(s, prior)
    case StopCancelling(task) => OnlyOld(s, task)
    case StopWaiting(task) => OnlyOld(s, task) && s.tasks[task].cancelled
    case StopEnding => NoneLive(s)
    case _ => true
  }

  /** A goroutine with a gate has entered `Run` only if the gate has been released. */
  ghost predicate GateSound(s: Runtime, t: Task) {
    && (MayEnter(t) || t.stage.TurnedAway? ==> !t.entered)
    && (t.stage.Running? ==> t.entered)
    && (t.stage.Parked? ==> t.gate.Some? && (t.cancelled ==> GateOpen(s, t)))
    && (t.stage.TurnedAway? ==> t.cancelled)
    && (t.gate.Some? ==> t.gate.value in s.released && (t.entered ==> Open(s, t.gate.value)))
  }

  ghost predicate GatesSound(s: Runtime) {
    && (s.startGate.Some? ==> s.startGate.value in s.released)
    && (forall id :: id in s.tasks ==> GateSound(s, s.tasks[id]))
  }

  ghost predicate CallerSound(s: Runtime, c: Caller) {
    match c
    case Reading(task) => task.Some? ==> task.value in s.tasks
    case Awaiting(task) => task in s.tasks && s.tasks[task].cancelled
    case Returned(task) => task.Some? ==> DoneClosed(s, task.value)
  }

  ghost predicate CallersSound(s: Runtime) {
    forall c :: c in s.callers ==> CallerSound(s, s.callers[c])
  }

  ghost predicate Invariant(s: Runtime) {
    OneLive(s) && RecordSound(s) && PhaseSound(s) && GatesSound(s) && CallersSound(s)
  }

  // ----- every step keeps it

  /** What a goroutine may turn into: its identity stays, it is not revived, cancellation stays. */
  predicate Ages(t: Task, u: Task) {
    && u.collector == t.collector && u.settings == t.settings && u.gate == t.gate
    && (t.cancelled ==> u.cancelled)
    && (Live(u) ==> Live(t))
  }

  /** A step of a goroutine, or its cancellation: one task ages, the record is cleared at most by the recorded task. */
  lemma AgingKeeps(s: Runtime, id: nat, u: Task, recorded: Option<nat>)
    requires Invariant(s) && id in s.tasks && Ages(s.tasks[id], u) && GateSound(s, u)
    requires if recorded == s.recorded then s.recorded == Some(id) ==> u.stage != Gone
             else s.recorded == Some(id) && recorded == None && !Live(u)
    ensures Invariant(WithTask(s, id, u).(recorded := recorded))
  {
    var t := WithTask(s, id, u).(recorded := recorded);
    forall c | c in t.callers ensures CallerSound(t, t.callers[c]) {
      assert CallerSound(s, s.callers[c]);
    }
    forall i | i in t.tasks ensures GateSound(t, t.tasks[i]) {
      assert i != id ==> GateSound(s, s.tasks[i]);
    }
    AgingPhase(s, id, u, recorded);
  }

  lemma AgingPhase(s: Runtime, id: nat, u: Task, recorded: Option<nat>)
    requires PhaseSound(s) && id in s.tasks && Ages(s.tasks[id], u)
    requires recorded == s.recorded || recorded == None
    ensures PhaseSound(WithTask(s, id, u).(recorded := recorded))
  {}

  lemma TaskStepKeeps(s: Runtime, id: nat, step: TaskStep)
    requires Invariant(s) && TaskEnabled(s, id, step)
    ensures Invariant(TaskStepped(s, id, step))
  {
    hide OneLive, RecordSound, PhaseSound, CallersSound;
    assert GateSound(s, s.tasks[id]);
    RecordedNotGone(s);
    AgingKeeps(s, id, NextTask(s, s.tasks[id], step), TaskStepped(s, id, step).recorded);
  }

  /** A change of nothing but the phase, the context and what is recorded. */
  lemma PhaseStepKeeps(s: Runtime, t: Runtime)
    requires Invariant(s) && t == s.(phase := t.phase, started := t.started, recorded := t.recorded, active := t.active)
    requires OneLive(t) && RecordSound(t) && PhaseSound(t)
    ensures Invariant(t)
  {
    forall c | c in t.callers ensures CallerSound(t, t.callers[c]) {
      assert CallerSound(s, s.callers[c]);
    }
  }

  /** Once the old collector has ended nothing is live. */
  lemma OldEndedLeavesNone(s: Runtime, task: nat)
    requires OneLive(s) && OnlyOld(s, task) && DoneClosed(s, task)
    ensures NoneLive(s)
  {}

  lemma WaitStepKeeps(s: Runtime, step: ApplyStep)
    requires Invariant(s) && ApplyEnabled(s, step) && (step.OldEnded? || step.TimeOut? || step.ForgetOld?)
    ensures Invariant(ApplyStepped(s, step))
  {
    hide CallersSound, GatesSound, Live;
    if step.OldEnded? || step.ForgetOld? {
      OldEndedLeavesNone(s, s.phase.prior.task);
    }
    PhaseStepKeeps(s, ApplyStepped(s, step));
  }

  lemma PersistStepKeeps(s: Runtime, step: ApplyStep)
    requires Invariant(s) && ApplyEnabled(s, step)
    requires step.BeginApply? || step.ReadOld? || step.Persist? || step.Check?
    ensures Invariant(ApplyStepped(s, step))
  {
    hide CallersSound, GatesSound, Live, OneLive, NoneLive;
    if step.ReadOld? && s.recorded == None {
      NothingRecordedNoneLive(s);
    }
    var t := ApplyStepped(s, step);
    assert t == s.(phase := t.phase);
    NoneLiveSame(s, t);
    PhaseAloneKeeps(s, t);
  }

  lemma NoneLiveSame(s: Runtime, t: Runtime)
    requires t.tasks == s.tasks
    ensures NoneLive(t) == NoneLive(s)
  {}

  lemma PhaseAloneKeeps(s: Runtime, t: Runtime)
    requires Invariant(s) && t == s.(phase := t.phase) && PhaseSound(t)
    ensures Invariant(t)
  {
    hide PhaseSound;
    PhaseStepKeeps(s, t);
  }

  lemma NothingRecordedNoneLive(s: Runtime)
    requires OneLive(s) && s.recorded == None
    ensures NoneLive(s)
  {}

  lemma StopStepKeeps(s: Runtime, step: StopStep)
    requires Invariant(s) && StopEnabled(s, step)
    ensures Invariant(StopStepped(s, step))
  {
    hide CallersSound, GatesSound, Live;
    if step.CancelForStop? {
      CancelKeeps(s, s.phase.task);
      PhaseStepKeeps(CancelTask(s, s.phase.task), StopStepped(s, step));
    } else {
      if step.EndedForStop? {
        OldEndedLeavesNone(s, s.phase.task);
      }
      PhaseStepKeeps(s, StopStepped(s, step));
    }
  }

  lemma LaunchKeeps(s: Runtime, id: nat, collector: nat, settings: nat)
    requires Invariant(s) && NoneLive(s) && id !in s.tasks
    ensures Invariant(Launched(s, id, collector, settings))
  {
    var t := Launched(s, id, collector, settings);
    forall c | c in t.callers ensures CallerSound(t, t.callers[c]) {
      assert CallerSound(s, s.callers[c]);
    }
    forall i | i in t.tasks ensures GateSound(t, t.tasks[i]) {
      assert i != id ==> GateSound(s, s.tasks[i]);
    }
  }

  /** Cancelling the task a phase waits for, or somebody else's, and moving on. */
  lemma CancelKeeps(s: Runtime, id: nat)
    requires Invariant(s) && id in s.tasks
    ensures Invariant(CancelTask(s, id))
  {
    hide OneLive, RecordSound, PhaseSound, CallersSound;
    assert GateSound(s, s.tasks[id]);
    RecordedNotGone(s);
    AgingKeeps(s, id, Cancelled(s, s.tasks[id]), s.recorded);
  }

  lemma RecordedNotGone(s: Runtime)
    requires RecordSound(s)
    ensures s.recorded.Some? ==> s.recorded.value in s.tasks && s.tasks[s.recorded.value].stage != Gone
  {}

  lemma ApplyStepKeeps(s: Runtime, step: ApplyStep)
    requires Invariant(s) && ApplyEnabled(s, step)
    ensures Invariant(ApplyStepped(s, step))
  {
    hide OneLive, RecordSound, CallersSound, GatesSound, Live, Known, Launched;
    match step
    case CancelOld =>
      CancelKeeps(s, s.phase.prior.task);
      CancelOldKeeps(s, CancelTask(s, s.phase.prior.task), ApplyStepped(s, step));
    case Launch(id) =>
      if s.phase.Launching? {
        LaunchKeeps(s, id, s.phase.collector, s.phase.settings);
      } else {
        LaunchKeeps(s, id, s.phase.prior.collector, s.phase.prior.settings);
      }
    case OldEnded => WaitStepKeeps(s, step);
    case TimeOut => WaitStepKeeps(s, step);
    case ForgetOld => WaitStepKeeps(s, step);
    case _ => PersistStepKeeps(s, step);
  }

  lemma CancelOldKeeps(s: Runtime, cancelled: Runtime, t: Runtime)
    requires s.phase.Cancelling? && s.phase.prior.task in s.tasks && Invariant(cancelled)
    requires cancelled == CancelTask(s, s.phase.prior.task)
    requires t == cancelled.(phase := Waiting(s.phase.collector, s.phase.settings, s.phase.prior))
    ensures Invariant(t)
  {
    hide CallersSound, GatesSound, Live, OneLive;
    PhaseAloneKeeps(cancelled, t);
  }

  /** A change of the callers alone. */
  lemma CallersStepKeeps(s: Runtime, caller: nat, c: Caller)
    requires Invariant(s) && CallerSound(s, c)
    ensures Invariant(s.(callers := s.callers[caller := c]))
  {
    var t := s.(callers := s.callers[caller := c]);
    forall k | k in t.callers ensures CallerSound(t, t.callers[k]) {
      assert k != caller ==> CallerSound(s, s.callers[k]);
    }
    forall i | i in t.tasks ensures GateSound(t, t.tasks[i]) {
      assert GateSound(s, s.tasks[i]);
    }
  }

  lemma CallStepKeeps(s: Runtime, caller: nat, step: CallerStep)
    requires Invariant(s) && CallEnabled(s, caller, step)
    ensures Invariant(CallStepped(s, caller, step))
  {
    hide OneLive, PhaseSound, GatesSound;
    if step.CancelCurrent? && s.callers[caller].task.Some? {
      var task := s.callers[caller].task.value;
      CancelKeeps(s, task);
      hide CallersSound;
      CallersStepKeeps(CancelTask(s, task), caller, Awaiting(task));
    } else {
      CallersStepKeeps(s, caller, CallStepped(s, caller, step).callers[caller]);
    }
  }

  lemma GateStepKeeps(s: Runtime, step: GateStep)
    requires Invariant(s) && GateEnabled(s, step)
    ensures Invariant(GateStepped(s, step))
  {
    hide Live;
    var t := GateStepped(s, step);
    forall i | i in t.tasks ensures GateSound(t, t.tasks[i]) {
      assert GateSound(s, s.tasks[i]);
    }
    forall c | c in t.callers ensures CallerSound(t, t.callers[c]) {
      assert CallerSound(s, s.callers[c]);
    }
  }

  lemma StepKeeps(s: Runtime, step: Step)
    requires Invariant(s) && Enabled(s, step)
    ensures Invariant(Apply(s, step))
  {
    hide Invariant, GateStepped, ApplyStepped, StopStepped, TaskStepped, CallStepped;
    hide GateEnabled, ApplyEnabled, StopEnabled, CallEnabled;
    match step
    case Around(gate) => GateStepKeeps(s, gate);
    case ToApply(apply) => ApplyStepKeeps(s, apply);
    case ToStop(stop) => StopStepKeeps(s, stop);
    case Goroutine(id, task) => TaskStepKeeps(s, id, task);
    case Call(caller, call) => CallStepKeeps(s, caller, call);
  }

  lemma {:induction false} RunKeeps(s: Runtime, run: seq<Step>)
    requires Invariant(s) && CanRun(s, run)
    ensures Invariant(After(s, run))
    decreases |run|
  {
    hide Invariant, Enabled, Apply;
    if run != [] {
      StepKeeps(s, run[0]);
      RunKeeps(Apply(s, run[0]), run[1..]);
    }
  }

  lemma Reachable(run: seq<Step>)
    requires CanRun(NEW_RUNTIME, run)
    ensures Invariant(After(NEW_RUNTIME, run))
  {
    RunKeeps(NEW_RUNTIME, run);
  }

  // ----- what holds in every interleaving

  /** At most one collector goroutine has not closed its done channel, and it is the one recorded. */
  lemma AtMostOneLive(run: seq<Step>, a: nat, b: nat)
    requires CanRun(NEW_RUNTIME, run)
    requires var s := After(NEW_RUNTIME, run); a in s.tasks && b in s.tasks && Live(s.tasks[a]) && Live(s.tasks[b])
    ensures a == b && After(NEW_RUNTIME, run).recorded == Some(a)
  {
    Reachable(run);
    hide After, CanRun;
  }

  /** A goroutine is started only when every earlier one has closed its done channel. */
  lemma LaunchedAlone(run: seq<Step>, id: nat)
    requires CanRun(NEW_RUNTIME, run) && ApplyEnabled(After(NEW_RUNTIME, run), Launch(id))
    ensures NoneLive(After(NEW_RUNTIME, run))
  {
    Reachable(run);
    hide After, CanRun, Live;
  }

  /**
    When persisting fails, what is started is the collector that was running before, under its own
    settings, after its goroutine has ended; without one, nothing is started.
   */
  lemma FailedPersistRestarts(run: seq<Step>, id: nat)
    requires CanRun(NEW_RUNTIME, run)
    requires var s := After(NEW_RUNTIME, run); s.phase.Persisting? && s.started && id !in s.tasks
    ensures var s := After(NEW_RUNTIME, run);
            var failed := ApplyStepped(s, Persist(false));
            if s.phase.previous.None? then failed == s.(phase := Idle)
            else
              var prior := s.phase.previous.value;
              && DoneClosed(s, prior.task)
              && ApplyEnabled(failed, Launch(id))
              && var t := ApplyStepped(failed, Launch(id));
                 && t.phase == Idle && t.recorded == Some(id) && t.tasks.Keys == s.tasks.Keys + {id}
                 && t.tasks[id].collector == s.tasks[prior.task].collector
                 && t.tasks[id].settings == s.tasks[prior.task].settings == t.active.value
                 && t.tasks[id].stage == Starting
  {
    Reachable(run);
    hide After, CanRun, Live;
  }

  /** Of one goroutine: it ages, and once it may not enter `Run` any more it stays outside. */
  predicate Moves(t: Task, u: Task) {
    Ages(t, u) && (u.entered ==> t.entered || MayEnter(t)) && (MayEnter(u) ==> MayEnter(t))
  }

  /** From one state to a later one: goroutines only age. */
  ghost predicate TasksAge(s: Runtime, t: Runtime) {
    forall id :: id in s.tasks ==> id in t.tasks && Moves(s.tasks[id], t.tasks[id])
  }

  /** Goroutines age; without a context, and short of a start, there stays none and no goroutine is added. */
  ghost predicate Settles(s: Runtime, t: Runtime, restart: bool) {
    TasksAge(s, t) && (!s.started && !restart ==> !t.started && t.tasks.Keys == s.tasks.Keys)
  }

  lemma SameTasksSettle(s: Runtime, t: Runtime, restart: bool)
    requires t.tasks == s.tasks && (!s.started && !restart ==> !t.started)
    ensures Settles(s, t, restart)
  {}

  lemma OneSettles(s: Runtime, t: Runtime, id: nat, u: Task)
    requires id in s.tasks && t.tasks == s.tasks[id := u] && Moves(s.tasks[id], u) && t.started == s.started
    ensures Settles(s, t, false)
  {
    var x, y := t.tasks.Keys, s.tasks.Keys;
    assert forall k :: k in x <==> k in y;
    assert x == y;
  }

  lemma LaunchSettles(s: Runtime, id: nat, collector: nat, settings: nat)
    requires id !in s.tasks
    ensures Settles(s, Launched(s, id, collector, settings), false)
  {}

  lemma ApplySettles(s: Runtime, step: ApplyStep)
    requires ApplyEnabled(s, step)
    ensures Settles(s, ApplyStepped(s, step), false)
  {
    hide Settles, Launched, OldOf;
    var t := ApplyStepped(s, step);
    match step
    case CancelOld => OneSettles(s, t, s.phase.prior.task, Cancelled(s, s.tasks[s.phase.prior.task]));
    case Launch(id) =>
      if s.phase.Launching? {
        LaunchSettles(s, id, s.phase.collector, s.phase.settings);
      } else {
        LaunchSettles(s, id, s.phase.prior.collector, s.phase.prior.settings);
      }
    case _ => SameTasksSettle(s, t, false);
  }

  lemma StopSettles(s: Runtime, step: StopStep)
    requires StopEnabled(s, step)
    ensures Settles(s, StopStepped(s, step), false)
  {
    hide Settles;
    var t := StopStepped(s, step);
    if step.CancelForStop? {
      OneSettles(s, t, s.phase.task, Cancelled(s, s.tasks[s.phase.task]));
    } else {
      SameTasksSettle(s, t, false);
    }
  }

  lemma TaskSettles(s: Runtime, id: nat, step: TaskStep)
    requires TaskEnabled(s, id, step)
    ensures Settles(s, TaskStepped(s, id, step), false)
  {
    hide Settles;
    OneSettles(s, TaskStepped(s, id, step), id, NextTask(s, s.tasks[id], step));
  }

  lemma CallSettles(s: Runtime, caller: nat, step: CallerStep)
    requires CallEnabled(s, caller, step)
    ensures Settles(s, CallStepped(s, caller, step), false)
  {
    hide Settles;
    var t := CallStepped(s, caller, step);
    if step.CancelCurrent? && s.callers[caller].task.Some? {
      var id := s.callers[caller].task.value;
      OneSettles(s, t, id, Cancelled(s, s.tasks[id]));
    } else {
      SameTasksSettle(s, t, false);
    }
  }

  lemma StepSettles(s: Runtime, step: Step)
    requires Enabled(s, step)
    ensures Settles(s, Apply(s, step), step == Around(Start))
  {
    hide ApplyStepped, StopStepped, TaskStepped, CallStepped, ApplyEnabled, StopEnabled, TaskEnabled, CallEnabled, TasksAge;
    match step
    case Around(gate) => SameTasksSettle(s, GateStepped(s, gate), gate == Start);
    case ToApply(apply) => ApplySettles(s, apply);
    case ToStop(stop) => StopSettles(s, stop);
    case Goroutine(id, task) => TaskSettles(s, id, task);
    case Call(caller, call) => CallSettles(s, caller, call);
  }

  lemma {:induction false} RunAges(s: Runtime, run: seq<Step>)
    requires CanRun(s, run)
    ensures TasksAge(s, After(s, run))
    decreases |run|
  {
    if run != [] {
      var t := Apply(s, run[0]);
      assert CanRun(t, run[1..]) && After(s, run) == After(t, run[1..]);
      StepSettles(s, run[0]);
      hide CanRun, After, Apply, Enabled;
      RunAges(t, run[1..]);
    }
  }

  ghost predicate NoStart(run: seq<Step>) { forall i :: 0 <= i < |run| ==> run[i] != Around(Start) }

  /** Without a context no goroutine is started. */
  lemma {:induction false} NothingStarts(s: Runtime, run: seq<Step>)
    requires !s.started && CanRun(s, run) && NoStart(run)
    ensures !After(s, run).started && After(s, run).tasks.Keys == s.tasks.Keys
    decreases |run|
  {
    if run != [] {
      var t := Apply(s, run[0]);
      assert CanRun(t, run[1..]) && After(s, run) == After(t, run[1..]);
      StepSettles(s, run[0]);
      hide CanRun, After, Apply, Enabled, TasksAge;
      assert forall i :: 0 <= i < |run| - 1 ==> run[1..][i] == run[i + 1];
      NothingStarts(t, run[1..]);
    }
  }

  /**
    From the moment stopping takes the context away no goroutine is started any more, and from the
    moment it has returned none is live, whatever else goes on (short of a new `start`).
   */
  lemma StoppedForGood(before: seq<Step>, stop: StopStep, later: seq<Step>)
    requires CanRun(NEW_RUNTIME, before) && (stop.ReadForStop? || stop.EndStop?) && StopEnabled(After(NEW_RUNTIME, before), stop)
    requires CanRun(StopStepped(After(NEW_RUNTIME, before), stop), later) && NoStart(later)
    ensures var s := After(NEW_RUNTIME, before);
            var t := After(StopStepped(s, stop), later);
            t.tasks.Keys == s.tasks.Keys && (stop.EndStop? ==> NoneLive(t))
  {
    Reachable(before);
    var s := After(NEW_RUNTIME, before);
    var t := StopStepped(s, stop);
    NothingStarts(t, later);
    RunAges(t, later);
    hide After, CanRun, Live;
    assert t.tasks == s.tasks && !t.started;
    if stop.EndStop? {
      assert NoneLive(s);
      NoneLiveAges(t, After(t, later));
    }
  }

  lemma NoneLiveAges(s: Runtime, t: Runtime)
    requires NoneLive(s) && TasksAge(s, t) && t.tasks.Keys == s.tasks.Keys
    ensures NoneLive(t)
  {
    forall id | id in t.tasks ensures !Live(t.tasks[id]) {
      assert id in s.tasks.Keys;
      assert Ages(s.tasks[id], t.tasks[id]);
    }
  }

  // ----- the start gate

  ghost predicate Gated(s: Runtime, id: nat, gate: nat) {
    id in s.tasks && s.tasks[id].gate == Some(gate)
  }

  /** No goroutine enters `Run` while its gate is held. */
  lemma HeldBack(run: seq<Step>, id: nat, gate: nat)
    requires CanRun(NEW_RUNTIME, run) && Gated(After(NEW_RUNTIME, run), id, gate) && !Open(After(NEW_RUNTIME, run), gate)
    ensures !After(NEW_RUNTIME, run).tasks[id].entered
  {
    Reachable(run);
    hide After, CanRun;
    assert GateSound(After(NEW_RUNTIME, run), After(NEW_RUNTIME, run).tasks[id]);
  }

  ghost predicate EntersLater(s: Runtime, id: nat) {
    exists run :: CanRun(s, run) && id in After(s, run).tasks && After(s, run).tasks[id].entered
  }

  /**
    Exactly which collectors can still enter `Run` once their gate is released: those that have not come
    past their select. One that was cancelled before the release can if and only if it had not reached
    the select by then, and so finds both branches ready.
   */
  lemma EntersIff(run: seq<Step>, id: nat, gate: nat)
    requires CanRun(NEW_RUNTIME, run) && Gated(After(NEW_RUNTIME, run), id, gate)
    requires GateEnabled(After(NEW_RUNTIME, run), Release(gate))
    ensures var s := After(NEW_RUNTIME, run);
            var t := s.tasks[id];
            && (EntersLater(GateStepped(s, Release(gate)), id) <==> MayEnter(t))
            && (t.cancelled ==> (EntersLater(GateStepped(s, Release(gate)), id) <==> t.stage.Starting?))
  {
    HeldBack(run, id, gate);
    Reachable(run);
    var s := After(NEW_RUNTIME, run);
    assert GateSound(s, s.tasks[id]);
    var t := GateStepped(s, Release(gate));
    if MayEnter(s.tasks[id]) {
      PassingIsARun(t, id);
    } else {
      forall later | CanRun(t, later) ensures id in After(t, later).tasks && !After(t, later).tasks[id].entered {
        RunAges(t, later);
      }
    }
  }

  /** A collector that is parked in its select when it is cancelled under a held gate never enters `Run`. */
  lemma ParkedAndCancelledStaysOut(run: seq<Step>, id: nat, gate: nat, cancel: Step, later: seq<Step>)
    requires CanRun(NEW_RUNTIME, run) && Gated(After(NEW_RUNTIME, run), id, gate) && !Open(After(NEW_RUNTIME, run), gate)
    requires After(NEW_RUNTIME, run).tasks[id].stage.Parked? && Enabled(After(NEW_RUNTIME, run), cancel)
    requires var t := Apply(After(NEW_RUNTIME, run), cancel); id in t.tasks && t.tasks[id].cancelled && CanRun(t, later)
    ensures var t := Apply(After(NEW_RUNTIME, run), cancel);
            id in After(t, later).tasks && !After(t, later).tasks[id].entered
  {
    Reachable(run);
    var s := After(NEW_RUNTIME, run);
    var t := Apply(s, cancel);
    assert GateSound(s, s.tasks[id]);
    StepKeeps(s, cancel);
    RunAges(t, later);
    hide After, CanRun;
    assert GateSound(t, t.tasks[id]);
    CancelledIsNotParked(s, cancel, id);
  }

  /** Steps other than the goroutine's own leave it as it is or cancel it. */
  ghost predicate LeftOrCancelled(s: Runtime, t: Runtime, id: nat) {
    id in s.tasks ==> id in t.tasks && (t.tasks[id] == s.tasks[id] || t.tasks[id] == Cancelled(s, s.tasks[id]))
  }

  lemma ApplyTouches(s: Runtime, step: ApplyStep, id: nat)
    requires ApplyEnabled(s, step)
    ensures LeftOrCancelled(s, ApplyStepped(s, step), id)
  {
    hide OldOf, Cancelled;
  }

  lemma StopTouches(s: Runtime, step: StopStep, id: nat)
    requires StopEnabled(s, step)
    ensures LeftOrCancelled(s, StopStepped(s, step), id)
  {
    hide Cancelled;
  }

  lemma CallTouches(s: Runtime, caller: nat, step: CallerStep, id: nat)
    requires CallEnabled(s, caller, step)
    ensures LeftOrCancelled(s, CallStepped(s, caller, step), id)
  {
    hide Cancelled;
  }

  lemma TaskTouches(s: Runtime, i: nat, step: TaskStep, id: nat)
    requires TaskEnabled(s, i, step)
    requires i == id ==> s.tasks[id].stage.Parked? && !GateOpen(s, s.tasks[id])
    ensures LeftOrCancelled(s, TaskStepped(s, i, step), id)
  {}

  /** The step that cancels a parked goroutine under a held gate turns it away. */
  lemma CancelledIsNotParked(s: Runtime, step: Step, id: nat)
    requires Invariant(s) && Enabled(s, step) && id in s.tasks && s.tasks[id].stage.Parked? && !GateOpen(s, s.tasks[id])
    requires id in Apply(s, step).tasks && Apply(s, step).tasks[id].cancelled
    ensures Apply(s, step).tasks[id].stage.TurnedAway?
  {
    assert GateSound(s, s.tasks[id]);
    hide Invariant, ApplyStepped, StopStepped, TaskStepped, CallStepped, ApplyEnabled, StopEnabled, TaskEnabled, CallEnabled;
    match step
    case Around(_) =>
    case ToApply(apply) => ApplyTouches(s, apply, id);
    case ToStop(stop) => StopTouches(s, stop, id);
    case Goroutine(i, task) => TaskTouches(s, i, task, id);
    case Call(caller, call) => CallTouches(s, caller, call, id);
  }

  lemma {:induction false} Extend(s: Runtime, run: seq<Step>, step: Step)
    requires CanRun(s, run) && Enabled(After(s, run), step)
    ensures CanRun(s, run + [step]) && After(s, run + [step]) == Apply(After(s, run), step)
    decreases |run|
  {
    var more := run + [step];
    if run == [] {
      assert more[1..] == [];
      assert CanRun(Apply(s, step), []);
    } else {
      assert more[1..] == run[1..] + [step] && more[0] == run[0];
      Extend(Apply(s, run[0]), run[1..], step);
    }
  }

  lemma Then(s: Runtime, run: seq<Step>, step: Step) returns (more: seq<Step>)
    requires CanRun(s, run) && Enabled(After(s, run), step)
    ensures more == run + [step] && CanRun(s, more) && After(s, more) == Apply(After(s, run), step)
  {
    Extend(s, run, step);
    more := run + [step];
  }

  /** Start, hold gate 0, apply settings: collector 7 is started under the gate. */
  lemma StartedUnderGate() returns (run: seq<Step>)
    ensures CanRun(NEW_RUNTIME, run)
    ensures After(NEW_RUNTIME, run)
            == Runtime(true, false, Some(0), Some(8), Some(0), map[0 := false],
                       map[0 := Task(7, 8, Some(0), false, false, Starting)], Idle, map[])
  {
    hide CanRun, After;
    run := [];
    NothingDone();
    run := Then(NEW_RUNTIME, run, Around(Start));
    run := Then(NEW_RUNTIME, run, Around(Hold(0)));
    run := Then(NEW_RUNTIME, run, ToApply(BeginApply(7, 8)));
    run := Then(NEW_RUNTIME, run, ToApply(ReadOld));
    run := Then(NEW_RUNTIME, run, ToApply(Persist(true)));
    run := Then(NEW_RUNTIME, run, ToApply(Check));
    run := Then(NEW_RUNTIME, run, ToApply(Launch(0)));
  }

  lemma NothingDone()
    ensures CanRun(NEW_RUNTIME, []) && After(NEW_RUNTIME, []) == NEW_RUNTIME
  {}

  /** A run in which a collector is cancelled while its gate is held, and enters `Run` once it is released. */
  lemma CancelledYetEnters() returns (run: seq<Step>)
    ensures CanRun(NEW_RUNTIME, run)
    ensures var s := After(NEW_RUNTIME, run);
            && Gated(s, 0, 0) && s.tasks[0].cancelled && !Open(s, 0) && !DoneClosed(s, 0)
            && GateEnabled(s, Release(0)) && EntersLater(GateStepped(s, Release(0)), 0)
  {
    run := StartedUnderGate();
    hide CanRun, After, EntersLater;
    run := Then(NEW_RUNTIME, run, Call(0, ReadCurrent));
    run := Then(NEW_RUNTIME, run, Call(0, CancelCurrent));
    EntersIff(run, 0, 0);
  }

  /**
    The same to anyone outside: cancelled under a held gate, its done channel still open. But this one
    was parked when it was cancelled and stays out. So short of the closed channel nothing a caller
    sees tells the two apart; with it closed, none enters (`CancelledStaysOut`).
   */
  lemma CancelledAndStaysOut() returns (run: seq<Step>)
    ensures CanRun(NEW_RUNTIME, run)
    ensures var s := After(NEW_RUNTIME, run);
            && Gated(s, 0, 0) && s.tasks[0].cancelled && !Open(s, 0) && !DoneClosed(s, 0)
            && GateEnabled(s, Release(0)) && !EntersLater(GateStepped(s, Release(0)), 0)
  {
    run := StartedUnderGate();
    hide CanRun, After, EntersLater;
    run := Then(NEW_RUNTIME, run, Goroutine(0, Park));
    run := Then(NEW_RUNTIME, run, Call(0, ReadCurrent));
    run := Then(NEW_RUNTIME, run, Call(0, CancelCurrent));
    EntersIff(run, 0, 0);
  }

  lemma PassingIsARun(s: Runtime, id: nat)
    requires TaskEnabled(s, id, PassGate)
    ensures EntersLater(s, id)
  {
    var t := TaskStepped(s, id, PassGate);
    var run := [Goroutine(id, PassGate)];
    assert run[1..] == [];
    assert CanRun(t, []) && After(t, []) == t;
    assert CanRun(s, run) && After(s, run) == t;
  }

  /**
    A caller of `cancelCurrentCollector` waits for the goroutine to end. If the gate is still held
    when it returns, that collector never enters `Run`, even if the gate is released later.
   */
  lemma CancelledStaysOut(run: seq<Step>, caller: nat, id: nat, gate: nat, later: seq<Step>)
    requires CanRun(NEW_RUNTIME, run)
    requires var s := After(NEW_RUNTIME, run);
             && caller in s.callers && s.callers[caller] == Returned(Some(id))
             && Gated(s, id, gate) && !Open(s, gate) && CanRun(s, later)
    ensures id in After(After(NEW_RUNTIME, run), later).tasks
    ensures !After(After(NEW_RUNTIME, run), later).tasks[id].entered
  {
    Reachable(run);
    HeldBack(run, id, gate);
    var s := After(NEW_RUNTIME, run);
    RunAges(s, later);
    hide After, CanRun;
    assert CallerSound(s, s.callers[caller]);
  }

  // ----- nobody waits for ever

  function Rank(stage: Stage): nat {
    match stage
    case Starting => 6 case Parked => 5 case TurnedAway => 4 case Running => 3 case Ended => 2 case Closed => 1 case Gone => 0
  }

  ghost predicate WaitsFor(s: Runtime, id: nat) {
    || (s.phase.Waiting? && s.phase.prior.task == id)
    || (s.phase.TimedOut? && s.phase.prior.task == id)
    || (s.phase.StopWaiting? && s.phase.task == id)
    || exists c :: c in s.callers && s.callers[c] == Awaiting(id)
  }

  /**
    Whoever waits for a goroutine has cancelled it, so a held gate cannot keep them waiting: until
    its done channel is closed the goroutine can take a step of its own, and each brings it nearer.
   */
  lemma WaitedForCanEnd(run: seq<Step>, id: nat) returns (step: TaskStep)
    requires CanRun(NEW_RUNTIME, run) && WaitsFor(After(NEW_RUNTIME, run), id)
    requires !DoneClosed(After(NEW_RUNTIME, run), id)
    ensures var s := After(NEW_RUNTIME, run);
            && TaskEnabled(s, id, step)
            && Rank(TaskStepped(s, id, step).tasks[id].stage) < Rank(s.tasks[id].stage)
  {
    Reachable(run);
    var s := After(NEW_RUNTIME, run);
    hide After, CanRun;
    WaitedForIsCancelled(s, id);
    var t := s.tasks[id];
    assert GateSound(s, t);
    step := match t.stage
      case Starting => if t.gate.Some? then Refuse else PassGate
      case Parked => PassGate
      case TurnedAway => Refuse
      case Running => Finish
      case _ => CloseDone;
  }

  lemma WaitedForIsCancelled(s: Runtime, id: nat)
    requires Invariant(s) && WaitsFor(s, id)
    ensures id in s.tasks && s.tasks[id].cancelled
  {
    if c :| c in s.callers && s.callers[c] == Awaiting(id) {
      assert CallerSound(s, s.callers[c]);
    }
  }
}
