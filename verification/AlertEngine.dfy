/**
  The transactional alert engine: `Engine.Evaluate` of `internal/alerts/engine.go` over the
  tables of `internal/storage/alerts.go`. A table is a map or a sequence of rows; a
  transaction works on copies and replaces the fields only when it commits.
 */
module AlertEngine {
  import opened AlertRules
  import opened Common
  import opened AlertHistory

  datatype Kind = OpenedKind | ResolvedKind

  datatype Transition = Transition(rule: RuleName, kind: Kind, severity: Severity, at: Time, evidence: Evidence)

  /** One row of the alerts table; an open row has no resolution time yet. */
  datatype AlertRow = AlertRow(rule: RuleName, isOpen: bool, severity: Severity, openedAt: Time, resolvedAt: Time, evidence: Evidence)

  datatype AuditRow = AuditRow(at: Time, kind: Kind, rule: RuleName, severity: Severity, evidence: Evidence)

  datatype Failure = InvalidInput | ClockRegressed | InvalidMutation | CorruptState

  datatype Result<+T> = Ok(value: T) | Err(error: Failure)

  datatype Tables = Tables(states: map<RuleName, State>, alerts: seq<AlertRow>, audit: seq<AuditRow>)

  const EMPTY_TABLES: Tables := Tables(map[], [], [])

  // ----- reading the tables

  function StateOf(states: map<RuleName, State>, rule: RuleName): State {
    if rule in states then states[rule] else NEW_STATE
  }

  function OpenRules(alerts: seq<AlertRow>): set<RuleName> {
    set i | 0 <= i < |alerts| && alerts[i].isOpen :: alerts[i].rule
  }

  predicate StatesOk(states: map<RuleName, State>) {
    forall r :: r in states ==> StoredStateOk(states[r])
  }

  // ----- applying transitions

  predicate TransitionOk(t: Transition) {
    t.at != ZERO_TIME && EvidenceOk(t.evidence)
  }

  predicate MutationOk(states: map<RuleName, State>, transitions: seq<Transition>) {
    StatesOk(states) && forall i :: 0 <= i < |transitions| ==> TransitionOk(transitions[i])
  }

  /** `INSERT OR IGNORE` against the unique index on open rules, or `UPDATE` of the open row, and the audit row if either changed anything. */
  function ApplyTransition(t: Tables, tr: Transition): Tables {
    var open := OpenRules(t.alerts);
    match tr.kind
    case OpenedKind =>
      if tr.rule in open then t
      else t.(alerts := t.alerts + [AlertRow(tr.rule, true, tr.severity, tr.at, ZERO_TIME, tr.evidence)],
              audit := t.audit + [AuditRow(tr.at, OpenedKind, tr.rule, tr.severity, tr.evidence)])
    case ResolvedKind =>
      if tr.rule !in open then t
      else t.(alerts := Resolve(t.alerts, tr), audit := t.audit + [AuditRow(tr.at, ResolvedKind, tr.rule, tr.severity, tr.evidence)])
  }

  function Resolve(alerts: seq<AlertRow>, tr: Transition): (r: seq<AlertRow>)
    ensures |r| == |alerts|
    ensures forall i :: 0 <= i < |alerts| ==>
              r[i] == if alerts[i].rule == tr.rule && alerts[i].isOpen
                      then alerts[i].(isOpen := false, resolvedAt := tr.at, evidence := tr.evidence) else alerts[i]
  {
    if alerts == [] then []
    else
      [if alerts[0].rule == tr.rule && alerts[0].isOpen
       then alerts[0].(isOpen := false, resolvedAt := tr.at, evidence := tr.evidence) else alerts[0]] + Resolve(alerts[1..], tr)
  }

  predicate Changes(t: Tables, tr: Transition) {
    (tr.kind == OpenedKind) != (tr.rule in OpenRules(t.alerts))
  }

  /** The upsert of one state: an older evaluation never replaces a newer one. */
  function PutState(states: map<RuleName, State>, rule: RuleName, s: State): map<RuleName, State> {
    if rule in states && s.lastEvaluatedAt < states[rule].lastEvaluatedAt then states else states[rule := s]
  }

  // ----- one evaluation of all rules

  /** The work in progress of the callback: next states, open rules, transitions found. */
  datatype Work = Work(states: map<RuleName, State>, open: set<RuleName>, transitions: seq<Transition>)

  function StepWork(w: Work, rule: RuleName, input: Input, config: Config): Work {
    var d := Evaluate(rule, input, StateOf(w.states, rule), rule in w.open, config);
    var states := w.states[rule := d.next];
    if d.shouldOpen && rule !in w.open then
      Work(states, w.open + {rule}, w.transitions + [Transition(rule, OpenedKind, d.severity, input.at, d.evidence)])
    else if d.shouldResolve && rule in w.open then
      Work(states, w.open - {rule}, w.transitions + [Transition(rule, ResolvedKind, d.severity, input.at, d.evidence)])
    else Work(states, w.open, w.transitions)
  }

  function RunWork(w: Work, rules: seq<RuleName>, input: Input, config: Config): Work {
    if rules == [] then w
    else StepWork(RunWork(w, Front(rules), input, config), Last(rules), input, config)
  }

  predicate AnyRegressed(states: map<RuleName, State>, rules: seq<RuleName>, at: Time) {
    exists i :: 0 <= i < |rules| && Regressed(StateOf(states, rules[i]), at)
  }

  // ----- the transaction as a function of the tables

  function Persist(states: map<RuleName, State>, next: map<RuleName, State>, rules: seq<RuleName>): map<RuleName, State>
    requires forall i :: 0 <= i < |rules| ==> rules[i] in next
  {
    if rules == [] then states
    else PutState(Persist(states, next, Front(rules)), Last(rules), next[Last(rules)])
  }

  function ApplyAll(t: Tables, transitions: seq<Transition>): Tables {
    if transitions == [] then t else ApplyTransition(ApplyAll(t, Front(transitions)), Last(transitions))
  }

  /** The transitions that changed a row, which is what the caller is told. */
  function Applied(t: Tables, transitions: seq<Transition>): seq<Transition> {
    if transitions == [] then []
    else Applied(t, Front(transitions)) +
         (if Changes(ApplyAll(t, Front(transitions)), Last(transitions)) then [Last(transitions)] else [])
  }

  function Callback(t: Tables, input: Input, config: Config): Work {
    RunWork(Work(t.states, OpenRules(t.alerts), []), STABLE_ORDER, input, config)
  }

  predicate Covers(states: map<RuleName, State>) {
    forall i :: 0 <= i < |STABLE_ORDER| ==> STABLE_ORDER[i] in states
  }

  function Commit(t: Tables, w: Work): Tables
    requires Covers(w.states)
  {
    ApplyAll(t.(states := Persist(t.states, w.states, STABLE_ORDER)), w.transitions)
  }

  function Transaction(t: Tables, input: Input, config: Config): (Tables, Result<seq<Transition>>) {
    if !ValidInput(input) then (t, Err(InvalidInput))
    else if !StatesOk(t.states) then (t, Err(CorruptState))
    else if AnyRegressed(t.states, STABLE_ORDER, input.at) then (t, Err(ClockRegressed))
    else
      var w := Callback(t, input, config);
      RunWorkCovers(Work(t.states, OpenRules(t.alerts), []), STABLE_ORDER, input, config);
      if !MutationOk(w.states, w.transitions) then (t, Err(InvalidMutation))
      else (Commit(t, w), Ok(Applied(t, w.transitions)))
  }

  lemma {:induction false} RunWorkCovers(w: Work, rules: seq<RuleName>, input: Input, config: Config)
    ensures forall i :: 0 <= i < |rules| ==> rules[i] in RunWork(w, rules, input, config).states
    decreases |rules|
  {
    hide Evaluate;
    if rules != [] {
      RunWorkCovers(w, Front(rules), input, config);
    }
  }

  // ----- the rules do not see each other

  function TransitionLog(transitions: seq<Transition>, rule: RuleName): seq<bool> {
    if transitions == [] then []
    else TransitionLog(Front(transitions), rule) +
         (if Last(transitions).rule == rule then [Last(transitions).kind == OpenedKind] else [])
  }

  function AuditLog(audit: seq<AuditRow>, rule: RuleName): seq<bool> {
    if audit == [] then []
    else AuditLog(Front(audit), rule) + (if Last(audit).rule == rule then [Last(audit).kind == OpenedKind] else [])
  }

  function View(w: Work, rule: RuleName): RuleRun {
    RuleRun(StateOf(w.states, rule), rule in w.open, TransitionLog(w.transitions, rule))
  }

  lemma StepWorkView(w: Work, rule: RuleName, input: Input, config: Config, other: RuleName)
    ensures View(StepWork(w, rule, input, config), other) ==
              if other == rule then StepRule(rule, config, View(w, rule), input) else View(w, other)
  {
    hide Evaluate, TransitionLog;
    var d := Evaluate(rule, input, StateOf(w.states, rule), rule in w.open, config);
    var kind := if rule in w.open then ResolvedKind else OpenedKind;
    LogAppend(w.transitions, Transition(rule, kind, d.severity, input.at, d.evidence), other);
  }

  lemma LogAppend(transitions: seq<Transition>, tr: Transition, rule: RuleName)
    ensures TransitionLog(transitions + [tr], rule) ==
              TransitionLog(transitions, rule) + (if tr.rule == rule then [tr.kind == OpenedKind] else [])
  {
    assert Front(transitions + [tr]) == transitions;
  }

  /** Evaluating a list of distinct rules steps each of them once, from its own state, and no other. */
  lemma {:induction false} RunWorkPointwise(w: Work, rules: seq<RuleName>, input: Input, config: Config, other: RuleName)
    requires Distinct(rules)
    ensures View(RunWork(w, rules, input, config), other) ==
              if other in rules then StepRule(other, config, View(w, other), input) else View(w, other)
    decreases |rules|
  {
    hide StepWork, View, StepRule;
    if rules != [] {
      RunWorkPointwise(w, Front(rules), input, config, other);
      StepWorkView(RunWork(w, Front(rules), input, config), Last(rules), input, config, other);
      assert rules == Front(rules) + [Last(rules)];
    }
  }

  lemma EveryRuleIsListed(rule: RuleName)
    ensures rule in STABLE_ORDER && Distinct(STABLE_ORDER)
  {
    match rule
    case LoggerOffline => assert STABLE_ORDER[0] == rule;
    case TelemetryStale => assert STABLE_ORDER[1] == rule;
    case InverterFault => assert STABLE_ORDER[2] == rule;
    case ZeroSunnyGeneration => assert STABLE_ORDER[3] == rule;
    case PersistentUnderproduction => assert STABLE_ORDER[4] == rule;
    case GridVoltage => assert STABLE_ORDER[5] == rule;
    case GridFrequency => assert STABLE_ORDER[6] == rule;
  }

  // ----- the table of alerts follows the open set

  ghost predicate OneOpenPerRule(alerts: seq<AlertRow>) {
    forall i, j :: 0 <= i < j < |alerts| && alerts[i].isOpen && alerts[j].isOpen ==> alerts[i].rule != alerts[j].rule
  }

  lemma OpenRulesAppend(alerts: seq<AlertRow>, row: AlertRow)
    requires row.isOpen
    ensures OpenRules(alerts + [row]) == OpenRules(alerts) + {row.rule}
    ensures OneOpenPerRule(alerts) && row.rule !in OpenRules(alerts) ==> OneOpenPerRule(alerts + [row])
  {
    var more := alerts + [row];
    assert more[|alerts|] == row;
    forall r | r in OpenRules(alerts) ensures r in OpenRules(more) {
      var i :| 0 <= i < |alerts| && alerts[i].isOpen && alerts[i].rule == r;
      assert more[i] == alerts[i];
    }
    forall r | r in OpenRules(more) ensures r in OpenRules(alerts) + {row.rule} {
      var i :| 0 <= i < |more| && more[i].isOpen && more[i].rule == r;
      if i < |alerts| {
        assert more[i] == alerts[i];
      }
    }
  }

  lemma OpenRulesResolve(alerts: seq<AlertRow>, tr: Transition)
    ensures OpenRules(Resolve(alerts, tr)) == OpenRules(alerts) - {tr.rule}
    ensures OneOpenPerRule(alerts) ==> OneOpenPerRule(Resolve(alerts, tr))
  {
    var after := Resolve(alerts, tr);
    forall r | r in OpenRules(alerts) && r != tr.rule ensures r in OpenRules(after) {
      var i :| 0 <= i < |alerts| && alerts[i].isOpen && alerts[i].rule == r;
      assert after[i] == alerts[i];
    }
  }

  lemma ApplyFollows(t: Tables, tr: Transition)
    requires OneOpenPerRule(t.alerts) && Changes(t, tr)
    ensures var u := ApplyTransition(t, tr);
            && OneOpenPerRule(u.alerts) && u.states == t.states
            && OpenRules(u.alerts) == (if tr.kind == OpenedKind then OpenRules(t.alerts) + {tr.rule} else OpenRules(t.alerts) - {tr.rule})
            && u.audit == t.audit + [AuditRow(tr.at, tr.kind, tr.rule, tr.severity, tr.evidence)]
  {
    hide OpenRules, Resolve;
    OpenRulesAppend(t.alerts, AlertRow(tr.rule, true, tr.severity, tr.at, ZERO_TIME, tr.evidence));
    OpenRulesResolve(t.alerts, tr);
  }

  lemma AuditAppend(audit: seq<AuditRow>, row: AuditRow, rule: RuleName)
    ensures AuditLog(audit + [row], rule) == AuditLog(audit, rule) + (if row.rule == rule then [row.kind == OpenedKind] else [])
  {
    assert Front(audit + [row]) == audit;
  }

  /** The transitions found so far, applied to the tables, give exactly the open set found so far. */
  ghost predicate Follows(t: Tables, transitions: seq<Transition>, open: set<RuleName>, rule: RuleName) {
    var u := ApplyAll(t, transitions);
    && OneOpenPerRule(u.alerts) && u.states == t.states
    && OpenRules(u.alerts) == open
    && Applied(t, transitions) == transitions
    && AuditLog(u.audit, rule) == AuditLog(t.audit, rule) + TransitionLog(transitions, rule)
  }

  lemma FollowsAppend(t: Tables, transitions: seq<Transition>, open: set<RuleName>, tr: Transition, rule: RuleName)
    requires Follows(t, transitions, open, rule)
    requires (tr.kind == OpenedKind) != (tr.rule in open)
    ensures Follows(t, transitions + [tr], if tr.kind == OpenedKind then open + {tr.rule} else open - {tr.rule}, rule)
  {
    hide OpenRules, OneOpenPerRule, ApplyTransition, ApplyAll, Applied, TransitionLog, AuditLog;
    var u := ApplyAll(t, transitions);
    ApplyAllAppend(t, transitions, tr);
    ApplyFollows(u, tr);
    AuditAppend(u.audit, AuditRow(tr.at, tr.kind, tr.rule, tr.severity, tr.evidence), rule);
    LogAppend(transitions, tr, rule);
    var one := if tr.rule == rule then [tr.kind == OpenedKind] else [];
    assert AuditLog(t.audit, rule) + TransitionLog(transitions, rule) + one
        == AuditLog(t.audit, rule) + (TransitionLog(transitions, rule) + one);
  }

  lemma ApplyAllAppend(t: Tables, transitions: seq<Transition>, tr: Transition)
    ensures ApplyAll(t, transitions + [tr]) == ApplyTransition(ApplyAll(t, transitions), tr)
    ensures Applied(t, transitions + [tr]) == Applied(t, transitions) + (if Changes(ApplyAll(t, transitions), tr) then [tr] else [])
  {
    hide Changes, ApplyTransition;
    assert Front(transitions + [tr]) == transitions;
  }

  lemma StepWorkShape(w: Work, rule: RuleName, input: Input, config: Config) returns (tr: Transition)
    ensures (tr.kind == OpenedKind) != (tr.rule in w.open)
    ensures var next := StepWork(w, rule, input, config);
            || (next.transitions == w.transitions && next.open == w.open)
            || (next.transitions == w.transitions + [tr] &&
                next.open == (if tr.kind == OpenedKind then w.open + {tr.rule} else w.open - {tr.rule}))
  {
    hide Evaluate;
    var d := Evaluate(rule, input, StateOf(w.states, rule), rule in w.open, config);
    tr := Transition(rule, if rule in w.open then ResolvedKind else OpenedKind, d.severity, input.at, d.evidence);
  }

  /** Every transition found is applied, the open rows are the open set, and the audit log gains exactly the transitions. */
  lemma {:induction false} ApplyAllFollows(t: Tables, rules: seq<RuleName>, input: Input, config: Config, rule: RuleName)
    requires OneOpenPerRule(t.alerts)
    ensures var w := RunWork(Work(t.states, OpenRules(t.alerts), []), rules, input, config);
            Follows(t, w.transitions, w.open, rule)
    decreases |rules|
  {
    hide StepWork, OneOpenPerRule;
    var start := Work(t.states, OpenRules(t.alerts), []);
    if rules != [] {
      hide Follows, OpenRules;
      ApplyAllFollows(t, Front(rules), input, config, rule);
      var before := RunWork(start, Front(rules), input, config);
      var tr := StepWorkShape(before, Last(rules), input, config);
      if StepWork(before, Last(rules), input, config).transitions != before.transitions {
        FollowsAppend(t, before.transitions, before.open, tr, rule);
      }
    }
  }

  lemma {:induction false} AppliedIgnoresStates(t: Tables, u: Tables, transitions: seq<Transition>)
    requires t.alerts == u.alerts && t.audit == u.audit
    ensures Applied(t, transitions) == Applied(u, transitions)
    ensures ApplyAll(t, transitions).alerts == ApplyAll(u, transitions).alerts
    ensures ApplyAll(t, transitions).audit == ApplyAll(u, transitions).audit
    ensures ApplyAll(t, transitions).states == t.states
    decreases |transitions|
  {
    hide OpenRules, Resolve;
    if transitions != [] {
      AppliedIgnoresStates(t, u, Front(transitions));
    }
  }

  // ----- the tables, updated in place

  /** A state that makes sense: it counts from zero, names a day or none, and remembers nothing later than its evaluation. */
  predicate Storable(s: State) {
    && s.consecutive >= 0 && (s.lastKey == NoDay || s.lastKey.Day?)
    && (s.lastEvaluatedAt == 0 || s.pendingSince == 0 || s.pendingSince <= s.lastEvaluatedAt)
    && (s.lastEvaluatedAt == 0 || s.lastEvidenceAt == 0 || s.lastEvidenceAt <= s.lastEvaluatedAt)
  }

  lemma MutationOkIs(next: map<RuleName, State>, transitions: seq<Transition>)
    ensures MutationOk(next, transitions) <==>
              && (forall rule :: rule in next ==> Storable(next[rule]))
              && (forall i :: 0 <= i < |transitions| ==>
                    transitions[i].at != 0 && forall k :: k in transitions[i].evidence.timestamps ==> transitions[i].evidence.timestamps[k] != 0)
  {
    forall rule | rule in next ensures StoredStateOk(next[rule]) <==> Storable(next[rule]) {}
  }

  class AlertRepository {
    var states: map<RuleName, State>
    var alerts: seq<AlertRow>
    var audit: seq<AuditRow>

    constructor ()
      ensures Contents() == EMPTY_TABLES
    {
      states, alerts, audit := map[], [], [];
    }

    function Contents(): Tables
      reads this
    {
      Tables(states, alerts, audit)
    }

    /** Checks a mutation and commits it, or changes nothing. */
    method Transact(next: map<RuleName, State>, transitions: seq<Transition>) returns (r: Result<seq<Transition>>)
      requires Covers(next)
      modifies this
      ensures r.Ok? <==>
                && (forall rule :: rule in next ==> Storable(next[rule]))
                && (forall i :: 0 <= i < |transitions| ==>
                      transitions[i].at != 0 && forall k :: k in transitions[i].evidence.timestamps ==> transitions[i].evidence.timestamps[k] != 0)
      ensures !MutationOk(next, transitions) ==> Contents() == old(Contents()) && r == Err(InvalidMutation)
      ensures MutationOk(next, transitions) ==>
                Contents() == Commit(old(Contents()), Work(next, {}, transitions)) &&
                r == Ok(Applied(old(Contents()), transitions))
    {
      hide MutationOk, PutState, ApplyTransition, Changes, Storable;
      MutationOkIs(next, transitions);
      if !MutationOk(next, transitions) {
        return Err(InvalidMutation);
      }
      var tx := Tables(states, alerts, audit);
      ghost var t0 := tx;
      for i := 0 to |STABLE_ORDER|
        invariant tx == t0.(states := Persist(t0.states, next, STABLE_ORDER[..i]))
      {
        assert Front(STABLE_ORDER[..i + 1]) == STABLE_ORDER[..i];
        tx := tx.(states := PutState(tx.states, STABLE_ORDER[i], next[STABLE_ORDER[i]]));
      }
      assert STABLE_ORDER[..|STABLE_ORDER|] == STABLE_ORDER;
      ghost var persisted := tx;
      var applied := [];
      for i := 0 to |transitions|
        invariant tx == ApplyAll(persisted, transitions[..i])
        invariant applied == Applied(persisted, transitions[..i])
      {
        assert transitions[..i + 1] == transitions[..i] + [transitions[i]];
        ApplyAllAppend(persisted, transitions[..i], transitions[i]);
        if Changes(tx, transitions[i]) {
          applied := applied + [transitions[i]];
        }
        tx := ApplyTransition(tx, transitions[i]);
      }
      assert transitions[..|transitions|] == transitions;
      AppliedIgnoresStates(t0, persisted, transitions);
      states, alerts, audit := tx.states, tx.alerts, tx.audit;
      r := Ok(applied);
    }
  }

  class Engine {
    const repository: AlertRepository
    const config: Config

    constructor (repository: AlertRepository, config: Config)
      requires ValidConfig(config)
      ensures this.repository == repository && this.config == config
    {
      this.repository, this.config := repository, config;
    }

    method Evaluate(input: Input) returns (r: Result<seq<Transition>>)
      modifies repository
      ensures (repository.Contents(), r) == Transaction(old(repository.Contents()), input, config)
    {
      hide AlertRules.Evaluate, ValidInput, MutationOk, StatesOk, Commit, Applied, OpenRules, AnyRegressed, RunWork;
      if !ValidInput(input) {
        return Err(InvalidInput);
      }
      if !StatesOk(repository.states) {
        return Err(CorruptState);
      }
      var regressed, work := Decide(Work(repository.states, OpenRules(repository.alerts), []), input);
      if regressed {
        return Err(ClockRegressed);
      }
      RunWorkCovers(Work(repository.states, OpenRules(repository.alerts), []), STABLE_ORDER, input, config);
      CommitIgnoresOpen(repository.Contents(), work, Work(work.states, {}, work.transitions));
      r := repository.Transact(work.states, work.transitions);
    }

    /** The callback: every rule in turn, stopping at the first one whose clock went back. */
    method Decide(start: Work, input: Input) returns (regressed: bool, work: Work)
      ensures regressed == AnyRegressed(start.states, STABLE_ORDER, input.at)
      ensures !regressed ==> work == RunWork(start, STABLE_ORDER, input, config)
    {
      hide AlertRules.Evaluate, Regressed, View;
      var states, open, transitions := start.states, start.open, start.transitions;
      for i := 0 to |STABLE_ORDER|
        invariant Work(states, open, transitions) == RunWork(start, STABLE_ORDER[..i], input, config)
        invariant forall j :: 0 <= j < i ==> !Regressed(StateOf(start.states, STABLE_ORDER[j]), input.at)
      {
        var rule := STABLE_ORDER[i];
        var state := StateOf(states, rule);
        StableOrderDistinct(i);
        UntouchedSoFar(start, STABLE_ORDER[..i], input, config, rule);
        if Regressed(state, input.at) {
          return true, start;
        }
        var decision := AlertRules.Evaluate(rule, input, state, rule in open, config);
        states := states[rule := decision.next];
        if decision.shouldOpen && rule !in open {
          transitions := transitions + [Transition(rule, OpenedKind, decision.severity, input.at, decision.evidence)];
          open := open + {rule};
        } else if decision.shouldResolve && rule in open {
          transitions := transitions + [Transition(rule, ResolvedKind, decision.severity, input.at, decision.evidence)];
          open := open - {rule};
        }
        assert Front(STABLE_ORDER[..i + 1]) == STABLE_ORDER[..i];
      }
      assert STABLE_ORDER[..|STABLE_ORDER|] == STABLE_ORDER;
      return false, Work(states, open, transitions);
    }
  }

  /** An engine, if there is a repository and the configuration makes sense. */
  method NewEngine(repository: AlertRepository?, config: Config) returns (engine: Engine?)
    ensures engine != null <==>
              && repository != null
              && config.staleAfter > 0 && config.zeroGenerationFor > 0 && config.voltageFor > 0 && config.frequencyFor > 0
              && config.underproductionDays > 0 && config.recoveryDays > 0
              && 0.0 <= config.minimumCoverage <= 100.0 && config.maximumZeroPower >= 0.0 && config.minimumIrradiance >= 0.0
              && 0.0 <= config.underproductionRatio < config.recoveryRatio <= 1.0
              && config.minimumVoltage < config.maximumVoltage && config.minimumFrequency < config.maximumFrequency
    ensures engine != null ==> engine.repository == repository && engine.config == config
  {
    if repository == null || !ValidConfig(config) {
      return null;
    }
    engine := new Engine(repository, config);
  }

  lemma UntouchedSoFar(start: Work, rules: seq<RuleName>, input: Input, config: Config, rule: RuleName)
    requires Distinct(rules) && rule !in rules
    ensures StateOf(RunWork(start, rules, input, config).states, rule) == StateOf(start.states, rule)
  {
    RunWorkPointwise(start, rules, input, config, rule);
    assert View(start, rule).state == StateOf(start.states, rule);
  }

  lemma CommitIgnoresOpen(t: Tables, w: Work, v: Work)
    requires Covers(w.states) && w.states == v.states && w.transitions == v.transitions
    ensures Commit(t, w) == Commit(t, v)
  {}

  lemma StableOrderDistinct(n: nat)
    requires n < |STABLE_ORDER|
    ensures Distinct(STABLE_ORDER[..n]) && STABLE_ORDER[n] !in STABLE_ORDER[..n]
  {
    EveryRuleIsListed(LoggerOffline);
  }
}
