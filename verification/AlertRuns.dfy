/**
  Whole runs of the alert engine over its tables: any inputs, including invalid ones and
  clocks that go back. The tables always say, rule by rule, what the rule's own history says.
 */
module AlertRuns {
  import opened Common
  import opened AlertRules
  import opened AlertHistory
  import opened AlertEngine

  function TableRun(config: Config, inputs: seq<Input>): Tables {
    if inputs == [] then EMPTY_TABLES else Transaction(TableRun(config, Front(inputs)), Last(inputs), config).0
  }

  /** The inputs whose transaction committed. */
  function AcceptedOf(config: Config, inputs: seq<Input>): seq<Input> {
    if inputs == [] then []
    else if Transaction(TableRun(config, Front(inputs)), Last(inputs), config).1.Ok?
    then AcceptedOf(config, Front(inputs)) + [Last(inputs)]
    else AcceptedOf(config, Front(inputs))
  }

  /** What the tables say about one rule is what its run over the accepted history says. */
  predicate Agrees(t: Tables, config: Config, h: seq<Input>, rule: RuleName) {
    var r := RunRule(rule, config, h);
    && StateOf(t.states, rule) == r.state
    && (rule in OpenRules(t.alerts)) == r.open
    && AuditLog(t.audit, rule) == r.log
  }

  ghost predicate TableInv(t: Tables, config: Config, h: seq<Input>) {
    && OneOpenPerRule(t.alerts) && StatesOk(t.states)
    && (h == [] ==> t.states == map[])
    && forall rule :: Agrees(t, config, h, rule)
  }

  lemma RegressedIffEarlier(t: Tables, config: Config, h: seq<Input>, at: Time)
    requires TableInv(t, config, h) && Accepted(h)
    ensures AnyRegressed(t.states, STABLE_ORDER, at) <==> h != [] && at < Last(h).at
  {
    hide RunRule, OneOpenPerRule, StatesOk, OpenRules, AuditLog;
    forall rule ensures Regressed(StateOf(t.states, rule), at) <==> h != [] && at < Last(h).at {
      RunFacts(rule, config, h);
      assert Agrees(t, config, h, rule);
      if h != [] {
        NonZeroTimes(h);
      }
    }
    assert STABLE_ORDER[0] == LoggerOffline;
  }

  lemma ExtendRun(rule: RuleName, config: Config, h: seq<Input>, input: Input)
    ensures RunRule(rule, config, h + [input]) == StepRule(rule, config, RunRule(rule, config, h), input)
  {
    hide StepRule;
    assert Front(h + [input]) == h && Last(h + [input]) == input;
  }

  lemma ExtendAccepted(h: seq<Input>, input: Input)
    requires Accepted(h) && ValidInput(input) && (h != [] ==> Last(h).at <= input.at)
    ensures Accepted(h + [input])
  {
    hide ValidInput;
    assert Front(h + [input]) == h && Last(h + [input]) == input;
  }

  /** A step does the same to the state and openness whatever was logged before, and only appends to the log. */
  lemma LogIsAppended(rule: RuleName, config: Config, state: State, open: bool, log: seq<bool>, input: Input)
    ensures var fresh' := StepRule(rule, config, RuleRun(state, open, []), input);
            StepRule(rule, config, RuleRun(state, open, log), input) == fresh'.(log := log + fresh'.log)
  {
    hide Evaluate;
  }

  /** What the callback computes, rule by rule. */
  lemma CallbackView(t: Tables, config: Config, h: seq<Input>, input: Input, rule: RuleName)
    requires Agrees(t, config, h, rule)
    ensures var w, next := Callback(t, input, config), RunRule(rule, config, h + [input]);
            && StateOf(w.states, rule) == next.state
            && (rule in w.open) == next.open
            && RunRule(rule, config, h).log + TransitionLog(w.transitions, rule) == next.log
            && rule in w.states
  {
    hide StepRule, RunRule, OpenRules, RunWork, TransitionLog;
    var start := Work(t.states, OpenRules(t.alerts), []);
    EveryRuleIsListed(rule);
    RunWorkPointwise(start, STABLE_ORDER, input, config, rule);
    RunWorkCovers(start, STABLE_ORDER, input, config);
    ExtendRun(rule, config, h, input);
    var r := RunRule(rule, config, h);
    LogIsAppended(rule, config, r.state, r.open, r.log, input);
    NoLogYet(rule);
  }

  lemma NoLogYet(rule: RuleName)
    ensures TransitionLog([], rule) == []
  {}

  // ----- every mutation passes the repository's own validation

  ghost predicate TransitionsOk(transitions: seq<Transition>) {
    forall i :: 0 <= i < |transitions| ==> TransitionOk(transitions[i])
  }

  lemma {:induction false} FoundTransitionsOk(w: Work, rules: seq<RuleName>, input: Input, config: Config)
    requires Distinct(rules) && ValidInput(input) && TransitionsOk(w.transitions)
    requires forall rule :: StateInv(StateOf(w.states, rule)) && !Regressed(StateOf(w.states, rule), input.at)
    ensures TransitionsOk(RunWork(w, rules, input, config).transitions)
    decreases |rules|
  {
    hide Evaluate, ValidInput, StateInv, Regressed, TransitionOk, Distinct;
    if rules != [] {
      FrontDistinct(rules);
      FoundTransitionsOk(w, Front(rules), input, config);
      UntouchedSoFar(w, Front(rules), input, config, Last(rules));
      StepTransitionsOk(RunWork(w, Front(rules), input, config), Last(rules), input, config);
    }
  }

  lemma FrontDistinct(rules: seq<RuleName>)
    requires Distinct(rules) && rules != []
    ensures Distinct(Front(rules)) && Last(rules) !in Front(rules)
  {}

  lemma StepTransitionsOk(w: Work, rule: RuleName, input: Input, config: Config)
    requires ValidInput(input) && TransitionsOk(w.transitions)
    requires StateInv(StateOf(w.states, rule)) && !Regressed(StateOf(w.states, rule), input.at)
    ensures TransitionsOk(StepWork(w, rule, input, config).transitions)
  {
    hide Evaluate, EvidenceOk;
    EvaluateKeepsState(rule, input, StateOf(w.states, rule), rule in w.open, config);
  }

  lemma CallbackIsValid(t: Tables, config: Config, h: seq<Input>, input: Input)
    requires TableInv(t, config, h) && Accepted(h) && ValidInput(input) && !AnyRegressed(t.states, STABLE_ORDER, input.at)
    ensures var w := Callback(t, input, config); MutationOk(w.states, w.transitions)
    ensures Accepted(h + [input])
  {
    hide RunRule, OpenRules, AuditLog, StepRule, RunWork, ValidInput, Regressed, Evaluate, Accepted;
    RegressedIffEarlier(t, config, h, input.at);
    ExtendAccepted(h, input);
    var start := Work(t.states, OpenRules(t.alerts), []);
    forall rule ensures StateInv(StateOf(t.states, rule)) && !Regressed(StateOf(t.states, rule), input.at) {
      assert Agrees(t, config, h, rule);
      RunFacts(rule, config, h);
      EveryRuleIsListed(rule);
    }
    EveryRuleIsListed(LoggerOffline);
    FoundTransitionsOk(start, STABLE_ORDER, input, config);
    var w := Callback(t, input, config);
    forall rule | rule in w.states ensures StoredStateOk(w.states[rule]) {
      assert Agrees(t, config, h, rule);
      CallbackView(t, config, h, input, rule);
      RunFacts(rule, config, h + [input]);
    }
  }

  // ----- committing

  lemma {:induction false} PersistLatest(states: map<RuleName, State>, next: map<RuleName, State>, rules: seq<RuleName>, rule: RuleName)
    requires forall i :: 0 <= i < |rules| ==> rules[i] in next
    requires forall r :: r in states && r in next ==> states[r].lastEvaluatedAt <= next[r].lastEvaluatedAt
    ensures var p := Persist(states, next, rules);
            if rule in rules then rule in p && p[rule] == next[rule]
            else (rule in p <==> rule in states) && (rule in p ==> p[rule] == states[rule])
    decreases |rules|
  {
    if rules != [] {
      PersistLatest(states, next, Front(rules), rule);
      PersistLatest(states, next, Front(rules), Last(rules));
      assert rules == Front(rules) + [Last(rules)];
    }
  }

  lemma NewerStates(t: Tables, config: Config, h: seq<Input>, input: Input)
    requires TableInv(t, config, h) && Accepted(h) && Accepted(h + [input])
    ensures var w := Callback(t, input, config);
            forall r :: r in t.states && r in w.states ==> t.states[r].lastEvaluatedAt <= w.states[r].lastEvaluatedAt
  {
    hide RunRule, OpenRules, AuditLog, StepRule, RunWork, OneOpenPerRule, StatesOk;
    var w := Callback(t, input, config);
    forall r | r in t.states && r in w.states ensures t.states[r].lastEvaluatedAt <= w.states[r].lastEvaluatedAt {
      assert Agrees(t, config, h, r);
      CallbackView(t, config, h, input, r);
      RunFacts(r, config, h);
      RunFacts(r, config, h + [input]);
      assert Front(h + [input]) == h && Last(h + [input]) == input;
    }
  }

  /** An accepted input moves every rule one step and reports every transition; nothing found is ignored. */
  lemma AcceptedStep(t: Tables, config: Config, h: seq<Input>, input: Input)
    requires TableInv(t, config, h) && Accepted(h) && ValidInput(input) && !AnyRegressed(t.states, STABLE_ORDER, input.at)
    ensures Transaction(t, input, config).1 == Ok(Callback(t, input, config).transitions)
    ensures TableInv(Transaction(t, input, config).0, config, h + [input]) && Accepted(h + [input])
  {
    hide RunRule, OpenRules, AuditLog, StepRule, RunWork, ValidInput, Accepted, MutationOk, ApplyAll, Applied, Persist;
    CallbackIsValid(t, config, h, input);
    var w, u := Callback(t, input, config), Transaction(t, input, config).0;
    RunWorkCovers(Work(t.states, OpenRules(t.alerts), []), STABLE_ORDER, input, config);
    NewerStates(t, config, h, input);
    assert u == Commit(t, w);
    forall rule ensures Agrees(u, config, h + [input], rule) && OneOpenPerRule(u.alerts)
      && rule in u.states && StoredStateOk(u.states[rule]) && Applied(t, w.transitions) == w.transitions
    {
      CommitAgrees(t, config, h, input, rule);
      RunFacts(rule, config, h + [input]);
    }
    assert Agrees(u, config, h + [input], LoggerOffline);
  }

  lemma CommitAgrees(t: Tables, config: Config, h: seq<Input>, input: Input, rule: RuleName)
    requires Agrees(t, config, h, rule) && OneOpenPerRule(t.alerts) && Covers(Callback(t, input, config).states)
    requires var w := Callback(t, input, config);
             forall r :: r in t.states && r in w.states ==> t.states[r].lastEvaluatedAt <= w.states[r].lastEvaluatedAt
    ensures var w := Callback(t, input, config);
            var u := Commit(t, w);
            Agrees(u, config, h + [input], rule) && OneOpenPerRule(u.alerts) && rule in u.states &&
            Applied(t, w.transitions) == w.transitions
  {
    hide RunRule, OpenRules, AuditLog, StepRule, RunWork, ApplyAll, Applied, Persist, OneOpenPerRule, TransitionLog;
    var w := Callback(t, input, config);
    CallbackView(t, config, h, input, rule);
    EveryRuleIsListed(rule);
    PersistLatest(t.states, w.states, STABLE_ORDER, rule);
    AppliedIgnoresStates(t.(states := Persist(t.states, w.states, STABLE_ORDER)), t, w.transitions);
    ApplyAllFollows(t, STABLE_ORDER, input, config, rule);
  }

  /**
    After any inputs whatever, the tables agree rule by rule with the history of the inputs that
    were accepted, that history is in time order, and each rule has at most one open alert.
   */
  lemma {:induction false} EveryRunAgrees(config: Config, inputs: seq<Input>)
    ensures TableInv(TableRun(config, inputs), config, AcceptedOf(config, inputs))
    ensures Accepted(AcceptedOf(config, inputs))
    decreases |inputs|
  {
    hide Transaction, TableInv, Accepted;
    if inputs == [] {
      EmptyAgrees(config);
    } else {
      EveryRunAgrees(config, Front(inputs));
      var t, h := TableRun(config, Front(inputs)), AcceptedOf(config, Front(inputs));
      RunStep(t, config, h, Last(inputs));
    }
  }

  lemma EmptyAgrees(config: Config)
    ensures TableInv(EMPTY_TABLES, config, []) && Accepted([])
  {}

  /** One transaction: committed exactly when the input is valid and not earlier than the last one; otherwise nothing changes. */
  lemma RunStep(t: Tables, config: Config, h: seq<Input>, input: Input)
    requires TableInv(t, config, h) && Accepted(h)
    ensures var (u, r) := Transaction(t, input, config);
            && (r.Ok? <==> ValidInput(input) && (h == [] || Last(h).at <= input.at))
            && (r.Ok? ==> TableInv(u, config, h + [input]) && Accepted(h + [input]) && r.value == Callback(t, input, config).transitions)
            && (r.Err? ==> u == t && (r.error == InvalidInput || r.error == ClockRegressed))
  {
    hide Agrees, OneOpenPerRule, ValidInput, AnyRegressed, MutationOk, Callback, Commit, Applied, Accepted;
    RegressedIffEarlier(t, config, h, input.at);
    if ValidInput(input) && !AnyRegressed(t.states, STABLE_ORDER, input.at) {
      AcceptedStep(t, config, h, input);
    }
  }

  /** Which inputs are committed: those with sensible readings and times that are not earlier than the last one. */
  lemma CommittedIff(t: Tables, config: Config, h: seq<Input>, input: Input)
    requires TableInv(t, config, h) && Accepted(h)
    ensures Transaction(t, input, config).1.Ok? <==>
              && input.at != 0 && (h == [] || Last(h).at <= input.at)
              && (input.lastTelemetryAt == 0 || input.lastTelemetryAt <= input.at)
              && 0.0 <= input.coverage <= 100.0
              && input.irradiance >= 0.0 && input.acPower >= 0.0 && input.gridVoltage >= 0.0 && input.gridFrequency >= 0.0
              && (input.analysis.Some? ==>
                    var a := input.analysis.value;
                    input.analysisDay.Day? && a.expectedWh >= 0.0 && a.actualWh >= 0.0 && a.ratio >= 0.0 && a.confidenceValid)
  {
    hide TableInv, Accepted, Transaction;
    RunStep(t, config, h, input);
  }

  /** Every rule's transitions alternate, starting with opened, and its alert is open exactly when the last one opened it. */
  lemma TransitionsAlternate(config: Config, inputs: seq<Input>, rule: RuleName)
    ensures var t := TableRun(config, inputs);
            var log := AuditLog(t.audit, rule);
            && Alternates(log)
            && (rule in OpenRules(t.alerts) <==> log != [] && Last(log))
  {
    hide RunRule, TableRun, AcceptedOf, Accepted, OneOpenPerRule, StatesOk, AuditLog, OpenRules;
    EveryRunAgrees(config, inputs);
    var t, h := TableRun(config, inputs), AcceptedOf(config, inputs);
    assert Agrees(t, config, h, rule);
    RunFacts(rule, config, h);
  }

  // ----- replay

  lemma ReplayedRule(rule: RuleName, config: Config, h: seq<Input>, input: Input)
    requires Accepted(h) && Accepted(h + [input])
    ensures RunRule(rule, config, h + [input] + [input]) == RunRule(rule, config, h + [input])
  {
    hide RunRule, Evaluate, StateInv, Regressed, ValidInput;
    var r := RunRule(rule, config, h);
    assert Front(h + [input]) == h && Last(h + [input]) == input;
    RunFacts(rule, config, h);
    RunFacts(rule, config, h + [input]);
    ExtendRun(rule, config, h, input);
    ExtendRun(rule, config, h + [input], input);
    EvaluateKeepsState(rule, input, r.state, r.open, config);
    EvaluateTwice(rule, input, r.state, r.open, config);
  }

  lemma {:induction false} NoTransitions(transitions: seq<Transition>)
    requires forall rule :: TransitionLog(transitions, rule) == []
    ensures transitions == []
  {
    if transitions != [] {
      LastIsLogged(transitions);
    }
  }

  lemma LastIsLogged(transitions: seq<Transition>)
    requires transitions != []
    ensures |TransitionLog(transitions, Last(transitions).rule)| > 0
  {}

  lemma SameStates(a: map<RuleName, State>, b: map<RuleName, State>)
    requires forall rule :: rule in a && rule in b && StateOf(a, rule) == StateOf(b, rule)
    ensures a == b
  {
    assert forall rule :: rule in a && rule in b && a[rule] == StateOf(a, rule) && b[rule] == StateOf(b, rule);
  }

  /** Replaying an accepted input reports no transition and leaves every table as it was. */
  lemma ReplayChangesNothing(t: Tables, config: Config, h: seq<Input>, input: Input)
    requires TableInv(t, config, h) && Accepted(h) && Transaction(t, input, config).1.Ok?
    ensures var once := Transaction(t, input, config).0;
            Transaction(once, input, config) == (once, Ok([]))
  {
    hide RunRule, Transaction, OpenRules, AuditLog, TransitionLog, RunWork, ValidInput, OneOpenPerRule, StatesOk, Accepted;
    RunStep(t, config, h, input);
    var once := Transaction(t, input, config).0;
    LastOfAppend(h, input);
    RunStep(once, config, h + [input], input);
    var (twice, r) := Transaction(once, input, config);
    forall rule ensures TransitionLog(r.value, rule) == [] && StateOf(twice.states, rule) == StateOf(once.states, rule) {
      assert Agrees(once, config, h + [input], rule) && Agrees(twice, config, h + [input] + [input], rule);
      CallbackView(once, config, h + [input], input, rule);
      ReplayedRule(rule, config, h, input);
    }
    NoTransitions(r.value);
    QuietCommit(once, config, input);
    forall rule ensures rule in twice.states && rule in once.states {
      EveryStatePresent(t, config, h, input, rule);
      EveryStatePresent(once, config, h + [input], input, rule);
    }
    SameStates(twice.states, once.states);
  }

  lemma LastOfAppend(h: seq<Input>, input: Input)
    ensures h + [input] != [] && Last(h + [input]) == input
  {}

  lemma QuietCommit(t: Tables, config: Config, input: Input)
    requires Transaction(t, input, config).1 == Ok([]) && Callback(t, input, config).transitions == []
    ensures var u := Transaction(t, input, config).0; u.alerts == t.alerts && u.audit == t.audit
  {
    hide RunWork, Persist, OpenRules, MutationOk, AnyRegressed, StatesOk;
  }

  lemma EveryStatePresent(t: Tables, config: Config, h: seq<Input>, input: Input, rule: RuleName)
    requires TableInv(t, config, h) && Accepted(h) && Transaction(t, input, config).1.Ok?
    ensures rule in Transaction(t, input, config).0.states
  {
    hide RunRule, OpenRules, AuditLog, RunWork, OneOpenPerRule, StatesOk, Accepted, AnyRegressed, MutationOk, ApplyAll, Applied, Persist, ValidInput;
    CallbackIsValid(t, config, h, input);
    NewerStates(t, config, h, input);
    assert Agrees(t, config, h, rule);
    RunWorkCovers(Work(t.states, OpenRules(t.alerts), []), STABLE_ORDER, input, config);
    CommitAgrees(t, config, h, input, rule);
  }
}
