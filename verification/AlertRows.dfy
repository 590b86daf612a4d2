/**
  The rows of the alert and audit tables, said of the accepted history rule by rule: what each
  transition reports, which alert rows there are and what stands in them.
 */
module AlertRows {
  import opened AlertRules
  import opened AlertHistory
  import opened AlertEngine
  import opened AlertRuns
  import opened AlertEvidence
  import opened Common

  // ----- the account of the history

  /** What the last input of a history changes for a rule, if anything. */
  function ChangeAt(rule: RuleName, config: Config, h: seq<Input>): seq<Transition>
    requires h != []
  {
    var before, after, d := RunRule(rule, config, Front(h)).open, RunRule(rule, config, h).open, LastDecision(rule, config, h);
    if before == after then []
    else [Transition(rule, if after then OpenedKind else ResolvedKind, d.severity, Last(h).at, d.evidence)]
  }

  /** A row for each time the rule's alert was opened; all but the last are resolved. */
  function RowsOf(rule: RuleName, config: Config, h: seq<Input>): seq<AlertRow> {
    if h == [] then []
    else
      var rows, change := RowsOf(rule, config, Front(h)), ChangeAt(rule, config, h);
      if change == [] then rows
      else if change[0].kind == OpenedKind then
        rows + [AlertRow(rule, true, change[0].severity, Last(h).at, ZERO_TIME, change[0].evidence)]
      else if rows == [] then []
      else rows[|rows| - 1 := Last(rows).(isOpen := false, resolvedAt := Last(h).at, evidence := change[0].evidence)]
  }

  function AuditOf(rule: RuleName, config: Config, h: seq<Input>): seq<AuditRow> {
    if h == [] then []
    else
      var change := ChangeAt(rule, config, h);
      AuditOf(rule, config, Front(h)) + if change == [] then [] else [AuditRow(Last(h).at, change[0].kind, rule, change[0].severity, change[0].evidence)]
  }

  // ----- what the tables hold for a rule

  function AlertsFor(alerts: seq<AlertRow>, rule: RuleName): seq<AlertRow> {
    if alerts == [] then []
    else (if alerts[0].rule == rule then [alerts[0]] else []) + AlertsFor(alerts[1..], rule)
  }

  function AuditFor(audit: seq<AuditRow>, rule: RuleName): seq<AuditRow> {
    if audit == [] then []
    else AuditFor(Front(audit), rule) + if Last(audit).rule == rule then [Last(audit)] else []
  }

  function TransitionsFor(transitions: seq<Transition>, rule: RuleName): seq<Transition> {
    if transitions == [] then []
    else TransitionsFor(Front(transitions), rule) + if Last(transitions).rule == rule then [Last(transitions)] else []
  }

  // ----- what the callback finds

  function Found(rule: RuleName, state: State, open: bool, input: Input, config: Config): seq<Transition> {
    var d := Judge(rule, input, state, open, config);
    if d.shouldOpen && !open then [Transition(rule, OpenedKind, d.severity, input.at, d.evidence)]
    else if d.shouldResolve && open then [Transition(rule, ResolvedKind, d.severity, input.at, d.evidence)]
    else []
  }

  lemma StepWorkFinds(w: Work, rule: RuleName, input: Input, config: Config, other: RuleName)
    ensures TransitionsFor(StepWork(w, rule, input, config).transitions, other)
            == TransitionsFor(w.transitions, other)
               + if other == rule then Found(rule, StateOf(w.states, rule), rule in w.open, input, config) else []
  {
    hide Judge;
    var d := Judge(rule, input, StateOf(w.states, rule), rule in w.open, config);
    var kind := if rule in w.open then ResolvedKind else OpenedKind;
    var tr := Transition(rule, kind, d.severity, input.at, d.evidence);
    assert Front(w.transitions + [tr]) == w.transitions;
  }

  lemma {:induction false} RunWorkFinds(w: Work, rules: seq<RuleName>, input: Input, config: Config, other: RuleName)
    requires Distinct(rules)
    ensures TransitionsFor(RunWork(w, rules, input, config).transitions, other)
            == TransitionsFor(w.transitions, other)
               + if other in rules then Found(other, StateOf(w.states, other), other in w.open, input, config) else []
    decreases |rules|
  {
    hide StepWork, Found, StepRule, TransitionsFor;
    if rules != [] {
      FrontDistinct(rules);
      RunWorkFinds(w, Front(rules), input, config, other);
      RunWorkPointwise(w, Front(rules), input, config, Last(rules));
      StepWorkFinds(RunWork(w, Front(rules), input, config), Last(rules), input, config, other);
      assert rules == Front(rules) + [Last(rules)];
    }
  }

  lemma FoundIsChange(rule: RuleName, config: Config, h: seq<Input>, input: Input)
    requires Accepted(h + [input])
    ensures var r := RunRule(rule, config, h);
            Found(rule, r.state, r.open, input, config) == ChangeAt(rule, config, h + [input])
  {
    hide RunRule, Judge, Accepted;
    LastOfAppend(h, input);
    assert Front(h + [input]) == h;
    StepIsJudge(rule, config, h + [input]);
  }

  /** An accepted input reports, for each rule, the change it makes, with the decision's severity and evidence. */
  lemma ReportsChanges(t: Tables, config: Config, h: seq<Input>, input: Input, rule: RuleName)
    requires TableInv(t, config, h) && Accepted(h) && Transaction(t, input, config).1.Ok?
    ensures TransitionsFor(Transaction(t, input, config).1.value, rule) == ChangeAt(rule, config, h + [input])
  {
    hide RunRule, Transaction, OpenRules, AuditLog, RunWork, ValidInput, OneOpenPerRule, StatesOk, Accepted, ChangeAt, Found;
    RunStep(t, config, h, input);
    assert Agrees(t, config, h, rule);
    EveryRuleIsListed(rule);
    RunWorkFinds(Work(t.states, OpenRules(t.alerts), []), STABLE_ORDER, input, config, rule);
    FoundIsChange(rule, config, h, input);
    assert TransitionsFor([], rule) == [];
  }

  // ----- applying what was found

  lemma {:induction false} AlertsForAppend(alerts: seq<AlertRow>, row: AlertRow, rule: RuleName)
    ensures AlertsFor(alerts + [row], rule) == AlertsFor(alerts, rule) + if row.rule == rule then [row] else []
    decreases |alerts|
  {
    if alerts != [] {
      AlertsForAppend(alerts[1..], row, rule);
      assert (alerts + [row])[1..] == alerts[1..] + [row];
    }
  }

  lemma {:induction false} AlertsForResolve(alerts: seq<AlertRow>, tr: Transition, rule: RuleName)
    ensures AlertsFor(Resolve(alerts, tr), rule)
            == if tr.rule == rule then Resolve(AlertsFor(alerts, rule), tr) else AlertsFor(alerts, rule)
    decreases |alerts|
  {
    if alerts != [] {
      AlertsForResolve(alerts[1..], tr, rule);
      assert Resolve(alerts, tr)[1..] == Resolve(alerts[1..], tr);
      var rest := AlertsFor(alerts[1..], rule);
      if tr.rule == rule == alerts[0].rule {
        assert ([alerts[0]] + rest)[1..] == rest;
      }
    }
  }

  /** What one transition that takes effect does to the rows of its rule. */
  function RowsAfter(rows: seq<AlertRow>, tr: Transition): seq<AlertRow> {
    if tr.kind == OpenedKind then rows + [AlertRow(tr.rule, true, tr.severity, tr.at, ZERO_TIME, tr.evidence)]
    else Resolve(rows, tr)
  }

  lemma ApplyRows(t: Tables, tr: Transition, rule: RuleName)
    requires Changes(t, tr)
    ensures var u := ApplyTransition(t, tr);
            && AlertsFor(u.alerts, rule) == (if tr.rule == rule then RowsAfter(AlertsFor(t.alerts, rule), tr) else AlertsFor(t.alerts, rule))
            && AuditFor(u.audit, rule) == AuditFor(t.audit, rule) + if tr.rule == rule then [AuditRow(tr.at, tr.kind, rule, tr.severity, tr.evidence)] else []
  {
    hide OpenRules, Resolve, AlertsFor;
    AlertsForAppend(t.alerts, AlertRow(tr.rule, true, tr.severity, tr.at, ZERO_TIME, tr.evidence), rule);
    AlertsForResolve(t.alerts, tr, rule);
    assert Front(t.audit + [AuditRow(tr.at, tr.kind, tr.rule, tr.severity, tr.evidence)]) == t.audit;
  }

  function AllRowsAfter(rows: seq<AlertRow>, transitions: seq<Transition>): seq<AlertRow> {
    if transitions == [] then rows else RowsAfter(AllRowsAfter(rows, Front(transitions)), Last(transitions))
  }

  function AuditRows(transitions: seq<Transition>): seq<AuditRow> {
    if transitions == [] then []
    else
      var tr := Last(transitions);
      AuditRows(Front(transitions)) + [AuditRow(tr.at, tr.kind, tr.rule, tr.severity, tr.evidence)]
  }

  lemma AllApplied(t: Tables, transitions: seq<Transition>)
    requires transitions != [] && Applied(t, transitions) == transitions
    ensures Applied(t, Front(transitions)) == Front(transitions)
    ensures Changes(ApplyAll(t, Front(transitions)), Last(transitions))
  {
    hide Changes, ApplyAll;
    AppliedNoLonger(t, Front(transitions));
    assert transitions == Front(transitions) + [Last(transitions)];
  }

  lemma {:induction false} AppliedNoLonger(t: Tables, transitions: seq<Transition>)
    ensures |Applied(t, transitions)| <= |transitions|
    decreases |transitions|
  {
    hide Changes, ApplyAll;
    if transitions != [] {
      AppliedNoLonger(t, Front(transitions));
    }
  }

  lemma {:induction false} ApplyAllRows(t: Tables, transitions: seq<Transition>, rule: RuleName)
    requires Applied(t, transitions) == transitions
    ensures var u, found := ApplyAll(t, transitions), TransitionsFor(transitions, rule);
            && AlertsFor(u.alerts, rule) == AllRowsAfter(AlertsFor(t.alerts, rule), found)
            && AuditFor(u.audit, rule) == AuditFor(t.audit, rule) + AuditRows(found)
    decreases |transitions|
  {
    hide ApplyTransition, Changes, Applied, RowsAfter;
    if transitions != [] {
      var front, tr := Front(transitions), Last(transitions);
      AllApplied(t, transitions);
      ApplyAllRows(t, front, rule);
      ApplyRows(ApplyAll(t, front), tr, rule);
      var found := TransitionsFor(front, rule);
      assert Front(found + [tr]) == found;
      assert found + [] == found;
    }
  }

  // ----- over runs

  /** All rows but the last are resolved, and the last one says whether the alert is open. */
  lemma {:induction false} RowsShape(rule: RuleName, config: Config, h: seq<Input>)
    ensures var rows := RowsOf(rule, config, h);
            && (forall i :: 0 <= i < |rows| ==> rows[i].rule == rule)
            && (forall i :: 0 <= i < |rows| - 1 ==> !rows[i].isOpen)
            && (RunRule(rule, config, h).open <==> rows != [] && Last(rows).isOpen)
    decreases |h|
  {
    hide StepRule, LastDecision;
    if h != [] {
      RowsShape(rule, config, Front(h));
    }
  }

  ghost predicate RowsAgree(t: Tables, config: Config, h: seq<Input>, rule: RuleName) {
    AlertsFor(t.alerts, rule) == RowsOf(rule, config, h) && AuditFor(t.audit, rule) == AuditOf(rule, config, h)
  }

  lemma ResolveLast(rows: seq<AlertRow>, tr: Transition)
    requires rows != [] && Last(rows).isOpen && Last(rows).rule == tr.rule
    requires forall i :: 0 <= i < |rows| - 1 ==> !rows[i].isOpen
    ensures Resolve(rows, tr) == rows[|rows| - 1 := Last(rows).(isOpen := false, resolvedAt := tr.at, evidence := tr.evidence)]
  {}

  lemma OneRow(rows: seq<AlertRow>, tr: Transition)
    ensures AllRowsAfter(rows, [tr]) == RowsAfter(rows, tr) && AuditRows([tr]) == [AuditRow(tr.at, tr.kind, tr.rule, tr.severity, tr.evidence)]
  {
    hide RowsAfter;
    assert Front([tr]) == [];
  }

  lemma ChangedRows(rule: RuleName, config: Config, h: seq<Input>)
    requires h != []
    ensures RowsOf(rule, config, h) == AllRowsAfter(RowsOf(rule, config, Front(h)), ChangeAt(rule, config, h))
    ensures AuditOf(rule, config, h) == AuditOf(rule, config, Front(h)) + AuditRows(ChangeAt(rule, config, h))
  {
    hide RunRule, LastDecision, Resolve, AllRowsAfter, AuditRows;
    RowsShape(rule, config, Front(h));
    var rows, change := RowsOf(rule, config, Front(h)), ChangeAt(rule, config, h);
    if change == [] {
      NoChange(rows);
    } else {
      assert change == [change[0]];
      OneRow(rows, change[0]);
      if change[0].kind == ResolvedKind {
        ResolveLast(rows, change[0]);
      }
    }
  }

  lemma NoChange(rows: seq<AlertRow>)
    ensures AllRowsAfter(rows, []) == rows && AuditRows([]) == []
  {}

  lemma CommittedRows(t: Tables, config: Config, h: seq<Input>, input: Input, rule: RuleName)
    requires TableInv(t, config, h) && Accepted(h) && Transaction(t, input, config).1.Ok? && RowsAgree(t, config, h, rule)
    ensures RowsAgree(Transaction(t, input, config).0, config, h + [input], rule)
  {
    var w, u := Callback(t, input, config), Transaction(t, input, config).0;
    WhatIsCommitted(t, config, h, input, rule);
    ReportsChanges(t, config, h, input, rule);
    hide *;
    hide Transaction, TableInv, Callback;
    ApplyAllRows(t, w.transitions, rule);
    AppendedRows(rule, config, h, input);
    RowsAgreeIs(t, config, h, rule);
    RowsAgreeIs(u, config, h + [input], rule);
  }

  lemma RowsAgreeIs(t: Tables, config: Config, h: seq<Input>, rule: RuleName)
    ensures RowsAgree(t, config, h, rule) <==>
              AlertsFor(t.alerts, rule) == RowsOf(rule, config, h) && AuditFor(t.audit, rule) == AuditOf(rule, config, h)
  {}

  lemma AppendedRows(rule: RuleName, config: Config, h: seq<Input>, input: Input)
    ensures var change := ChangeAt(rule, config, h + [input]);
            && RowsOf(rule, config, h + [input]) == AllRowsAfter(RowsOf(rule, config, h), change)
            && AuditOf(rule, config, h + [input]) == AuditOf(rule, config, h) + AuditRows(change)
  {
    hide RowsOf, AuditOf, ChangeAt;
    assert Front(h + [input]) == h;
    ChangedRows(rule, config, h + [input]);
  }

  lemma WhatIsCommitted(t: Tables, config: Config, h: seq<Input>, input: Input, rule: RuleName)
    requires TableInv(t, config, h) && Accepted(h) && Transaction(t, input, config).1.Ok?
    ensures var w, (u, r) := Callback(t, input, config), Transaction(t, input, config);
            && Applied(t, w.transitions) == w.transitions == r.value
            && u.alerts == ApplyAll(t, w.transitions).alerts && u.audit == ApplyAll(t, w.transitions).audit
  {
    hide RunRule, OpenRules, AuditLog, StepRule, RunWork, ApplyAll, Applied, Persist, OneOpenPerRule, TransitionLog, Accepted,
         ValidInput, MutationOk, AnyRegressed, StatesOk;
    RunStep(t, config, h, input);
    var w := Callback(t, input, config);
    RunWorkCovers(Work(t.states, OpenRules(t.alerts), []), STABLE_ORDER, input, config);
    EveryRuleIsListed(rule);
    ApplyAllFollows(t, STABLE_ORDER, input, config, rule);
    AppliedIgnoresStates(t.(states := Persist(t.states, w.states, STABLE_ORDER)), t, w.transitions);
  }

  /**
    After any inputs whatever, the alert table holds for each rule one row per opening, in order, with the
    time, severity and evidence of the decision that opened it, or of the one that resolved it; and the
    audit table one row per change, with the same details.
   */
  lemma {:induction false} RowsTellHistory(config: Config, inputs: seq<Input>, rule: RuleName)
    ensures RowsAgree(TableRun(config, inputs), config, AcceptedOf(config, inputs), rule)
    decreases |inputs|
  {
    hide Transaction, RowsAgree, TableInv, Accepted;
    if inputs == [] {
      NoRows(config, rule);
    } else {
      RowsTellHistory(config, Front(inputs), rule);
      EveryRunAgrees(config, Front(inputs));
      var t, h := TableRun(config, Front(inputs)), AcceptedOf(config, Front(inputs));
      RunStep(t, config, h, Last(inputs));
      if Transaction(t, Last(inputs), config).1.Ok? {
        CommittedRows(t, config, h, Last(inputs), rule);
      }
    }
  }

  lemma NoRows(config: Config, rule: RuleName)
    ensures RowsAgree(EMPTY_TABLES, config, [], rule)
  {}
}
