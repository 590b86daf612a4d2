/**
  What the stored state of an alert rule says about the whole history of inputs the
  engine accepted, rule by rule. A history is the sequence of accepted inputs; each
  theorem relates the rule's run over it to a definition that only looks at the history.
 */
module AlertHistory {
  import opened AlertRules
  import opened Common

  /** One rule's state, whether its alert is open, and its transitions so far (`true` for opened). */
  datatype RuleRun = RuleRun(state: State, open: bool, log: seq<bool>)

  function StepRule(rule: RuleName, config: Config, r: RuleRun, input: Input): RuleRun {
    var d := Evaluate(rule, input, r.state, r.open, config);
    if d.shouldOpen && !r.open then RuleRun(d.next, true, r.log + [true])
    else if d.shouldResolve && r.open then RuleRun(d.next, false, r.log + [false])
    else RuleRun(d.next, r.open, r.log)
  }

  function RunRule(rule: RuleName, config: Config, h: seq<Input>): RuleRun {
    if h == [] then RuleRun(NEW_STATE, false, [])
    else StepRule(rule, config, RunRule(rule, config, Front(h)), Last(h))
  }

  function Front<T>(h: seq<T>): seq<T>
    requires h != []
  {
    h[..|h| - 1]
  }

  function Last<T>(h: seq<T>): T
    requires h != []
  {
    h[|h| - 1]
  }

  /** Valid inputs, none earlier than the one before: what the engine lets through. */
  ghost predicate Accepted(h: seq<Input>) {
    h != [] ==> Accepted(Front(h)) && ValidInput(Last(h)) && (|h| > 1 ==> Last(Front(h)).at <= Last(h).at)
  }

  /** Opened, resolved, opened, ... */
  predicate Alternates(log: seq<bool>) {
    forall i :: 0 <= i < |log| ==> log[i] == (i % 2 == 0)
  }

  /** What every reachable run of a rule satisfies, `at` being the time of its last input. */
  ghost predicate RunSound(r: RuleRun, at: Time) {
    StateInv(r.state) && r.state.lastEvaluatedAt == at && Alternates(r.log) && r.open == (|r.log| % 2 == 1)
  }

  lemma StepSound(rule: RuleName, config: Config, r: RuleRun, at: Time, input: Input)
    requires RunSound(r, at) && ValidInput(input) && !Regressed(r.state, input.at)
    ensures RunSound(StepRule(rule, config, r, input), input.at)
  {
    hide Evaluate, ValidInput, StateInv, Regressed;
    EvaluateKeepsState(rule, input, r.state, r.open, config);
  }

  lemma {:induction false} RunFacts(rule: RuleName, config: Config, h: seq<Input>)
    requires Accepted(h)
    ensures RunSound(RunRule(rule, config, h), if h == [] then ZERO_TIME else Last(h).at)
    ensures h != [] ==> !Regressed(RunRule(rule, config, Front(h)).state, Last(h).at)
    decreases |h|
  {
    hide StepRule, ValidInput;
    if h != [] {
      RunFacts(rule, config, Front(h));
      hide StateInv, Alternates;
      var before := if Front(h) == [] then ZERO_TIME else Last(Front(h)).at;
      StepSound(rule, config, RunRule(rule, config, Front(h)), before, Last(h));
    }
  }

  /** For one step of a run, the stamp `lastEvaluatedAt` is the input's time and everything else is the rule's. */
  lemma StepIsJudge(rule: RuleName, config: Config, h: seq<Input>)
    requires Accepted(h) && h != []
    ensures var before, after := RunRule(rule, config, Front(h)), RunRule(rule, config, h);
            var d := Judge(rule, Last(h), before.state, before.open, config);
            && after.state == d.next.(lastEvaluatedAt := Last(h).at)
            && after.open == Opened(before.open, d)
            && (d.shouldOpen ==> !before.open) && (d.shouldResolve ==> before.open)
    ensures StateInv(RunRule(rule, config, Front(h)).state) && ValidInput(Last(h)) && Accepted(Front(h))
  {
    hide Judge, ValidInput;
    RunFacts(rule, config, Front(h));
    RunFacts(rule, config, h);
    var before := RunRule(rule, config, Front(h));
    JudgeLawful(rule, Last(h), before.state, before.open, config);
  }

  // ----- logger_offline

  datatype Sighting = Sighting(at: Time, bad: bool)

  /** The observed polls; of several at one instant only the first counts. */
  function Polls(h: seq<Input>): seq<Sighting> {
    if h == [] then []
    else
      var earlier, i := Polls(Front(h)), Last(h);
      if !i.pollObserved || (earlier != [] && Last(earlier).at == i.at) then earlier
      else earlier + [Sighting(i.at, !i.pollSucceeded)]
  }

  /** How many of the latest sightings were bad (or, for `bad == false`, good) without interruption. */
  function Trailing(s: seq<Sighting>, bad: bool): nat {
    if s == [] || Last(s).bad != bad then 0 else Trailing(Front(s), bad) + 1
  }

  lemma {:induction false} TrailingIsSuffix(s: seq<Sighting>, bad: bool)
    ensures Trailing(s, bad) <= |s|
    ensures forall k :: |s| - Trailing(s, bad) <= k < |s| ==> s[k].bad == bad
    ensures Trailing(s, bad) < |s| ==> s[|s| - 1 - Trailing(s, bad)].bad != bad
    decreases |s|
  {
    if s != [] {
      TrailingIsSuffix(Front(s), bad);
    }
  }

  /** Sighting times are those of accepted inputs: nonzero and strictly increasing. */
  ghost predicate InTimeOrder(s: seq<Sighting>, now: Time) {
    && (forall i :: 0 <= i < |s| ==> s[i].at != ZERO_TIME && s[i].at <= now)
    && (forall i, j :: 0 <= i < j < |s| ==> s[i].at < s[j].at)
  }

  lemma {:induction false} PollsInTimeOrder(h: seq<Input>)
    requires Accepted(h) && h != []
    ensures InTimeOrder(Polls(h), Last(h).at)
    decreases |h|
  {
    if |h| > 1 {
      PollsInTimeOrder(Front(h));
    }
  }

  lemma {:induction false} FaultSightingsInTimeOrder(h: seq<Input>)
    requires Accepted(h) && h != []
    ensures InTimeOrder(FaultSightings(h), Last(h).at)
    decreases |h|
  {
    if |h| > 1 {
      FaultSightingsInTimeOrder(Front(h));
    }
  }

  lemma {:induction false} LoggerSummary(config: Config, h: seq<Input>)
    requires Accepted(h)
    ensures var r, p := RunRule(LoggerOffline, config, h), Polls(h);
            && r.state.lastEvidenceAt == (if p == [] then ZERO_TIME else Last(p).at)
            && r.state.consecutive == Trailing(p, true)
            && r.open == (Trailing(p, true) >= 3)
    decreases |h|
  {
    hide Evaluate, ValidInput;
    if h != [] {
      LoggerSummary(config, Front(h));
      StepIsJudge(LoggerOffline, config, h);
      NonZeroTimes(h);
      var p := Polls(Front(h));
      assert Polls(h) != p ==> Front(Polls(h)) == p;
    }
  }

  lemma NonZeroTimes(h: seq<Input>)
    requires Accepted(h) && h != []
    ensures Last(h).at != ZERO_TIME
  {}

  /** The alert is open exactly when the three latest polls at distinct times all failed. */
  lemma LoggerOfflineMeansThreeFailures(config: Config, h: seq<Input>)
    requires Accepted(h)
    ensures var p := Polls(h);
            RunRule(LoggerOffline, config, h).open <==>
              |p| >= 3 && p[|p| - 1].bad && p[|p| - 2].bad && p[|p| - 3].bad
  {
    hide RunRule, Polls;
    LoggerSummary(config, h);
    TrailingIsSuffix(Polls(h), true);
  }

  // ----- telemetry_stale

  /** Was telemetry too old the last time its age was known? */
  predicate LastKnownStale(config: Config, h: seq<Input>) {
    h != [] && if Last(h).lastTelemetryAt != ZERO_TIME then Last(h).at - Last(h).lastTelemetryAt >= config.staleAfter
                else LastKnownStale(config, Front(h))
  }

  lemma {:induction false} TelemetryStaleMeansLastKnownStale(config: Config, h: seq<Input>)
    requires Accepted(h)
    ensures RunRule(TelemetryStale, config, h).open <==> LastKnownStale(config, h)
    decreases |h|
  {
    hide Evaluate, ValidInput, Seconds;
    if h != [] {
      TelemetryStaleMeansLastKnownStale(config, Front(h));
      StepIsJudge(TelemetryStale, config, h);
    }
  }

  // ----- inverter_fault

  /** Fresh telemetry at distinct times; bad when an active string reports a fault. */
  function FaultSightings(h: seq<Input>): seq<Sighting> {
    if h == [] then []
    else
      var earlier, i := FaultSightings(Front(h)), Last(h);
      if !i.telemetryObserved || !i.telemetryFresh || (earlier != [] && Last(earlier).at == i.at) then earlier
      else earlier + [Sighting(i.at, i.pv1Fault || (i.pv2Active && i.pv2Fault))]
  }

  lemma {:induction false} FaultSummary(config: Config, h: seq<Input>)
    requires Accepted(h)
    ensures var r, s := RunRule(InverterFault, config, h), FaultSightings(h);
            && r.state.lastEvidenceAt == (if s == [] then ZERO_TIME else Last(s).at)
            && r.open == (Trailing(s, false) < 2 && Trailing(s, false) < |s|)
            && r.state.consecutive == (if r.open then Trailing(s, false) else r.state.consecutive)
    decreases |h|
  {
    hide Evaluate, ValidInput, Trailing, Judge, StateInv;
    if h != [] {
      FaultSummary(config, Front(h));
      StepIsJudge(InverterFault, config, h);
      NonZeroTimes(h);
      var s, r := FaultSightings(Front(h)), RunRule(InverterFault, config, Front(h));
      var x := Sighting(Last(h).at, Last(h).pv1Fault || (Last(h).pv2Active && Last(h).pv2Fault));
      TrailingAppend(s, x, false);
      TrailingIsSuffix(s, false);
      FaultDecision(config, Last(h), r.state, r.open);
    }
  }

  lemma TrailingAppend(s: seq<Sighting>, x: Sighting, bad: bool)
    ensures Trailing(s + [x], bad) == if x.bad == bad then Trailing(s, bad) + 1 else 0
  {
    assert Front(s + [x]) == s;
  }

  lemma FaultDecision(config: Config, i: Input, state: State, open: bool)
    ensures var d := Judge(InverterFault, i, state, open, config);
            var seen := i.telemetryObserved && i.telemetryFresh && i.at != state.lastEvidenceAt;
            var bad := i.pv1Fault || (i.pv2Active && i.pv2Fault);
            && d.shouldOpen == (seen && bad && !open)
            && d.shouldResolve == (seen && !bad && open && state.consecutive + 1 >= 2)
            && d.next.lastEvidenceAt == (if seen then i.at else state.lastEvidenceAt)
            && d.next.consecutive == (if !seen then state.consecutive else if bad || !open then 0 else state.consecutive + 1)
  {}

  /** The alert is open exactly when one of the two latest fresh sightings showed a fault. */
  lemma InverterFaultMeansRecentFault(config: Config, h: seq<Input>)
    requires Accepted(h)
    ensures var s := FaultSightings(h);
            RunRule(InverterFault, config, h).open <==>
              (|s| >= 1 && s[|s| - 1].bad) || (|s| >= 2 && s[|s| - 2].bad)
  {
    hide RunRule, FaultSightings;
    FaultSummary(config, h);
    TrailingIsSuffix(FaultSightings(h), false);
  }

  // ----- the three rules that wait: zero_sunny_generation, grid_voltage, grid_frequency

  predicate Waits(rule: RuleName) { rule == ZeroSunnyGeneration || rule == GridVoltage || rule == GridFrequency }

  /** The input keeps the rule's clock running: fresh telemetry that shows what the rule is about. */
  predicate Qualifies(rule: RuleName, config: Config, i: Input)
    requires Waits(rule)
  {
    i.telemetryObserved && i.telemetryFresh &&
    match rule
    case ZeroSunnyGeneration =>
      && i.weatherAvailable && !i.pv1Fault && !(i.pv2Active && i.pv2Fault)
      && i.solarElevation > config.minimumSolarElevation && i.irradiance >= config.minimumIrradiance
      && i.coverage >= config.minimumCoverage && i.acPower <= config.maximumZeroPower
    case GridVoltage => i.gridVoltage < config.minimumVoltage || i.gridVoltage > config.maximumVoltage
    case _ => i.gridFrequency < config.minimumFrequency || i.gridFrequency > config.maximumFrequency
  }

  /** The input resolves an open alert: fresh telemetry that shows the opposite. */
  predicate Clears(rule: RuleName, config: Config, i: Input)
    requires Waits(rule)
  {
    i.telemetryObserved && i.telemetryFresh &&
    match rule
    case ZeroSunnyGeneration => i.acPower > config.maximumZeroPower
    case GridVoltage => config.minimumVoltage <= i.gridVoltage <= config.maximumVoltage
    case _ => config.minimumFrequency <= i.gridFrequency <= config.maximumFrequency
  }

  function Patience(rule: RuleName, config: Config): int
    requires Waits(rule)
  {
    match rule
    case ZeroSunnyGeneration => config.zeroGenerationFor
    case GridVoltage => config.voltageFor
    case _ => config.frequencyFor
  }

  /** How many of the latest inputs qualified without interruption. */
  function Streak(rule: RuleName, config: Config, h: seq<Input>): (n: nat)
    requires Waits(rule)
    ensures n <= |h|
  {
    if h == [] || !Qualifies(rule, config, Last(h)) then 0 else Streak(rule, config, Front(h)) + 1
  }

  function StreakStart(rule: RuleName, config: Config, h: seq<Input>): Time
    requires Waits(rule)
  {
    var n := Streak(rule, config, h);
    if n == 0 then ZERO_TIME else h[|h| - n].at
  }

  lemma {:induction false} StreakIsSuffix(rule: RuleName, config: Config, h: seq<Input>)
    requires Waits(rule)
    ensures var n := Streak(rule, config, h);
            && (forall k :: |h| - n <= k < |h| ==> Qualifies(rule, config, h[k]))
            && (n < |h| ==> !Qualifies(rule, config, h[|h| - 1 - n]))
    decreases |h|
  {
    hide Qualifies;
    if h != [] {
      StreakIsSuffix(rule, config, Front(h));
    }
  }

  /** The decision of a waiting rule in one shape. */
  lemma WaitingDecision(rule: RuleName, config: Config, i: Input, state: State, open: bool)
    requires Waits(rule)
    ensures var d := Judge(rule, i, state, open, config);
            var since := if state.pendingSince == ZERO_TIME then i.at else state.pendingSince;
            && d.next.pendingSince == (if Qualifies(rule, config, i) then since else ZERO_TIME)
            && d.shouldOpen == (Qualifies(rule, config, i) && !open && i.at - since >= Patience(rule, config))
            && d.shouldResolve == (Clears(rule, config, i) && open)
    ensures !(Qualifies(rule, config, i) && Clears(rule, config, i))
  {
    hide Seconds;
    match rule
    case ZeroSunnyGeneration =>
    case GridVoltage =>
    case _ =>
  }

  /** The stored pending time is the start of the current streak, over every history. */
  lemma {:induction false} PendingIsStreakStart(rule: RuleName, config: Config, h: seq<Input>)
    requires Accepted(h) && Waits(rule)
    ensures RunRule(rule, config, h).state.pendingSince == StreakStart(rule, config, h)
    ensures forall k :: 0 <= k < |h| ==> h[k].at != ZERO_TIME
    decreases |h|
  {
    hide Judge, Evaluate, Qualifies, ValidInput;
    if h != [] {
      PendingIsStreakStart(rule, config, Front(h));
      StepIsJudge(rule, config, h);
      NonZeroTimes(h);
      var before := RunRule(rule, config, Front(h));
      WaitingDecision(rule, config, Last(h), before.state, before.open);
    }
  }

  /**
    A waiting alert opens at an input exactly when it was closed, the input qualifies, and
    the unbroken run of qualifying inputs ending there spans at least the configured time;
    it resolves exactly when it was open and the input clears it.
   */
  lemma WaitingAlertTransitions(rule: RuleName, config: Config, h: seq<Input>)
    requires Accepted(h) && Waits(rule) && h != []
    ensures var before, after, n := RunRule(rule, config, Front(h)).open, RunRule(rule, config, h).open, Streak(rule, config, h);
            && (!before && after <==> !before && n > 0 && Last(h).at - h[|h| - n].at >= Patience(rule, config))
            && (before && !after <==> before && Clears(rule, config, Last(h)))
            && (forall k :: |h| - n <= k < |h| ==> Qualifies(rule, config, h[k]))
  {
    hide Judge, Evaluate, Qualifies, Clears, ValidInput;
    PendingIsStreakStart(rule, config, Front(h));
    PendingIsStreakStart(rule, config, h);
    StepIsJudge(rule, config, h);
    var before := RunRule(rule, config, Front(h));
    WaitingDecision(rule, config, Last(h), before.state, before.open);
    StreakIsSuffix(rule, config, h);
  }

  lemma {:induction false} TimesRise(h: seq<Input>, i: nat, j: nat)
    requires Accepted(h) && i <= j < |h|
    ensures h[i].at <= h[j].at
    decreases |h|
  {
    hide ValidInput;
    var n := |h| - 1;
    if j < n {
      TimesRise(Front(h), i, j);
    } else if i < n {
      TimesRise(Front(h), i, n - 1);
    }
  }

  /** The inputs from `i` to `j` all qualify and span the configured time. */
  ghost predicate Lasts(rule: RuleName, config: Config, h: seq<Input>, i: int, j: int)
    requires Waits(rule)
  {
    && 0 <= i <= j < |h| && h[j].at - h[i].at >= Patience(rule, config)
    && forall k :: i <= k <= j ==> Qualifies(rule, config, h[k])
  }

  /** ... and no later input clears the alert. */
  ghost predicate Holds(rule: RuleName, config: Config, h: seq<Input>, i: int, j: int)
    requires Waits(rule)
  {
    Lasts(rule, config, h, i, j) && forall k :: j < k < |h| ==> !Clears(rule, config, h[k])
  }

  lemma HoldsFront(rule: RuleName, config: Config, h: seq<Input>, i: int, j: int)
    requires Waits(rule) && h != [] && j < |h| - 1
    ensures Holds(rule, config, h, i, j) <==> Holds(rule, config, Front(h), i, j) && !Clears(rule, config, Last(h))
  {
    hide Qualifies, Clears, Patience;
    assert forall k :: 0 <= k < |h| - 1 ==> Front(h)[k] == h[k];
  }

  lemma LastsFromStreak(rule: RuleName, config: Config, h: seq<Input>, i: int)
    requires Accepted(h) && Waits(rule) && h != [] && Lasts(rule, config, h, i, |h| - 1)
    ensures var n := Streak(rule, config, h); n > 0 && Last(h).at - h[|h| - n].at >= Patience(rule, config)
  {
    hide Qualifies, Patience, Accepted;
    StreakIsSuffix(rule, config, h);
    var n := Streak(rule, config, h);
    assert n >= |h| - i;
    TimesRise(h, |h| - n, i);
  }

  lemma NotBoth(rule: RuleName, config: Config, i: Input)
    requires Waits(rule)
    ensures !(Qualifies(rule, config, i) && Clears(rule, config, i))
  {
    match rule
    case ZeroSunnyGeneration =>
    case GridVoltage =>
    case _ =>
  }

  /**
    A waiting alert is open if and only if at some time the inputs qualified without interruption over
    at least the configured span and no input since then has cleared it.
   */
  lemma {:induction false} WaitingAlertOpenIff(rule: RuleName, config: Config, h: seq<Input>)
    requires Accepted(h) && Waits(rule)
    ensures RunRule(rule, config, h).open <==> exists i, j :: Holds(rule, config, h, i, j)
    decreases |h|
  {
    hide Qualifies, Clears, Patience, RunRule, Lasts, Accepted;
    if h == [] {
      NothingRun(rule, config);
    } else {
      AcceptedFront(h);
      WaitingAlertOpenIff(rule, config, Front(h));
      WaitingAlertTransitions(rule, config, h);
      NotBoth(rule, config, Last(h));
      var n := Streak(rule, config, h);
      if RunRule(rule, config, h).open {
        if RunRule(rule, config, Front(h)).open {
          var i, j :| Holds(rule, config, Front(h), i, j);
          HoldsInside(rule, config, Front(h), i, j);
          HoldsFront(rule, config, h, i, j);
        } else {
          StreakLasts(rule, config, h);
          assert Holds(rule, config, h, |h| - n, |h| - 1);
        }
      } else {
        forall i, j ensures !Holds(rule, config, h, i, j) {
          if Holds(rule, config, h, i, j) {
            HoldsInside(rule, config, h, i, j);
            if j < |h| - 1 {
              HoldsFront(rule, config, h, i, j);
            } else {
              LastsFromStreak(rule, config, h, i);
              LastQualifies(rule, config, h, i);
            }
          }
        }
      }
    }
  }

  lemma NothingRun(rule: RuleName, config: Config)
    requires Waits(rule)
    ensures !RunRule(rule, config, []).open && !exists i, j :: Holds(rule, config, [], i, j)
  {}

  lemma AcceptedFront(h: seq<Input>)
    requires Accepted(h) && h != []
    ensures Accepted(Front(h))
  {}

  lemma HoldsInside(rule: RuleName, config: Config, h: seq<Input>, i: int, j: int)
    requires Waits(rule) && Holds(rule, config, h, i, j)
    ensures 0 <= i <= j < |h|
  {}

  lemma LastQualifies(rule: RuleName, config: Config, h: seq<Input>, i: int)
    requires Waits(rule) && h != [] && Lasts(rule, config, h, i, |h| - 1)
    ensures Qualifies(rule, config, Last(h))
  {}

  lemma StreakLasts(rule: RuleName, config: Config, h: seq<Input>)
    requires Waits(rule) && h != []
    requires var n := Streak(rule, config, h); n > 0 && Last(h).at - h[|h| - n].at >= Patience(rule, config)
    ensures Lasts(rule, config, h, |h| - Streak(rule, config, h), |h| - 1)
  {
    hide Qualifies, Patience;
    StreakIsSuffix(rule, config, h);
  }

  /** Fresh readings below the minimum or above the maximum, at every input over the configured time, open the alert. */
  lemma VoltageOutOfBandOpens(config: Config, h: seq<Input>, from: nat)
    requires Accepted(h) && from < |h| && Last(h).at - h[from].at >= config.voltageFor
    requires forall k :: from <= k < |h| ==>
               h[k].telemetryObserved && h[k].telemetryFresh &&
               (h[k].gridVoltage < config.minimumVoltage || h[k].gridVoltage > config.maximumVoltage)
    ensures RunRule(GridVoltage, config, h).open
  {
    hide RunRule, Accepted;
    WaitingAlertOpenIff(GridVoltage, config, h);
    assert Holds(GridVoltage, config, h, from, |h| - 1);
  }

  // ----- persistent_underproduction

  datatype CountedDay = CountedDay(day: int, ratio: real)

  /** The latest local day an analysis was looked at, whether it qualified or not. */
  function LastDay(h: seq<Input>): DayKey
    decreases |h|, 1
  {
    if h == [] then NoDay
    else if Looked(h) then Last(h).analysisDay
    else LastDay(Front(h))
  }

  /** The last input brings an analysis of a later day than any before. */
  predicate Looked(h: seq<Input>)
    requires h != []
    decreases |h|, 0
  {
    var day, latest := Last(h).analysisDay, LastDay(Front(h));
    Last(h).analysis.Some? && (day.Day? && latest.Day? ==> day.number > latest.number)
  }

  predicate Counted(h: seq<Input>)
    requires h != []
  {
    Looked(h) && Last(h).weatherAvailable && Last(h).analysis.value.qualifying
  }

  /** The qualifying days, each once. */
  function Days(h: seq<Input>): seq<CountedDay> {
    if h == [] then []
    else if Counted(h) && Last(h).analysisDay.Day? then
      Days(Front(h)) + [CountedDay(Last(h).analysisDay.number, Last(h).analysis.value.ratio)]
    else Days(Front(h))
  }

  predicate Towards(config: Config, open: bool, d: CountedDay) {
    if open then d.ratio >= config.recoveryRatio else d.ratio < config.underproductionRatio
  }

  function TowardsFor(config: Config, open: bool): int {
    if open then config.recoveryDays else config.underproductionDays
  }

  function TrailingTowards(config: Config, open: bool, days: seq<CountedDay>): (n: nat)
    ensures n <= |days|
  {
    if days == [] || !Towards(config, open, Last(days)) then 0 else TrailingTowards(config, open, Front(days)) + 1
  }

  /** How many qualifying days had been counted at the last transition. */
  function Mark(config: Config, h: seq<Input>): (n: nat)
    ensures n <= |Days(h)|
  {
    if h == [] then 0
    else if RunRule(PersistentUnderproduction, config, Front(h)).open != RunRule(PersistentUnderproduction, config, h).open then |Days(h)|
    else Mark(config, Front(h))
  }

  lemma {:induction false} DaysStrictlyLater(h: seq<Input>)
    requires Accepted(h)
    ensures forall i, j :: 0 <= i < j < |Days(h)| ==> Days(h)[i].day < Days(h)[j].day
    ensures LastDay(h) == NoDay ==> Days(h) == []
    ensures LastDay(h) != NoDay ==> LastDay(h).Day? && forall i :: 0 <= i < |Days(h)| ==> Days(h)[i].day <= LastDay(h).number
    decreases |h|
  {
    if h != [] {
      DaysStrictlyLater(Front(h));
      assert ValidInput(Last(h));
      if !Looked(h) {
        assert LastDay(h) == LastDay(Front(h)) && Days(h) == Days(Front(h));
      }
    }
  }

  lemma {:induction false} UnderproductionSummary(config: Config, h: seq<Input>)
    requires Accepted(h) && ValidConfig(config)
    ensures var r := RunRule(PersistentUnderproduction, config, h);
            && r.state.lastKey == LastDay(h)
            && r.state.consecutive == TrailingTowards(config, r.open, Days(h)[Mark(config, h)..])
            && r.state.consecutive < TowardsFor(config, r.open)
    decreases |h|
  {
    hide Evaluate;
    if h != [] {
      UnderproductionSummary(config, Front(h));
      StepIsJudge(PersistentUnderproduction, config, h);
      UnderproductionStep(config, h);
    }
  }

  lemma UnderproductionDecision(config: Config, i: Input, state: State, open: bool)
    ensures var d := Judge(PersistentUnderproduction, i, state, open, config);
            var looked := i.analysis.Some? && (i.analysisDay.Day? && state.lastKey.Day? ==> i.analysisDay.number > state.lastKey.number);
            var counted := looked && i.weatherAvailable && i.analysis.value.qualifying;
            var towards := counted && if open then i.analysis.value.ratio >= config.recoveryRatio else i.analysis.value.ratio < config.underproductionRatio;
            var days := if !counted then state.consecutive else if towards then state.consecutive + 1 else 0;
            var reached := counted && days >= TowardsFor(config, open);
            && d.next.lastKey == (if looked then i.analysisDay else state.lastKey)
            && d.next.consecutive == (if reached then 0 else days)
            && d.shouldOpen == (reached && !open) && d.shouldResolve == (reached && open)
  {}

  lemma UnderproductionStep(config: Config, h: seq<Input>)
    requires Accepted(h) && ValidConfig(config) && h != []
    requires var r := RunRule(PersistentUnderproduction, config, Front(h));
             && r.state.lastKey == LastDay(Front(h))
             && r.state.consecutive == TrailingTowards(config, r.open, Days(Front(h))[Mark(config, Front(h))..])
             && r.state.consecutive < TowardsFor(config, r.open)
    ensures var before, after := RunRule(PersistentUnderproduction, config, Front(h)), RunRule(PersistentUnderproduction, config, h);
            var reached := TrailingTowards(config, before.open, Days(h)[Mark(config, Front(h))..]);
            && after.state.lastKey == LastDay(h)
            && (after.open != before.open <==> reached >= TowardsFor(config, before.open))
            && after.state.consecutive == TrailingTowards(config, after.open, Days(h)[Mark(config, h)..])
            && after.state.consecutive < TowardsFor(config, after.open)
  {
    hide Evaluate, RunRule, Judge, StateInv, ValidInput;
    StepIsJudge(PersistentUnderproduction, config, h);
    var r := RunRule(PersistentUnderproduction, config, Front(h));
    UnderproductionDecision(config, Last(h), r.state, r.open);
    AcceptedDay(h);
    var m := Mark(config, Front(h));
    if Counted(h) {
      assert Front(Days(h)[m..]) == Days(Front(h))[m..];
    }
  }

  lemma AcceptedDay(h: seq<Input>)
    requires h != [] && ValidInput(Last(h))
    ensures Last(h).analysis.Some? ==> Last(h).analysisDay.Day?
  {}

  lemma {:induction false} TrailingTowardsIsSuffix(config: Config, open: bool, days: seq<CountedDay>)
    ensures var n := TrailingTowards(config, open, days);
            forall k :: |days| - n <= k < |days| ==> Towards(config, open, days[k])
    decreases |days|
  {
    hide Towards;
    if days != [] {
      TrailingTowardsIsSuffix(config, open, Front(days));
    }
  }

  /**
    The alert changes at an input exactly when the qualifying days since the previous change end
    in enough consecutive days pointing the other way; so two changes are always at least that
    many distinct, later qualifying days apart, and every one of those days pointed that way.
   */
  lemma UnderproductionTransitions(config: Config, h: seq<Input>)
    requires Accepted(h) && ValidConfig(config) && h != []
    ensures var before, after := RunRule(PersistentUnderproduction, config, Front(h)).open, RunRule(PersistentUnderproduction, config, h).open;
            var days, m, need := Days(h), Mark(config, Front(h)), TowardsFor(config, before);
            && m <= |days|
            && (after != before <==> TrailingTowards(config, before, days[m..]) >= need)
            && (after != before ==>
                  |days| - m >= need && Mark(config, h) == |days| &&
                  forall k :: |days| - need <= k < |days| ==> Towards(config, before, days[k]))
            && (forall i, j :: 0 <= i < j < |days| ==> days[i].day < days[j].day)
  {
    hide RunRule, Towards, Days, Mark, TrailingTowards, TowardsFor, LastDay, ValidConfig;
    UnderproductionSummary(config, Front(h));
    UnderproductionStep(config, h);
    DaysStrictlyLater(h);
    MarkAfter(config, h);
    var before := RunRule(PersistentUnderproduction, config, Front(h)).open;
    SuffixTowards(config, before, Days(h), Mark(config, Front(h)));
  }

  lemma MarkAfter(config: Config, h: seq<Input>)
    requires h != []
    ensures Mark(config, Front(h)) <= |Days(h)|
    ensures RunRule(PersistentUnderproduction, config, Front(h)).open != RunRule(PersistentUnderproduction, config, h).open
            ==> Mark(config, h) == |Days(h)|
  {
    hide RunRule;
  }

  lemma SuffixTowards(config: Config, open: bool, days: seq<CountedDay>, m: nat)
    requires m <= |days|
    ensures var n := TrailingTowards(config, open, days[m..]);
            n <= |days| - m && forall k :: |days| - n <= k < |days| ==> Towards(config, open, days[k])
  {
    hide Towards, TrailingTowards;
    TrailingTowardsIsSuffix(config, open, days[m..]);
    assert forall k :: m <= k < |days| ==> days[k] == days[m..][k - m];
  }
}
