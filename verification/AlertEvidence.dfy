/**
  What a transition tells the reader of the audit log: its severity and evidence, said of the
  history of inputs that led to it.
 */
module AlertEvidence {
  import opened AlertRules
  import opened AlertHistory
  import opened Common

  /** What the rule decides about the last input of a history. */
  function LastDecision(rule: RuleName, config: Config, h: seq<Input>): Decision
    requires h != []
  {
    var before := RunRule(rule, config, Front(h));
    Judge(rule, Last(h), before.state, before.open, config)
  }

  function InSeconds(nanoseconds: int): real { nanoseconds as real / 1_000_000_000.0 }

  function FailingSince(polls: seq<Sighting>): Time {
    var n := Trailing(polls, true);
    if 0 < n <= |polls| then polls[|polls| - n].at else ZERO_TIME
  }

  lemma FailingSinceAppend(polls: seq<Sighting>, x: Sighting)
    ensures FailingSince(polls + [x])
            == if !x.bad then ZERO_TIME else if Trailing(polls, true) == 0 then x.at else FailingSince(polls)
  {
    TrailingAppend(polls, x, true);
    TrailingIsSuffix(polls, true);
  }

  lemma LoggerRecord(config: Config, i: Input, state: State, open: bool)
    ensures var d := Judge(LoggerOffline, i, state, open, config);
            var heard := i.pollObserved && i.at != state.lastEvidenceAt;
            && d.next.pendingSince == (if !heard then state.pendingSince else if i.pollSucceeded then ZERO_TIME
                                       else if state.consecutive == 0 then i.at else state.pendingSince)
            && (d.shouldOpen && d.next.pendingSince != ZERO_TIME ==>
                  d.evidence == Evidence(map["failed_polls" := d.next.consecutive as real], map["pending_since" := d.next.pendingSince]))
            && (d.shouldOpen || d.shouldResolve ==> d.severity == Critical)
            && (d.shouldResolve ==> d.evidence == Evidence(map["failed_polls" := 0.0], map["observed_at" := i.at]))
  {}

  /** The logger's pending time is that of the first poll of the present row of failures. */
  lemma {:induction false} LoggerPending(config: Config, h: seq<Input>)
    requires Accepted(h)
    ensures RunRule(LoggerOffline, config, h).state.pendingSince == FailingSince(Polls(h))
    decreases |h|
  {
    hide Evaluate, ValidInput, Judge, Trailing, FailingSince, StateInv;
    if h == [] {
      NoneFailing(config);
    } else {
      LoggerPending(config, Front(h));
      StepIsJudge(LoggerOffline, config, h);
      LoggerSummary(config, Front(h));
      NonZeroTimes(h);
      var r := RunRule(LoggerOffline, config, Front(h));
      LoggerRecord(config, Last(h), r.state, r.open);
      FailingSinceAppend(Polls(Front(h)), Sighting(Last(h).at, !Last(h).pollSucceeded));
    }
  }

  lemma NoneFailing(config: Config)
    ensures RunRule(LoggerOffline, config, []).state.pendingSince == FailingSince(Polls([]))
  {}

  /** Opening tells how many polls have failed and since when. */
  lemma LoggerEvidence(config: Config, h: seq<Input>)
    requires Accepted(h) && h != []
    ensures var d, p := LastDecision(LoggerOffline, config, h), Polls(h);
            && (d.shouldOpen ==>
                  d.severity == Critical && FailingSince(p) != ZERO_TIME &&
                  d.evidence == Evidence(map["failed_polls" := Trailing(p, true) as real], map["pending_since" := FailingSince(p)]))
            && (d.shouldResolve ==>
                  d.severity == Critical &&
                  d.evidence == Evidence(map["failed_polls" := 0.0], map["observed_at" := Last(h).at]))
  {
    hide RunRule, ValidInput, Judge, StateInv, Polls;
    LoggerSummary(config, h);
    LoggerPending(config, h);
    StepIsJudge(LoggerOffline, config, h);
    PollsInTimeOrder(h);
    TrailingIsSuffix(Polls(h), true);
    var r := RunRule(LoggerOffline, config, Front(h));
    LoggerRecord(config, Last(h), r.state, r.open);
  }

  lemma TelemetryStaleEvidence(config: Config, h: seq<Input>)
    requires Accepted(h) && h != []
    ensures var d, i := LastDecision(TelemetryStale, config, h), Last(h);
            d.shouldOpen || d.shouldResolve ==>
              d.severity == Warning && i.lastTelemetryAt != ZERO_TIME &&
              d.evidence == Evidence(map["age_seconds" := InSeconds(i.at - i.lastTelemetryAt),
                                         "threshold_seconds" := InSeconds(config.staleAfter)],
                                     map["last_telemetry_at" := i.lastTelemetryAt])
  {
    hide RunRule;
  }

  lemma InverterFaultEvidence(config: Config, h: seq<Input>)
    requires Accepted(h) && h != []
    ensures var d, i := LastDecision(InverterFault, config, h), Last(h);
            && (d.shouldOpen ==>
                  d.severity == Critical && (i.pv1Fault || (i.pv2Active && i.pv2Fault)) &&
                  d.evidence == Evidence(map["active_fault_sources" := if i.pv1Fault && i.pv2Active && i.pv2Fault then 2.0 else 1.0],
                                         map["observed_at" := i.at]))
            && (d.shouldResolve ==>
                  d.severity == Critical &&
                  d.evidence == Evidence(map["active_fault_sources" := 0.0], map["observed_at" := i.at]))
  {
    hide RunRule;
  }

  /** The readings a waiting rule puts down when it opens, and when it resolves. */
  function Readings(rule: RuleName, i: Input): map<string, real>
    requires Waits(rule)
  {
    match rule
    case ZeroSunnyGeneration =>
      map["power_w" := i.acPower, "elevation_degrees" := i.solarElevation, "irradiance_wm2" := i.irradiance, "coverage_pct" := i.coverage]
    case GridVoltage => map["voltage_v" := i.gridVoltage]
    case _ => map["frequency_hz" := i.gridFrequency]
  }

  /** The evidence of opening names the whole span of the qualifying inputs. */
  lemma WaitingEvidence(rule: RuleName, config: Config, h: seq<Input>)
    requires Accepted(h) && Waits(rule) && h != []
    ensures var d, i, since := LastDecision(rule, config, h), Last(h), StreakStart(rule, config, h);
            && (d.shouldOpen ==>
                  d.severity == Warning && since != ZERO_TIME &&
                  d.evidence == Evidence(Readings(rule, i)["window_seconds" := InSeconds(i.at - since)],
                                         map["pending_since" := since, "observed_at" := i.at]))
            && (d.shouldResolve ==>
                  d.severity == Warning &&
                  d.evidence == Evidence(if rule == ZeroSunnyGeneration then map["power_w" := i.acPower]
                                         else Readings(rule, i)["window_seconds" := 0.0],
                                         map["observed_at" := i.at]))
  {
    hide RunRule, StreakStart, ValidInput;
    PendingIsStreakStart(rule, config, Front(h));
    PendingIsStreakStart(rule, config, h);
    StepIsJudge(rule, config, h);
    NonZeroTimes(h);
    var before := RunRule(rule, config, Front(h));
    WaitingRecord(rule, config, Last(h), before.state, before.open);
  }

  lemma WaitingRecord(rule: RuleName, config: Config, i: Input, state: State, open: bool)
    requires Waits(rule)
    ensures var d := Judge(rule, i, state, open, config);
            var since := d.next.pendingSince;
            && (d.shouldOpen ==>
                  d.severity == Warning && (i.at != ZERO_TIME ==> since != ZERO_TIME) &&
                  d.evidence == Evidence(Readings(rule, i)["window_seconds" := InSeconds(i.at - since)],
                                         map["pending_since" := since, "observed_at" := i.at]))
            && (d.shouldResolve ==>
                  d.severity == Warning &&
                  d.evidence == Evidence(if rule == ZeroSunnyGeneration then map["power_w" := i.acPower]
                                         else Readings(rule, i)["window_seconds" := 0.0],
                                         map["observed_at" := i.at]))
  {
    match rule
    case ZeroSunnyGeneration =>
    case GridVoltage =>
    case _ =>
  }

  lemma UnderproductionRecord(config: Config, i: Input, state: State, open: bool)
    ensures var d := Judge(PersistentUnderproduction, i, state, open, config);
            d.shouldOpen || d.shouldResolve ==>
              d.severity == Warning && i.analysis.Some? && !NotLater(i.analysisDay, state.lastKey) &&
              i.weatherAvailable && i.analysis.value.qualifying &&
              var ratio := i.analysis.value.ratio;
              var towards := if open then ratio >= config.recoveryRatio else ratio < config.underproductionRatio;
              d.evidence == Evidence(map["ratio" := ratio,
                                         "qualifying_days" := (if towards then state.consecutive + 1 else 0) as real,
                                         "expected_wh" := i.analysis.value.expectedWh, "actual_wh" := i.analysis.value.actualWh],
                                     map["analyzed_at" := i.at])
  {}

  /** The evidence counts the days that brought the change about, and quotes the last of them. */
  lemma UnderproductionEvidence(config: Config, h: seq<Input>)
    requires Accepted(h) && ValidConfig(config) && h != []
    ensures var d, i := LastDecision(PersistentUnderproduction, config, h), Last(h);
            var open := RunRule(PersistentUnderproduction, config, Front(h)).open;
            d.shouldOpen || d.shouldResolve ==>
              d.severity == Warning && Counted(h) &&
              d.evidence == Evidence(map["ratio" := i.analysis.value.ratio,
                                         "qualifying_days" := TrailingTowards(config, open, Days(h)[Mark(config, Front(h))..]) as real,
                                         "expected_wh" := i.analysis.value.expectedWh, "actual_wh" := i.analysis.value.actualWh],
                                     map["analyzed_at" := i.at])
  {
    hide RunRule, ValidConfig, Mark, Judge, TrailingTowards, StateInv, TowardsFor;
    UnderproductionSummary(config, Front(h));
    StepIsJudge(PersistentUnderproduction, config, h);
    var r := RunRule(PersistentUnderproduction, config, Front(h));
    UnderproductionRecord(config, Last(h), r.state, r.open);
    CountedTowards(config, r.open, h, Mark(config, Front(h)));
  }

  lemma CountedTowards(config: Config, open: bool, h: seq<Input>, m: nat)
    requires h != [] && m <= |Days(Front(h))|
    ensures m <= |Days(h)|
    ensures Counted(h) && Last(h).analysisDay.Day? ==>
              var ratio := Last(h).analysis.value.ratio;
              TrailingTowards(config, open, Days(h)[m..])
              == if (if open then ratio >= config.recoveryRatio else ratio < config.underproductionRatio)
                 then TrailingTowards(config, open, Days(Front(h))[m..]) + 1 else 0
  {
    hide Counted;
    if Counted(h) && Last(h).analysisDay.Day? {
      assert Front(Days(h)[m..]) == Days(Front(h))[m..];
    }
  }
}
