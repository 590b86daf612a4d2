/**
  The seven alert rules of `internal/alerts/rules.go`: each maps an input, the rule's
  stored state and whether its alert is open to a decision and the next state.

  Instants are integers and 0 is the zero time. A local date is a day number, or
  text that is no date. Sensor readings are reals, so they are always finite.
 */
module AlertRules {
  import opened Common

  type Time = int
  const NANOS_PER_SECOND: real := 1000000000.0

  datatype Severity = Warning | Critical

  datatype RuleName =
    | LoggerOffline | TelemetryStale | InverterFault | ZeroSunnyGeneration
    | PersistentUnderproduction | GridVoltage | GridFrequency

  const STABLE_ORDER: seq<RuleName> :=
    [LoggerOffline, TelemetryStale, InverterFault, ZeroSunnyGeneration, PersistentUnderproduction, GridVoltage, GridFrequency]

  datatype DayKey = NoDay | Day(number: int) | NotADate

  datatype Evidence = Evidence(values: map<string, real>, timestamps: map<string, Time>)

  const NO_EVIDENCE: Evidence := Evidence(map[], map[])

  datatype State = State(pendingSince: Time, lastEvidenceAt: Time, consecutive: int, lastKey: DayKey, lastEvaluatedAt: Time)

  const NEW_STATE: State := State(ZERO_TIME, ZERO_TIME, 0, NoDay, ZERO_TIME)

  datatype Analysis = Analysis(expectedWh: real, actualWh: real, ratio: real, confidenceValid: bool, qualifying: bool)

  datatype Config = Config(
    staleAfter: int, zeroGenerationFor: int, minimumSolarElevation: real, minimumIrradiance: real,
    minimumCoverage: real, maximumZeroPower: real, underproductionRatio: real, recoveryRatio: real,
    underproductionDays: int, recoveryDays: int, minimumVoltage: real, maximumVoltage: real, voltageFor: int,
    minimumFrequency: real, maximumFrequency: real, frequencyFor: int)

  datatype Input = Input(
    at: Time, pollObserved: bool, pollSucceeded: bool, telemetryObserved: bool, telemetryFresh: bool,
    lastTelemetryAt: Time, acPower: real, solarElevation: real, irradiance: real, weatherAvailable: bool,
    coverage: real, pv1Fault: bool, pv2Fault: bool, pv2Active: bool, gridVoltage: real, gridFrequency: real,
    analysisDay: DayKey, analysis: Option<Analysis>)

  datatype Decision = Decision(shouldOpen: bool, shouldResolve: bool, severity: Severity, evidence: Evidence, next: State)

  // ----- what the engine accepts

  predicate ValidConfig(c: Config) {
    && c.staleAfter > 0 && c.zeroGenerationFor > 0 && c.voltageFor > 0 && c.frequencyFor > 0
    && c.underproductionDays > 0 && c.recoveryDays > 0
    && 0.0 <= c.minimumCoverage <= 100.0 && c.maximumZeroPower >= 0.0 && c.minimumIrradiance >= 0.0
    && c.underproductionRatio >= 0.0 && c.recoveryRatio <= 1.0 && c.underproductionRatio < c.recoveryRatio
    && c.minimumVoltage < c.maximumVoltage && c.minimumFrequency < c.maximumFrequency
  }

  predicate ValidInput(i: Input) {
    && i.at != ZERO_TIME
    && (i.lastTelemetryAt != ZERO_TIME ==> i.lastTelemetryAt <= i.at)
    && 0.0 <= i.coverage <= 100.0 && i.irradiance >= 0.0 && i.acPower >= 0.0 && i.gridVoltage >= 0.0 && i.gridFrequency >= 0.0
    && (i.analysis.Some? ==>
          i.analysisDay.Day? && i.analysis.value.expectedWh >= 0.0 && i.analysis.value.actualWh >= 0.0 &&
          i.analysis.value.ratio >= 0.0 && i.analysis.value.confidenceValid)
  }

  // ----- the rules

  function Base(state: State, severity: Severity): Decision {
    Decision(false, false, severity, NO_EVIDENCE, state)
  }

  function Since(values: map<string, real>, since: Time): Evidence {
    Evidence(values, if since != ZERO_TIME then map["pending_since" := since] else map[])
  }

  function Seconds(duration: int): real { duration as real / NANOS_PER_SECOND }

  function EvaluateLoggerOffline(input: Input, state: State, open: bool): Decision {
    var d := Base(state, Critical);
    if !input.pollObserved || input.at == state.lastEvidenceAt then d
    else if input.pollSucceeded then
      d.(shouldResolve := open,
         evidence := Evidence(map["failed_polls" := 0.0], map["observed_at" := input.at]),
         next := state.(lastEvidenceAt := input.at, consecutive := 0, pendingSince := ZERO_TIME))
    else
      var since := if state.consecutive == 0 then input.at else state.pendingSince;
      var failed := state.consecutive + 1;
      d.(shouldOpen := !open && failed >= 3,
         evidence := Since(map["failed_polls" := failed as real], since),
         next := state.(lastEvidenceAt := input.at, consecutive := failed, pendingSince := since))
  }

  predicate Stale(input: Input, config: Config) {
    input.at - input.lastTelemetryAt >= config.staleAfter
  }

  function EvaluateTelemetryStale(input: Input, state: State, open: bool, config: Config): Decision {
    var d := Base(state, Warning);
    if input.lastTelemetryAt == ZERO_TIME then d
    else
      var stale := Stale(input, config);
      d.(shouldOpen := !open && stale, shouldResolve := open && !stale,
         evidence := Evidence(map["age_seconds" := Seconds(input.at - input.lastTelemetryAt), "threshold_seconds" := Seconds(config.staleAfter)],
                              map["last_telemetry_at" := input.lastTelemetryAt]))
  }

  predicate Fresh(input: Input) { input.telemetryObserved && input.telemetryFresh }

  function ActiveFaults(input: Input): nat {
    (if input.pv1Fault then 1 else 0) + (if input.pv2Active && input.pv2Fault then 1 else 0)
  }

  function EvaluateInverterFault(input: Input, state: State, open: bool): Decision {
    var d := Base(state, Critical);
    if !Fresh(input) || input.at == state.lastEvidenceAt then d
    else
      var e := Evidence(map["active_fault_sources" := ActiveFaults(input) as real], map["observed_at" := input.at]);
      var seen := d.(evidence := e, next := state.(lastEvidenceAt := input.at));
      if ActiveFaults(input) > 0 then seen.(shouldOpen := !open, next := seen.next.(consecutive := 0))
      else if !open then seen.(next := seen.next.(consecutive := 0))
      else seen.(shouldResolve := state.consecutive + 1 >= 2, next := seen.next.(consecutive := state.consecutive + 1))
  }

  predicate SunnyZero(input: Input, config: Config) {
    var fault := input.pv1Fault || (input.pv2Active && input.pv2Fault);
    Fresh(input) && input.weatherAvailable && !fault &&
    input.solarElevation > config.minimumSolarElevation && input.irradiance >= config.minimumIrradiance &&
    input.coverage >= config.minimumCoverage && input.acPower <= config.maximumZeroPower
  }

  function EvaluateZeroGeneration(input: Input, state: State, open: bool, config: Config): Decision {
    var d := Base(state, Warning);
    if !SunnyZero(input, config) then
      var resolve := open && Fresh(input) && input.acPower > config.maximumZeroPower;
      d.(next := state.(pendingSince := ZERO_TIME), shouldResolve := resolve,
         evidence := if resolve then Evidence(map["power_w" := input.acPower], map["observed_at" := input.at]) else NO_EVIDENCE)
    else
      var since := if state.pendingSince == ZERO_TIME then input.at else state.pendingSince;
      d.(next := state.(pendingSince := since),
         shouldOpen := !open && input.at - since >= config.zeroGenerationFor,
         evidence := Evidence(map["power_w" := input.acPower, "elevation_degrees" := input.solarElevation,
                                  "irradiance_wm2" := input.irradiance, "coverage_pct" := input.coverage,
                                  "window_seconds" := Seconds(input.at - since)],
                              map["pending_since" := since, "observed_at" := input.at]))
  }

  predicate NotLater(a: DayKey, b: DayKey) { a.Day? && b.Day? && a.number <= b.number }

  function EvaluateUnderproduction(input: Input, state: State, open: bool, config: Config): Decision {
    var d := Base(state, Warning);
    if input.analysis.None? || NotLater(input.analysisDay, state.lastKey) then d
    else
      var next := state.(lastKey := input.analysisDay);
      if !input.weatherAvailable || !input.analysis.value.qualifying then d.(next := next)
      else
        var ratio := input.analysis.value.ratio;
        var towards := if open then ratio >= config.recoveryRatio else ratio < config.underproductionRatio;
        var days := if towards then state.consecutive + 1 else 0;
        var resolve := open && days >= config.recoveryDays;
        var raise := !open && days >= config.underproductionDays;
        d.(shouldOpen := raise, shouldResolve := resolve,
           next := next.(consecutive := if raise || resolve then 0 else days),
           evidence := Evidence(map["ratio" := ratio, "qualifying_days" := days as real,
                                    "expected_wh" := input.analysis.value.expectedWh, "actual_wh" := input.analysis.value.actualWh],
                                map["analyzed_at" := input.at]))
  }

  function EvaluateDuration(input: Input, state: State, open: bool, outside: bool, duration: int, key: string, value: real): Decision {
    var d := Base(state, Warning);
    if !Fresh(input) then d.(next := state.(pendingSince := ZERO_TIME))
    else if !outside then
      d.(next := state.(pendingSince := ZERO_TIME), shouldResolve := open,
         evidence := if open then Evidence(map[key := value, "window_seconds" := 0.0], map["observed_at" := input.at]) else NO_EVIDENCE)
    else
      var since := if state.pendingSince == ZERO_TIME then input.at else state.pendingSince;
      d.(next := state.(pendingSince := since),
         shouldOpen := !open && input.at - since >= duration,
         evidence := Evidence(map[key := value, "window_seconds" := Seconds(input.at - since)],
                              map["pending_since" := since, "observed_at" := input.at]))
  }

  predicate VoltageOutside(input: Input, config: Config) {
    input.gridVoltage < config.minimumVoltage || input.gridVoltage > config.maximumVoltage
  }

  predicate FrequencyOutside(input: Input, config: Config) {
    input.gridFrequency < config.minimumFrequency || input.gridFrequency > config.maximumFrequency
  }

  function Judge(rule: RuleName, input: Input, state: State, open: bool, config: Config): Decision {
    match rule
    case LoggerOffline => EvaluateLoggerOffline(input, state, open)
    case TelemetryStale => EvaluateTelemetryStale(input, state, open, config)
    case InverterFault => EvaluateInverterFault(input, state, open)
    case ZeroSunnyGeneration => EvaluateZeroGeneration(input, state, open, config)
    case PersistentUnderproduction => EvaluateUnderproduction(input, state, open, config)
    case GridVoltage =>
      EvaluateDuration(input, state, open, VoltageOutside(input, config), config.voltageFor, "voltage_v", input.gridVoltage)
    case GridFrequency =>
      EvaluateDuration(input, state, open, FrequencyOutside(input, config), config.frequencyFor, "frequency_hz", input.gridFrequency)
  }

  function Evaluate(rule: RuleName, input: Input, state: State, open: bool, config: Config): Decision {
    var d := Judge(rule, input, state, open, config);
    if d.next.lastEvaluatedAt == ZERO_TIME || input.at >= d.next.lastEvaluatedAt
    then d.(next := d.next.(lastEvaluatedAt := input.at))
    else d
  }

  // ----- what one evaluation keeps

  predicate Regressed(state: State, at: Time) {
    state.lastEvaluatedAt != ZERO_TIME && at < state.lastEvaluatedAt
  }

  /** The repository's own check of a stored state. */
  predicate StoredStateOk(s: State) {
    && s.consecutive >= 0
    && (s.pendingSince != ZERO_TIME && s.lastEvaluatedAt != ZERO_TIME ==> s.pendingSince <= s.lastEvaluatedAt)
    && (s.lastEvidenceAt != ZERO_TIME && s.lastEvaluatedAt != ZERO_TIME ==> s.lastEvidenceAt <= s.lastEvaluatedAt)
    && !s.lastKey.NotADate?
  }

  /** ... and what every reachable state satisfies besides. */
  predicate StateInv(s: State) {
    StoredStateOk(s) && (s.lastEvaluatedAt == ZERO_TIME ==> s.pendingSince == ZERO_TIME && s.lastEvidenceAt == ZERO_TIME)
  }

  predicate EvidenceOk(e: Evidence) {
    forall k :: k in e.timestamps ==> e.timestamps[k] != ZERO_TIME
  }

  /** What a rule may do to its state, and what its decision always satisfies. */
  predicate Lawful(input: Input, state: State, open: bool, d: Decision) {
    && d.next.lastEvaluatedAt == state.lastEvaluatedAt
    && d.next.consecutive >= 0 && !d.next.lastKey.NotADate?
    && (d.next.pendingSince == ZERO_TIME || d.next.pendingSince == input.at || d.next.pendingSince == state.pendingSince)
    && (d.next.lastEvidenceAt == input.at || d.next.lastEvidenceAt == state.lastEvidenceAt)
    && EvidenceOk(d.evidence)
    && (d.shouldOpen ==> !open) && (d.shouldResolve ==> open)
  }

  lemma LoggerLawful(input: Input, state: State, open: bool)
    requires ValidInput(input) && StoredStateOk(state)
    ensures Lawful(input, state, open, EvaluateLoggerOffline(input, state, open))
  {}

  lemma StaleLawful(input: Input, state: State, open: bool, config: Config)
    requires ValidInput(input) && StoredStateOk(state)
    ensures Lawful(input, state, open, EvaluateTelemetryStale(input, state, open, config))
  {
    hide Stale, Seconds;
  }

  lemma FaultLawful(input: Input, state: State, open: bool)
    requires ValidInput(input) && StoredStateOk(state)
    ensures Lawful(input, state, open, EvaluateInverterFault(input, state, open))
  {
    hide Fresh, ActiveFaults;
  }

  lemma ZeroGenerationLawful(input: Input, state: State, open: bool, config: Config)
    requires ValidInput(input) && StoredStateOk(state)
    ensures Lawful(input, state, open, EvaluateZeroGeneration(input, state, open, config))
  {
    hide SunnyZero, Fresh, Seconds;
  }

  lemma UnderproductionLawful(input: Input, state: State, open: bool, config: Config)
    requires ValidInput(input) && StoredStateOk(state)
    ensures Lawful(input, state, open, EvaluateUnderproduction(input, state, open, config))
  {
    hide NotLater;
  }

  lemma DurationLawful(input: Input, state: State, open: bool, outside: bool, duration: int, key: string, value: real)
    requires ValidInput(input) && StoredStateOk(state)
    ensures Lawful(input, state, open, EvaluateDuration(input, state, open, outside, duration, key, value))
  {
    hide Fresh, Seconds;
  }

  lemma JudgeLawful(rule: RuleName, input: Input, state: State, open: bool, config: Config)
    requires ValidInput(input) && StoredStateOk(state)
    ensures Lawful(input, state, open, Judge(rule, input, state, open, config))
  {
    hide Lawful, EvaluateLoggerOffline, EvaluateTelemetryStale, EvaluateInverterFault, EvaluateZeroGeneration;
    hide EvaluateUnderproduction, EvaluateDuration, ValidInput, StoredStateOk;
    match rule
    case LoggerOffline => LoggerLawful(input, state, open);
    case TelemetryStale => StaleLawful(input, state, open, config);
    case InverterFault => FaultLawful(input, state, open);
    case ZeroSunnyGeneration => ZeroGenerationLawful(input, state, open, config);
    case PersistentUnderproduction => UnderproductionLawful(input, state, open, config);
    case GridVoltage =>
      DurationLawful(input, state, open, VoltageOutside(input, config), config.voltageFor, "voltage_v", input.gridVoltage);
    case GridFrequency =>
      DurationLawful(input, state, open, FrequencyOutside(input, config), config.frequencyFor, "frequency_hz", input.gridFrequency);
  }

  lemma EvaluateKeepsState(rule: RuleName, input: Input, state: State, open: bool, config: Config)
    requires ValidInput(input) && StateInv(state) && !Regressed(state, input.at)
    ensures var d := Evaluate(rule, input, state, open, config);
            StateInv(d.next) && d.next.lastEvaluatedAt == input.at && EvidenceOk(d.evidence) &&
            (d.shouldOpen ==> !open) && (d.shouldResolve ==> open)
  {
    hide Judge;
    JudgeLawful(rule, input, state, open, config);
  }

  // ----- evaluating the same input twice

  /** From the state and openness the first evaluation led to, the second decides and changes nothing. */
  predicate Quiet(again: Decision, next: State) {
    !again.shouldOpen && !again.shouldResolve && again.next == next
  }

  predicate Opened(open: bool, d: Decision) { (open && !d.shouldResolve) || d.shouldOpen }

  lemma LoggerTwice(input: Input, state: State, open: bool, at: Time)
    ensures var d := EvaluateLoggerOffline(input, state, open);
            var next := d.next.(lastEvaluatedAt := at);
            Quiet(EvaluateLoggerOffline(input, next, Opened(open, d)), next)
  {}

  lemma StaleTwice(input: Input, state: State, open: bool, config: Config, at: Time)
    ensures var d := EvaluateTelemetryStale(input, state, open, config);
            var next := d.next.(lastEvaluatedAt := at);
            Quiet(EvaluateTelemetryStale(input, next, Opened(open, d), config), next)
  {
    hide Stale, Seconds;
  }

  lemma FaultTwice(input: Input, state: State, open: bool, at: Time)
    ensures var d := EvaluateInverterFault(input, state, open);
            var next := d.next.(lastEvaluatedAt := at);
            Quiet(EvaluateInverterFault(input, next, Opened(open, d)), next)
  {
    hide Fresh, ActiveFaults;
  }

  lemma ZeroGenerationTwice(input: Input, state: State, open: bool, config: Config, at: Time)
    requires input.at != ZERO_TIME
    ensures var d := EvaluateZeroGeneration(input, state, open, config);
            var next := d.next.(lastEvaluatedAt := at);
            Quiet(EvaluateZeroGeneration(input, next, Opened(open, d), config), next)
  {
    hide SunnyZero, Fresh, Seconds;
  }

  lemma UnderproductionTwice(input: Input, state: State, open: bool, config: Config, at: Time)
    requires input.analysis.Some? ==> input.analysisDay.Day?
    ensures var d := EvaluateUnderproduction(input, state, open, config);
            var next := d.next.(lastEvaluatedAt := at);
            Quiet(EvaluateUnderproduction(input, next, Opened(open, d), config), next)
  {}

  lemma DurationTwice(input: Input, state: State, open: bool, outside: bool, duration: int, key: string, value: real, at: Time)
    requires input.at != ZERO_TIME
    ensures var d := EvaluateDuration(input, state, open, outside, duration, key, value);
            var next := d.next.(lastEvaluatedAt := at);
            Quiet(EvaluateDuration(input, next, Opened(open, d), outside, duration, key, value), next)
  {
    hide Fresh, Seconds;
  }

  lemma JudgeTwice(rule: RuleName, input: Input, state: State, open: bool, config: Config, at: Time)
    requires ValidInput(input)
    ensures var d := Judge(rule, input, state, open, config);
            var next := d.next.(lastEvaluatedAt := at);
            Quiet(Judge(rule, input, next, Opened(open, d), config), next)
  {
    hide Quiet, Opened, EvaluateLoggerOffline, EvaluateTelemetryStale, EvaluateInverterFault, EvaluateZeroGeneration;
    hide EvaluateUnderproduction, EvaluateDuration;
    match rule
    case LoggerOffline => LoggerTwice(input, state, open, at);
    case TelemetryStale => StaleTwice(input, state, open, config, at);
    case InverterFault => FaultTwice(input, state, open, at);
    case ZeroSunnyGeneration => ZeroGenerationTwice(input, state, open, config, at);
    case PersistentUnderproduction => UnderproductionTwice(input, state, open, config, at);
    case GridVoltage =>
      DurationTwice(input, state, open, VoltageOutside(input, config), config.voltageFor, "voltage_v", input.gridVoltage, at);
    case GridFrequency =>
      DurationTwice(input, state, open, FrequencyOutside(input, config), config.frequencyFor, "frequency_hz", input.gridFrequency, at);
  }

  lemma EvaluateTwice(rule: RuleName, input: Input, state: State, open: bool, config: Config)
    requires ValidInput(input) && StateInv(state) && !Regressed(state, input.at)
    ensures var d := Evaluate(rule, input, state, open, config);
            Quiet(Evaluate(rule, input, d.next, Opened(open, d), config), d.next)
  {
    hide Judge;
    JudgeLawful(rule, input, state, open, config);
    JudgeTwice(rule, input, state, open, config, input.at);
  }
}
