/**
  The day's expected energy (`Evaluate` in `internal/analysis/model.go`): the learned power of each
  daylight hour, scaled by the installed power and by the forecast irradiance, and bounded.
 */
module Expectation {
  import opened Baseline
  import opened Common

  const STANDARD_IRRADIANCE: real := 1000.0

  datatype DaylightHour = DaylightHour(at: int, duration: real)

  datatype WeatherHour = WeatherHour(at: int, irradiance: real)

  datatype Weather = Weather(available: bool, stale: bool, coverage: real, hours: seq<WeatherHour>)

  /** What a zone's clock shows: month and hour, and a key that tells local hours apart. */
  datatype Clock = Clock(bucketOf: int -> MonthHour, hourOf: int -> int)

  datatype Input = Input(timezone: string, day: int, baseline: Baseline, installed: real, actual: real,
                         telemetryCoverage: real, daylight: seq<DaylightHour>, weather: Weather)

  datatype Confidence = Low | Medium | High

  datatype Outcome =
    | Refused
    | Expected(expected: real, actual: real, ratio: real, modelCoverage: real, weatherCoverage: real,
               confidence: Confidence, qualifying: bool)

  function AtLeastZero(x: real): real { if x < 0.0 then 0.0 else x }

  function MinReal(a: real, b: real): real { if a < b then a else b }

  predicate Lit(d: DaylightHour) { d.duration > 0.0 && d.at != ZERO_TIME }

  predicate Taught(buckets: map<MonthHour, Learned>, key: MonthHour) { key in buckets && buckets[key].sampleCount > 0 }

  /** The last reading for a local hour. */
  function Reading(clock: Clock, hours: seq<WeatherHour>, key: int): Option<real> {
    if hours == [] then None
    else
      var last := hours[|hours| - 1];
      if last.at != ZERO_TIME && clock.hourOf(last.at) == key then Some(last.irradiance)
      else Reading(clock, hours[..|hours| - 1], key)
  }

  function ReadingFor(clock: Clock, weather: Weather, at: int): Option<real> {
    if weather.available then Reading(clock, weather.hours, clock.hourOf(at)) else None
  }

  function Factor(reading: Option<real>): real {
    match reading case None => 1.0 case Some(irradiance) => Clamp(irradiance / STANDARD_IRRADIANCE, 0.25, 1.15)
  }

  /** What one watt installed yields in a daylight hour. */
  function HourYield(clock: Clock, input: Input, d: DaylightHour): real {
    if Lit(d) && Taught(input.baseline.buckets, clock.bucketOf(d.at))
    then Clamp(input.baseline.buckets[clock.bucketOf(d.at)].normalizedPower, 0.0, 1.0) * d.duration
         * Factor(ReadingFor(clock, input.weather, d.at))
    else 0.0
  }

  function Yield(clock: Clock, input: Input, daylight: seq<DaylightHour>): real {
    if daylight == [] then 0.0
    else Yield(clock, input, daylight[..|daylight| - 1]) + HourYield(clock, input, daylight[|daylight| - 1])
  }

  function DaylightHours(daylight: seq<DaylightHour>): real {
    if daylight == [] then 0.0
    else DaylightHours(daylight[..|daylight| - 1]) + if Lit(daylight[|daylight| - 1]) then daylight[|daylight| - 1].duration else 0.0
  }

  function Matched(clock: Clock, input: Input, daylight: seq<DaylightHour>, withWeather: bool): real {
    if daylight == [] then 0.0
    else
      var d := daylight[|daylight| - 1];
      Matched(clock, input, daylight[..|daylight| - 1], withWeather)
      + if Lit(d) && Taught(input.baseline.buckets, clock.bucketOf(d.at)) && (withWeather ==> ReadingFor(clock, input.weather, d.at).Some?)
        then d.duration else 0.0
  }

  /** The expectation: what the installed power yields, no more than it could at full power all day. */
  function ExpectedOf(clock: Clock, input: Input): real {
    AtLeastZero(input.installed) * MinReal(Yield(clock, input, input.daylight), DaylightHours(input.daylight))
  }

  function Percent(part: real, whole: real): real { if whole > 0.0 then 100.0 * part / whole else 0.0 }

  function ModelCoverage(clock: Clock, input: Input): real {
    Percent(Matched(clock, input, input.daylight, false), DaylightHours(input.daylight))
  }

  /** Of the matched hours, those with a reading; never more than the coverage the forecast claims for itself. */
  function WeatherCoverage(clock: Clock, input: Input): real {
    MinReal(input.weather.coverage,
            Percent(Matched(clock, input, input.daylight, true), Matched(clock, input, input.daylight, false)))
  }

  // ----- confidence

  /**
    High only with a long history, full coverage and a fresh, covering forecast; low exactly when the day does
    not qualify, or a stale forecast comes on top of another reservation.
   */
  method AssessConfidence(input: Input, modelCoverage: real, weatherCoverage: real) returns (confidence: Confidence, qualifying: bool)
    ensures qualifying <==> input.baseline.qualifyingDays >= 7 && 80.0 <= input.telemetryCoverage <= 100.0
    ensures confidence == High <==>
              && input.baseline.qualifyingDays >= 30 && 90.0 <= input.telemetryCoverage <= 100.0 && modelCoverage >= 90.0
              && input.weather.available && !input.weather.stale && weatherCoverage >= 90.0
    ensures confidence == Low <==>
              || !qualifying
              || (input.weather.available && input.weather.stale &&
                  (input.baseline.qualifyingDays < 30 || input.telemetryCoverage < 90.0 || modelCoverage < 90.0))
  {
    if input.baseline.qualifyingDays < 7 {
      return Low, false;
    }
    var level := if input.baseline.qualifyingDays >= 30 then 2 else 1;
    qualifying := 0.0 <= input.telemetryCoverage <= 100.0 && input.telemetryCoverage >= QUALIFYING_COVERAGE;
    if !qualifying {
      level := 0;
    } else if input.telemetryCoverage < 90.0 {
      level := Min(level, 1);
    }
    if modelCoverage < 90.0 {
      level := Min(level, 1);
    }
    if !input.weather.available {
      level := Min(level, 1);
    } else {
      if input.weather.stale {
        level := Max(0, level - 1);
      }
      if weatherCoverage < 90.0 {
        level := Min(level, 1);
      }
    }
    confidence := if level == 0 then Low else if level == 1 then Medium else High;
  }

  // ----- the method

  function WeatherTable(clock: Clock, table: map<int, WeatherHour>, hour: WeatherHour): map<int, WeatherHour> {
    if hour.at == ZERO_TIME then table else table[clock.hourOf(hour.at) := hour]
  }

  predicate IsTable(clock: Clock, hours: seq<WeatherHour>, table: map<int, WeatherHour>, key: int) {
    Reading(clock, hours, key) == if key in table then Some(table[key].irradiance) else None
  }

  method TabulateWeather(clock: Clock, hours: seq<WeatherHour>) returns (table: map<int, WeatherHour>)
    ensures forall key :: IsTable(clock, hours, table, key)
  {
    table := map[];
    for i := 0 to |hours|
      invariant forall key :: IsTable(clock, hours[..i], table, key)
    {
      ghost var before := table;
      table := WeatherTable(clock, table, hours[i]);
      ghost var read := hours[..i + 1];
      assert read[..i] == hours[..i];
      forall key ensures IsTable(clock, read, table, key) {
        assert IsTable(clock, hours[..i], before, key);
      }
    }
    assert hours[..|hours|] == hours;
  }

  lemma TableIsReading(clock: Clock, weather: Weather, table: map<int, WeatherHour>, at: int)
    requires forall key :: IsTable(clock, weather.hours, table, key)
    ensures ReadingFor(clock, weather, at)
            == if weather.available && clock.hourOf(at) in table then Some(table[clock.hourOf(at)].irradiance) else None
  {
    assert IsTable(clock, weather.hours, table, clock.hourOf(at));
  }

  /** Multiplying in the order the code does, term by term, is multiplying the sum. */
  lemma TermByTerm(installed: real, yield': real, power: real, duration: real, factor: real)
    ensures installed * yield' + power * installed * duration * factor == installed * (yield' + power * duration * factor)
  {
    Reordered(installed, power, duration, factor);
    Distributed(installed, yield', power * duration * factor);
  }

  lemma Reordered(installed: real, power: real, duration: real, factor: real)
    ensures power * installed * duration * factor == installed * (power * duration * factor)
  {
    var a := power * duration;
    assert power * installed * duration == installed * a;
    assert installed * a * factor == installed * (a * factor);
  }

  lemma Distributed(x: real, a: real, b: real)
    ensures x * a + x * b == x * (a + b)
  {}

  method Accumulate(clock: Clock, input: Input, installed: real) returns (expected: real, daylightHours: real, matched: real, withWeather: real)
    ensures expected == installed * Yield(clock, input, input.daylight)
    ensures daylightHours == DaylightHours(input.daylight)
    ensures matched == Matched(clock, input, input.daylight, false)
    ensures withWeather == Matched(clock, input, input.daylight, true)
  {
    hide Clamp, Factor, Taught, Lit, ReadingFor, Yield, DaylightHours, Matched, IsTable;
    var table := TabulateWeather(clock, input.weather.hours);
    expected, daylightHours, matched, withWeather := 0.0, 0.0, 0.0, 0.0;
    NothingYet(clock, input);
    ghost var daylight := input.daylight;
    for i := 0 to |input.daylight|
      invariant expected == installed * Yield(clock, input, daylight[..i])
      invariant daylightHours == DaylightHours(daylight[..i])
      invariant matched == Matched(clock, input, daylight[..i], false)
      invariant withWeather == Matched(clock, input, daylight[..i], true)
    {
      var d := input.daylight[i];
      Steps(clock, input, daylight, i);
      if !Lit(d) { continue; }
      daylightHours := daylightHours + d.duration;
      var key := clock.bucketOf(d.at);
      if !Taught(input.baseline.buckets, key) { continue; }
      TaughtIsKnown(input.baseline.buckets, key);
      matched := matched + d.duration;
      var reading: Option<real> := None;
      TableIsReading(clock, input.weather, table, d.at);
      if input.weather.available && clock.hourOf(d.at) in table {
        withWeather := withWeather + d.duration;
        reading := Some(table[clock.hourOf(d.at)].irradiance);
      }
      var power, factor := Clamp(input.baseline.buckets[key].normalizedPower, 0.0, 1.0), Factor(reading);
      TermByTerm(installed, Yield(clock, input, daylight[..i]), power, d.duration, factor);
      expected := expected + power * installed * d.duration * factor;
    }
    assert daylight[..|daylight|] == daylight;
  }

  lemma TaughtIsKnown(buckets: map<MonthHour, Learned>, key: MonthHour)
    requires Taught(buckets, key)
    ensures key in buckets
  {}

  lemma NothingYet(clock: Clock, input: Input)
    ensures Yield(clock, input, []) == DaylightHours([]) == Matched(clock, input, [], false) == Matched(clock, input, [], true) == 0.0
  {}

  lemma Steps(clock: Clock, input: Input, daylight: seq<DaylightHour>, i: nat)
    requires i < |daylight|
    ensures var d := daylight[i];
            && Yield(clock, input, daylight[..i + 1]) == Yield(clock, input, daylight[..i]) + HourYield(clock, input, d)
            && DaylightHours(daylight[..i + 1]) == DaylightHours(daylight[..i]) + (if Lit(d) then d.duration else 0.0)
            && forall w :: Matched(clock, input, daylight[..i + 1], w) == Matched(clock, input, daylight[..i], w)
                 + (if Lit(d) && Taught(input.baseline.buckets, clock.bucketOf(d.at)) && (w ==> ReadingFor(clock, input.weather, d.at).Some?)
                    then d.duration else 0.0)
  {
    hide HourYield, Lit, Taught, ReadingFor;
    assert daylight[..i + 1][..i] == daylight[..i];
  }

  method Evaluate(clocks: map<string, Clock>, input: Input) returns (r: Outcome)
    ensures r.Refused? <==> input.timezone == "" || input.timezone == "Local" || input.timezone !in clocks || input.day == ZERO_TIME
    ensures r.Expected? ==>
              var clock := clocks[input.timezone];
              && r.expected == ExpectedOf(clock, input)
              && r.actual == AtLeastZero(input.actual)
              && r.ratio >= 0.0 && (if r.expected > 0.0 then r.ratio * r.expected == r.actual else r.ratio == 0.0)
              && r.modelCoverage == ModelCoverage(clock, input)
              && r.weatherCoverage == WeatherCoverage(clock, input)
              && (r.qualifying <==> input.baseline.qualifyingDays >= 7 && 80.0 <= input.telemetryCoverage <= 100.0)
              && (r.confidence == High <==>
                    && input.baseline.qualifyingDays >= 30 && 90.0 <= input.telemetryCoverage <= 100.0 && r.modelCoverage >= 90.0
                    && input.weather.available && !input.weather.stale && r.weatherCoverage >= 90.0)
              && (r.confidence == Low <==>
                    || !r.qualifying
                    || (input.weather.available && input.weather.stale &&
                        (input.baseline.qualifyingDays < 30 || input.telemetryCoverage < 90.0 || r.modelCoverage < 90.0)))
  {
    hide Yield, DaylightHours, Matched, Percent;
    if input.timezone == "" || input.timezone == "Local" || input.timezone !in clocks { return Refused; }
    if input.day == ZERO_TIME { return Refused; }
    var clock := clocks[input.timezone];
    var actual := AtLeastZero(input.actual);
    var installed := AtLeastZero(input.installed);
    var expected, daylightHours, matched, withWeather := Accumulate(clock, input, installed);
    YieldIsPositive(clock, input, input.daylight);
    ClampIsMin(installed, Yield(clock, input, input.daylight), daylightHours);
    expected := Clamp(expected, 0.0, installed * daylightHours);
    var modelCoverage := Percent(matched, daylightHours);
    var weatherCoverage := Percent(withWeather, matched);
    if input.weather.coverage < weatherCoverage {
      weatherCoverage := input.weather.coverage;
    }
    var confidence, qualifying := AssessConfidence(input, modelCoverage, weatherCoverage);
    var ratio := Ratio(actual, expected);
    r := Expected(expected, actual, ratio, modelCoverage, weatherCoverage, confidence, qualifying);
  }

  function Ratio(actual: real, expected: real): (r: real)
    requires actual >= 0.0
    ensures r >= 0.0 && (if expected > 0.0 then r * expected == actual else r == 0.0)
  {
    if expected > 0.0 then
      var quotient := actual / expected;
      if quotient < 0.0 then 0.0 else quotient
    else 0.0
  }

  lemma ClampIsMin(installed: real, y: real, hours: real)
    requires installed >= 0.0 && y >= 0.0 && hours >= 0.0
    ensures Clamp(installed * y, 0.0, installed * hours) == installed * MinReal(y, hours)
  {
    if y <= hours {
      Larger(installed, y, hours);
    } else {
      Larger(installed, hours, y);
    }
  }

  lemma Larger(x: real, a: real, b: real)
    requires x >= 0.0 && 0.0 <= a <= b
    ensures 0.0 <= x * a <= x * b
  {}

  // ----- bounds

  lemma {:induction false} YieldIsPositive(clock: Clock, input: Input, daylight: seq<DaylightHour>)
    ensures Yield(clock, input, daylight) >= 0.0 && DaylightHours(daylight) >= 0.0
    decreases |daylight|
  {
    hide HourYield;
    if daylight != [] {
      YieldIsPositive(clock, input, daylight[..|daylight| - 1]);
      HourYieldBounds(clock, input, daylight[|daylight| - 1]);
    }
  }

  lemma HourYieldBounds(clock: Clock, input: Input, d: DaylightHour)
    ensures 0.0 <= HourYield(clock, input, d)
  {
    hide ReadingFor;
    if Lit(d) && Taught(input.baseline.buckets, clock.bucketOf(d.at)) {
      var power := Clamp(input.baseline.buckets[clock.bucketOf(d.at)].normalizedPower, 0.0, 1.0);
      Larger(power, 0.0, d.duration);
      Larger(power * d.duration, 0.0, Factor(ReadingFor(clock, input.weather, d.at)));
    }
  }

  lemma {:induction false} MatchedBounds(clock: Clock, input: Input, daylight: seq<DaylightHour>)
    ensures 0.0 <= Matched(clock, input, daylight, true) <= Matched(clock, input, daylight, false) <= DaylightHours(daylight)
    decreases |daylight|
  {
    hide Taught, ReadingFor;
    if daylight != [] {
      MatchedBounds(clock, input, daylight[..|daylight| - 1]);
    }
  }

  lemma Cancelled(a: real, b: real, whole: real)
    requires whole > 0.0 && a * whole <= b * whole
    ensures a <= b
  {}

  lemma PercentBounds(part: real, whole: real)
    requires 0.0 <= part <= whole
    ensures 0.0 <= Percent(part, whole) <= 100.0
  {
    if whole > 0.0 {
      var p := Percent(part, whole);
      assert p * whole == 100.0 * part;
      Cancelled(p, 100.0, whole);
    }
  }

  /**
    Never negative, never more than full power through all daylight. The model coverage is a percentage;
    the weather coverage is at most 100, and negative exactly when the forecast claims a negative one.
   */
  lemma ExpectationIsBounded(clock: Clock, input: Input)
    ensures 0.0 <= ExpectedOf(clock, input) <= AtLeastZero(input.installed) * DaylightHours(input.daylight)
    ensures 0.0 <= ModelCoverage(clock, input) <= 100.0
    ensures WeatherCoverage(clock, input) <= 100.0
    ensures WeatherCoverage(clock, input) < 0.0 <==> input.weather.coverage < 0.0
  {
    hide Yield, DaylightHours, Matched, Percent;
    YieldIsPositive(clock, input, input.daylight);
    var y, hours := Yield(clock, input, input.daylight), DaylightHours(input.daylight);
    Larger(AtLeastZero(input.installed), MinReal(y, hours), hours);
    MatchedBounds(clock, input, input.daylight);
    PercentBounds(Matched(clock, input, input.daylight, false), hours);
    PercentBounds(Matched(clock, input, input.daylight, true), Matched(clock, input, input.daylight, false));
  }

  // ----- more installed or more sun never means less

  /** The expectation per installed watt does not depend on how much is installed, so it grows in proportion. */
  lemma {:induction false} YieldIgnoresInstalled(clock: Clock, input: Input, installed: real, daylight: seq<DaylightHour>)
    ensures Yield(clock, input.(installed := installed), daylight) == Yield(clock, input, daylight)
    decreases |daylight|
  {
    if daylight != [] {
      YieldIgnoresInstalled(clock, input, installed, daylight[..|daylight| - 1]);
    }
  }

  lemma MoreInstalledMoreExpected(clock: Clock, input: Input, more: real)
    requires input.installed <= more
    ensures ExpectedOf(clock, input) <= ExpectedOf(clock, input.(installed := more))
    ensures input.installed > 0.0 ==>
              ExpectedOf(clock, input.(installed := more)) * input.installed == ExpectedOf(clock, input) * more
  {
    hide Yield, DaylightHours;
    YieldIgnoresInstalled(clock, input, more, input.daylight);
    YieldIsPositive(clock, input, input.daylight);
    var m := MinReal(Yield(clock, input, input.daylight), DaylightHours(input.daylight));
    Larger(m, AtLeastZero(input.installed), AtLeastZero(more));
    if input.installed > 0.0 {
      Commute(input.installed, more, m);
    }
  }

  lemma Commute(a: real, b: real, m: real)
    ensures b * m * a == a * m * b
  {
    assert m * a == a * m;
    assert b * (m * a) == (a * m) * b;
  }

  /** The same hours, each with at least as much sun. */
  ghost predicate Sunnier(a: seq<WeatherHour>, b: seq<WeatherHour>) {
    |a| == |b| && forall i :: 0 <= i < |a| ==> a[i].at == b[i].at && a[i].irradiance <= b[i].irradiance
  }

  predicate NoLess(a: Option<real>, b: Option<real>) {
    match a case None => b.None? case Some(x) => b.Some? && x <= b.value
  }

  lemma {:induction false} SunnierReading(clock: Clock, a: seq<WeatherHour>, b: seq<WeatherHour>, key: int)
    requires Sunnier(a, b)
    ensures NoLess(Reading(clock, a, key), Reading(clock, b, key))
    decreases |a|
  {
    if a != [] {
      assert a[|a| - 1].at == b[|b| - 1].at;
      SunnierReading(clock, a[..|a| - 1], b[..|b| - 1], key);
    }
  }

  lemma FactorGrows(a: Option<real>, b: Option<real>)
    requires NoLess(a, b)
    ensures 0.0 <= Factor(a) <= Factor(b)
  {}

  lemma SunnierHour(clock: Clock, input: Input, more: seq<WeatherHour>, d: DaylightHour)
    requires Sunnier(input.weather.hours, more)
    ensures HourYield(clock, input, d) <= HourYield(clock, input.(weather := input.weather.(hours := more)), d)
  {
    hide Factor, Reading, Sunnier;
    if Lit(d) && Taught(input.baseline.buckets, clock.bucketOf(d.at)) {
      var a, b := ReadingFor(clock, input.weather, d.at), ReadingFor(clock, input.weather.(hours := more), d.at);
      SunnierReading(clock, input.weather.hours, more, clock.hourOf(d.at));
      FactorGrows(a, b);
      var power := Clamp(input.baseline.buckets[clock.bucketOf(d.at)].normalizedPower, 0.0, 1.0);
      Larger(power, 0.0, d.duration);
      Larger(power * d.duration, Factor(a), Factor(b));
    }
  }

  lemma {:induction false} SunnierYield(clock: Clock, input: Input, more: seq<WeatherHour>, daylight: seq<DaylightHour>)
    requires Sunnier(input.weather.hours, more)
    ensures Yield(clock, input, daylight) <= Yield(clock, input.(weather := input.weather.(hours := more)), daylight)
    decreases |daylight|
  {
    hide HourYield, Sunnier;
    if daylight != [] {
      SunnierYield(clock, input, more, daylight[..|daylight| - 1]);
      SunnierHour(clock, input, more, daylight[|daylight| - 1]);
    }
  }

  lemma MoreSunMoreExpected(clock: Clock, input: Input, more: seq<WeatherHour>)
    requires Sunnier(input.weather.hours, more)
    ensures ExpectedOf(clock, input) <= ExpectedOf(clock, input.(weather := input.weather.(hours := more)))
  {
    hide Yield, DaylightHours, Sunnier;
    SunnierYield(clock, input, more, input.daylight);
    YieldIsPositive(clock, input, input.daylight);
    var a := Yield(clock, input, input.daylight);
    var b := Yield(clock, input.(weather := input.weather.(hours := more)), input.daylight);
    var hours := DaylightHours(input.daylight);
    Larger(AtLeastZero(input.installed), MinReal(a, hours), MinReal(b, hours));
  }
}
