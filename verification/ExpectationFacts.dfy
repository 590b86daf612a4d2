/** What the day's expectation adds up to, said of the input's own fields. */
module ExpectationFacts {
  import opened Common
  import opened Baseline
  import opened Expectation

  // ----- the reading for an hour

  /** The row at `i` is the last one for this local hour. */
  predicate IsLastFor(clock: Clock, hours: seq<WeatherHour>, key: int, i: int) {
    && 0 <= i < |hours| && hours[i].at != 0 && clock.hourOf(hours[i].at) == key
    && forall j :: i < j < |hours| ==> hours[j].at == 0 || clock.hourOf(hours[j].at) != key
  }

  lemma {:induction false} ReadingIsTheLast(clock: Clock, hours: seq<WeatherHour>, key: int, x: real)
    ensures Reading(clock, hours, key) == Some(x) <==> exists i :: IsLastFor(clock, hours, key, i) && hours[i].irradiance == x
    decreases |hours|
  {
    if hours != [] {
      var n := |hours| - 1;
      ReadingIsTheLast(clock, hours[..n], key, x);
      if hours[n].at != 0 && clock.hourOf(hours[n].at) == key {
        assert IsLastFor(clock, hours, key, n);
        assert forall i :: IsLastFor(clock, hours, key, i) ==> i == n;
      } else {
        assert !IsLastFor(clock, hours, key, n);
        forall i | 0 <= i < n ensures IsLastFor(clock, hours, key, i) <==> IsLastFor(clock, hours[..n], key, i) {
          assert forall j :: 0 <= j < n ==> hours[..n][j] == hours[j];
        }
        assert forall i :: 0 <= i < n ==> hours[..n][i].irradiance == hours[i].irradiance;
      }
    }
  }

  // ----- one daylight hour

  /** A daylight hour for which a bucket has been learned. */
  predicate Learnt(clock: Clock, input: Input, d: DaylightHour) {
    var key := clock.bucketOf(d.at);
    d.duration > 0.0 && d.at != 0 && key in input.baseline.buckets && input.baseline.buckets[key].sampleCount > 0
  }

  function Bounded(x: real, low: real, high: real): real { if x <= low then low else if x >= high then high else x }

  /**
    What an hour is expected to yield for each watt installed: the learned share of it, for its duration; a
    forecast scales that by its irradiance per thousand, by a quarter at least and 1.15 at most.
   */
  function Term(clock: Clock, input: Input): DaylightHour -> real {
    (d: DaylightHour) =>
      if !Learnt(clock, input, d) then 0.0
      else
        var share := Bounded(input.baseline.buckets[clock.bucketOf(d.at)].normalizedPower, 0.0, 1.0);
        var reading := if input.weather.available then Reading(clock, input.weather.hours, clock.hourOf(d.at)) else None;
        share * d.duration * if reading.Some? then Bounded(reading.value / 1000.0, 0.25, 1.15) else 1.0
  }

  function Duration(): DaylightHour -> real { (d: DaylightHour) => if d.duration > 0.0 && d.at != 0 then d.duration else 0.0 }

  function LearntDuration(clock: Clock, input: Input): DaylightHour -> real {
    (d: DaylightHour) => if Learnt(clock, input, d) then d.duration else 0.0
  }

  function ForecastDuration(clock: Clock, input: Input): DaylightHour -> real {
    (d: DaylightHour) =>
      if Learnt(clock, input, d) && input.weather.available && Reading(clock, input.weather.hours, clock.hourOf(d.at)).Some?
      then d.duration else 0.0
  }

  lemma TermIs(clock: Clock, input: Input, d: DaylightHour)
    ensures HourYield(clock, input, d) == Term(clock, input)(d)
  {}

  /** The totals of the day: yield, daylight, and of that the hours learned and the hours with a forecast too. */
  lemma {:induction false} TotalsAre(clock: Clock, input: Input, daylight: seq<DaylightHour>)
    ensures Yield(clock, input, daylight) == SumOver(daylight, Term(clock, input))
    ensures DaylightHours(daylight) == SumOver(daylight, Duration())
    ensures Matched(clock, input, daylight, false) == SumOver(daylight, LearntDuration(clock, input))
    ensures Matched(clock, input, daylight, true) == SumOver(daylight, ForecastDuration(clock, input))
    decreases |daylight|
  {
    hide HourYield, Term;
    if daylight != [] {
      var n := |daylight| - 1;
      TotalsAre(clock, input, daylight[..n]);
      TermIs(clock, input, daylight[n]);
    }
  }

  /**
    The expectation of a day is the installed power times the yield, but no more than full power through all
    daylight; the model's coverage is the learned share of daylight, the weather's the share of that with a
    forecast, or what the forecast claims if that is less.
   */
  lemma ExpectationIs(clock: Clock, input: Input)
    ensures var installed := if input.installed > 0.0 then input.installed else 0.0;
            var yield', daylight := SumOver(input.daylight, Term(clock, input)), SumOver(input.daylight, Duration());
            var learnt, forecast := SumOver(input.daylight, LearntDuration(clock, input)), SumOver(input.daylight, ForecastDuration(clock, input));
            && ExpectedOf(clock, input) == installed * (if yield' < daylight then yield' else daylight)
            && (if daylight > 0.0 then ModelCoverage(clock, input) * daylight == 100.0 * learnt else ModelCoverage(clock, input) == 0.0)
            && LesserPercent(WeatherCoverage(clock, input), input.weather.coverage, forecast, learnt)
  {
    hide Yield, DaylightHours, Matched, SumOver, Term, Duration, LearntDuration, ForecastDuration;
    TotalsAre(clock, input, input.daylight);
    var yield', daylight := Yield(clock, input, input.daylight), DaylightHours(input.daylight);
    var least := if yield' < daylight then yield' else daylight;
    assert MinReal(yield', daylight) == least;
    var learnt, forecast := Matched(clock, input, input.daylight, false), Matched(clock, input, input.daylight, true);
    MatchedBounds(clock, input, input.daylight);
    LesserIs(input.weather.coverage, forecast, learnt);
  }

  /** `x` is the smaller of the two: `claimed`, and `part` of `whole` in percent. */
  predicate LesserPercent(x: real, claimed: real, part: real, whole: real) {
    && (x == claimed || if whole > 0.0 then x * whole == 100.0 * part else x == 0.0)
    && x <= claimed && (if whole > 0.0 then x * whole <= 100.0 * part else x <= 0.0)
  }

  lemma LesserIs(claimed: real, part: real, whole: real)
    ensures LesserPercent(MinReal(claimed, Percent(part, whole)), claimed, part, whole)
  {
    var share := Percent(part, whole);
    if whole > 0.0 {
      assert share * whole == 100.0 * part;
      if claimed < share {
        Smaller(claimed, share, whole);
      }
    }
  }

  lemma Smaller(a: real, b: real, whole: real)
    requires a < b && whole > 0.0
    ensures a * whole <= b * whole
  {}
}
