/** What the baseline is made of, said of the training days' own fields and of sorted arrangements. */
module BaselineFacts {
  import opened Common
  import opened Reorder
  import opened Baseline

  // ----- the median and what is kept around it

  /** The median is the middle of the values in rising order, or halfway between the two in the middle. */
  lemma MedianIsMiddle(values: seq<real>, rising: seq<real>)
    requires multiset(rising) == multiset(values) && forall i, j :: 0 <= i < j < |rising| ==> rising[i] <= rising[j]
    ensures var n := |rising|;
            && (n == 0 ==> Median(values) == 0.0)
            && (n % 2 == 1 ==> Median(values) == rising[(n - 1) / 2])
            && (n % 2 == 0 && n > 0 ==> 2.0 * Median(values) == rising[n / 2 - 1] + rising[n / 2])
  {
    SortSorts(values);
    SortedIsUnique(rising, Sort(values));
  }

  /** How far each value lies from a centre. */
  ghost predicate AreDistances(distances: seq<real>, values: seq<real>, center: real) {
    |distances| == |values| &&
    forall i :: 0 <= i < |values| ==> distances[i] == if values[i] >= center then values[i] - center else center - values[i]
  }

  /** What is kept is every value, as often as it occurs, that is within three median distances of the median. */
  lemma KeptIsNearTheMedian(values: seq<real>, distances: seq<real>, x: real)
    requires AreDistances(distances, values, Median(values))
    ensures var reach := 3.0 * Median(distances);
            multiset(MadClipped(values))[x]
            == if Median(values) - reach <= x <= Median(values) + reach then multiset(values)[x] else 0
  {
    assert distances == Deviations(values, Median(values));
    hide Median, Kept;
    KeptCounts(values, Median(values), Limit(values), x);
  }

  // ----- the samples

  /** A day that counts: covered to 80 percent at least, with installed power. */
  predicate Counts(day: TrainingDay) { 80.0 <= day.coverage <= 100.0 && day.installed > 0.0 }

  /** The hours of a day that give a sample for a bucket. */
  function HoursFor(clock: int -> MonthHour, hours: seq<PowerHour>, key: MonthHour): set<nat> {
    set j: nat | j < |hours| && hours[j].at != 0 && hours[j].power >= 0.0 && clock(hours[j].at) == key
  }

  /** The part of the installed power an hour shows, one at most. */
  function Share(power: real, installed: real): real
    requires installed > 0.0
  {
    if power >= installed then 1.0 else power / installed
  }

  lemma ShareIsNormalized(hour: PowerHour, installed: real)
    requires installed > 0.0 && hour.power >= 0.0
    ensures Normalized(hour, installed) == Share(hour.power, installed)
  {
    var q := hour.power / installed;
    assert q * installed == hour.power;
    if hour.power >= installed {
      assert q >= 1.0;
    } else {
      assert 0.0 <= q < 1.0;
    }
  }

  /** A day's samples for a bucket: the shares of its hours, one for each. */
  lemma {:induction false} HourSamplesAre(clock: int -> MonthHour, installed: real, hours: seq<PowerHour>, key: MonthHour, x: real)
    requires installed > 0.0
    ensures |HourSamples(clock, installed, hours, key)| == |HoursFor(clock, hours, key)|
    ensures x in HourSamples(clock, installed, hours, key) <==>
              exists j :: j in HoursFor(clock, hours, key) && x == Share(hours[j].power, installed)
    decreases |hours|
  {
    hide Normalized, Share;
    if hours != [] {
      var n: nat := |hours| - 1;
      HourSamplesAre(clock, installed, hours[..n], key, x);
      var fewer, all := HoursFor(clock, hours[..n], key), HoursFor(clock, hours, key);
      assert n !in fewer && all - {n} == fewer;
      assert n in all ==> |all - {n}| == |all| - 1;
      if n in all {
        ShareIsNormalized(hours[n], installed);
      }
      forall j | j in fewer ensures j in all && hours[j] == hours[..n][j] {}
      assert forall j :: j in all ==> j == n || j in fewer;
    }
  }

  /** The samples of a bucket are those of the days that count, one day after the other. */
  lemma SamplesAre(zones: Zones, days: seq<TrainingDay>, day: TrainingDay, key: MonthHour)
    ensures Samples(zones, [], key) == []
    ensures Samples(zones, days + [day], key)
            == Samples(zones, days, key)
               + if Counts(day) && day.timezone in zones then HourSamples(zones[day.timezone], day.installed, day.hours, key) else []
  {
    hide HourSamples;
    SamplesAppend(zones, days, day, key);
  }

  function Counting(days: seq<TrainingDay>): set<nat> { set i: nat | i < |days| && Counts(days[i]) }

  lemma {:induction false} QualifyingDaysAreCounted(days: seq<TrainingDay>)
    ensures QualifyingDays(days) == |Counting(days)|
    decreases |days|
  {
    if days != [] {
      var n: nat := |days| - 1;
      QualifyingDaysAreCounted(days[..n]);
      var fewer, all := Counting(days[..n]), Counting(days);
      assert n !in fewer && all - {n} == fewer;
      assert n in all ==> |all - {n}| == |all| - 1;
    }
  }

  /**
    Building fails if and only if some day has no zone, the host's, an unknown one or another than the
    first, or no date. Otherwise a bucket is there if and only if it has a sample, and holds the median
    and the number of those kept.
   */
  lemma BuiltIs(zones: Zones, days: seq<TrainingDay>, r: Result)
    requires IsBuiltFrom(zones, days, r)
    ensures r.Rejected? <==> exists i :: 0 <= i < |days| && Unusable(zones, days, i)
    ensures r.Built? ==>
              && r.baseline.qualifyingDays == |Counting(days)|
              && forall key ::
                   && (key in r.baseline.buckets <==> |Samples(zones, days, key)| > 0)
                   && (key in r.baseline.buckets ==>
                         var kept := MadClipped(Samples(zones, days, key));
                         r.baseline.buckets[key] == Learned(Median(kept), |kept|))
  {
    hide Samples, QualifyingDays, Median, MadClipped, Counting;
    QualifyingDaysAreCounted(days);
    if r.Rejected? {
      var i :| 0 <= i < |days| && !Acceptable(zones, days[i], days[0].timezone);
      assert Unusable(zones, days, i);
    } else {
      forall i | 0 <= i < |days| ensures !Unusable(zones, days, i) {
        assert Acceptable(zones, days[i], days[0].timezone);
      }
    }
  }

  predicate Unusable(zones: Zones, days: seq<TrainingDay>, i: nat)
    requires i < |days|
  {
    var zone := days[i].timezone;
    zone == "" || zone == "Local" || zone !in zones || zone != days[0].timezone || days[i].day == 0
  }
}
