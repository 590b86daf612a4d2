/**
  The learned production baseline (`internal/analysis/baseline.go`): samples per month and local
  hour, outliers clipped by median absolute deviation, the median of what is kept. Powers are reals.
 */
module Baseline {
  import opened Common
  import opened Reorder

  const QUALIFYING_COVERAGE: real := 80.0

  /** The key of a bucket: a month and an hour of the local day. */
  datatype MonthHour = MonthHour(month: int, hour: int)

  datatype PowerHour = PowerHour(at: int, power: real)

  datatype TrainingDay = TrainingDay(timezone: string, day: int, coverage: real, installed: real, hours: seq<PowerHour>)

  datatype Learned = Learned(normalizedPower: real, sampleCount: nat)

  datatype Baseline = Baseline(qualifyingDays: nat, buckets: map<MonthHour, Learned>)

  datatype Result = Built(baseline: Baseline) | Rejected

  function Abs(x: real): real { if x < 0.0 then -x else x }

  function Clamp(value: real, low: real, high: real): real {
    if value < low then low else if value > high then high else value
  }

  // ----- median

  function Insert(s: seq<real>, x: real): seq<real> {
    if s == [] || s[|s| - 1] <= x then s + [x] else Insert(s[..|s| - 1], x) + [s[|s| - 1]]
  }

  function Sort(s: seq<real>): seq<real> {
    if s == [] then [] else Insert(Sort(s[..|s| - 1]), s[|s| - 1])
  }

  ghost predicate Sorted(s: seq<real>) { forall i, j :: 0 <= i < j < |s| ==> s[i] <= s[j] }

  ghost predicate Below(s: seq<real>, high: real) { forall i :: 0 <= i < |s| ==> s[i] <= high }

  lemma {:induction false} InsertAdds(s: seq<real>, x: real)
    ensures multiset(Insert(s, x)) == multiset(s) + multiset{x}
    decreases |s|
  {
    if s != [] && s[|s| - 1] > x {
      InsertAdds(s[..|s| - 1], x);
      assert s == s[..|s| - 1] + [s[|s| - 1]];
    }
  }

  lemma {:induction false} InsertBelow(s: seq<real>, x: real, high: real)
    requires Below(s, high) && x <= high
    ensures Below(Insert(s, x), high)
    decreases |s|
  {
    if s != [] && s[|s| - 1] > x {
      InsertBelow(s[..|s| - 1], x, high);
    }
  }

  lemma SortedAppend(s: seq<real>, x: real)
    requires Sorted(s) && Below(s, x)
    ensures Sorted(s + [x])
  {}

  lemma SortedSplit(s: seq<real>)
    requires Sorted(s) && s != []
    ensures Sorted(s[..|s| - 1]) && Below(s[..|s| - 1], s[|s| - 1]) && Below(s, s[|s| - 1])
  {}

  lemma {:induction false} InsertSorts(s: seq<real>, x: real)
    requires Sorted(s)
    ensures Sorted(Insert(s, x))
    decreases |s|
  {
    if s == [] {
      assert Insert(s, x) == [x];
    } else {
      var n := |s| - 1;
      SortedSplit(s);
      if s[n] > x {
        InsertSorts(s[..n], x);
        InsertBelow(s[..n], x, s[n]);
        hide Sorted, Below;
        SortedAppend(Insert(s[..n], x), s[n]);
      } else {
        assert Below(s, x);
        hide Sorted, Below;
        SortedAppend(s, x);
      }
    }
  }

  lemma {:induction false} SortSorts(s: seq<real>)
    ensures Sorted(Sort(s)) && multiset(Sort(s)) == multiset(s) && |Sort(s)| == |s|
    decreases |s|
  {
    hide Sorted;
    if s == [] {
      NoneSorted();
    } else {
      var n := |s| - 1;
      SortSorts(s[..n]);
      InsertSorts(Sort(s[..n]), s[n]);
      InsertAdds(Sort(s[..n]), s[n]);
      assert s == s[..n] + [s[n]];
    }
    SameSize(Sort(s), s);
  }

  lemma SameSize<T>(a: seq<T>, b: seq<T>)
    requires multiset(a) == multiset(b)
    ensures |a| == |b|
  {
    assert |multiset(a)| == |a| && |multiset(b)| == |b|;
  }

  lemma NoneSorted()
    ensures Sorted([])
  {}

  lemma LargestLast(a: seq<real>, b: seq<real>)
    requires multiset(a) == multiset(b) && a != [] && Sorted(b)
    ensures b != [] && a[|a| - 1] <= b[|b| - 1]
  {
    var i := LastIsSomewhere(a, b);
    SortedSplit(b);
  }

  /** A multiset has one sorted arrangement. */
  lemma {:induction false} SortedIsUnique(a: seq<real>, b: seq<real>)
    requires Sorted(a) && Sorted(b) && multiset(a) == multiset(b)
    ensures a == b
    decreases |a|
  {
    SameSize(a, b);
    if a != [] {
      var n := |a| - 1;
      LargestLast(a, b);
      LargestLast(b, a);
      LastTakenOut(a);
      LastTakenOut(b);
      SameRest(multiset(a[..n]), multiset(b[..n]), a[n]);
      SortedSplit(a);
      SortedSplit(b);
      SortedIsUnique(a[..n], b[..n]);
      hide Sorted;
      assert a == a[..n] + [a[n]] && b == b[..n] + [b[n]];
    }
  }

  function Middle(sorted: seq<real>): real {
    var mid := |sorted| / 2;
    if sorted == [] then 0.0
    else if |sorted| % 2 == 1 then sorted[mid]
    else (sorted[mid - 1] + sorted[mid]) / 2.0
  }

  function Median(values: seq<real>): real { Middle(Sort(values)) }

  lemma MedianAnyOrder(a: seq<real>, b: seq<real>)
    requires multiset(a) == multiset(b)
    ensures Median(a) == Median(b)
  {
    SortSorts(a);
    SortSorts(b);
    SortedIsUnique(Sort(a), Sort(b));
  }

  lemma SortedHasAll(s: seq<real>, i: nat)
    requires i < |Sort(s)|
    ensures Sort(s)[i] in s
  {
    SortSorts(s);
    assert Sort(s)[i] in multiset(Sort(s));
  }

  /** The median lies between any bounds of the values. */
  lemma MedianInRange(values: seq<real>, low: real, high: real)
    requires values != [] && forall i :: 0 <= i < |values| ==> low <= values[i] <= high
    ensures low <= Median(values) <= high
  {
    SortSorts(values);
    var mid := |values| / 2;
    SortedHasAll(values, mid);
    if |values| % 2 == 0 {
      SortedHasAll(values, mid - 1);
    }
  }

  // ----- clipping

  function AtMost(s: seq<real>, limit: real): seq<real> {
    if s == [] then [] else AtMost(s[..|s| - 1], limit) + if s[|s| - 1] <= limit then [s[|s| - 1]] else []
  }

  lemma {:induction false} AtMostCounts(s: seq<real>, limit: real, x: real)
    ensures multiset(AtMost(s, limit))[x] == if x <= limit then multiset(s)[x] else 0
    decreases |s|
  {
    if s != [] {
      AtMostCounts(s[..|s| - 1], limit, x);
      assert s == s[..|s| - 1] + [s[|s| - 1]];
    }
  }

  lemma AtMostAnyOrder(a: seq<real>, b: seq<real>, limit: real)
    requires multiset(a) == multiset(b)
    ensures multiset(AtMost(a, limit)) == multiset(AtMost(b, limit))
    ensures |AtMost(a, limit)| == |AtMost(b, limit)|
  {
    forall x ensures multiset(AtMost(a, limit))[x] == multiset(AtMost(b, limit))[x] {
      AtMostCounts(a, limit, x);
      AtMostCounts(b, limit, x);
    }
    assert multiset(AtMost(a, limit)) == multiset(AtMost(b, limit));
    assert |multiset(AtMost(a, limit))| == |AtMost(a, limit)| && |multiset(AtMost(b, limit))| == |AtMost(b, limit)|;
  }

  lemma {:induction false} PrefixAtMost(s: seq<real>, n: nat, limit: real)
    requires n <= |s| && forall i :: 0 <= i < n ==> s[i] <= limit
    ensures |AtMost(s, limit)| >= n
    decreases |s|
  {
    if s != [] {
      var k := |s| - 1;
      PrefixAtMost(s[..k], if n <= k then n else k, limit);
    }
  }

  /** At least half of the values are no larger than the median. */
  lemma HalfAtMostMedian(values: seq<real>)
    requires values != []
    ensures 2 * |AtMost(values, Median(values))| >= |values|
  {
    var sorted, m, mid := Sort(values), Median(values), |values| / 2;
    SortSorts(values);
    var n := if |values| % 2 == 1 then mid + 1 else mid;
    forall i | 0 <= i < n ensures sorted[i] <= m {
      assert i < mid ==> sorted[i] <= sorted[mid];
      assert 0 < mid && i < mid - 1 ==> sorted[i] <= sorted[mid - 1];
    }
    PrefixAtMost(sorted, n, m);
    AtMostAnyOrder(sorted, values, m);
  }

  function Deviations(values: seq<real>, center: real): (r: seq<real>)
    ensures |r| == |values| && forall i :: 0 <= i < |values| ==> r[i] == Abs(values[i] - center)
  {
    seq(|values|, i requires 0 <= i < |values| => Abs(values[i] - center))
  }

  function Limit(values: seq<real>): real { 3.0 * Median(Deviations(values, Median(values))) }

  function Kept(values: seq<real>, center: real, limit: real): seq<real> {
    if values == [] then []
    else Kept(values[..|values| - 1], center, limit)
         + if Abs(values[|values| - 1] - center) <= limit then [values[|values| - 1]] else []
  }

  function MadClipped(values: seq<real>): seq<real> { Kept(values, Median(values), Limit(values)) }

  method MadClip(values: seq<real>) returns (kept: seq<real>)
    ensures kept == MadClipped(values)
  {
    hide Median, Abs;
    var center := Median(values);
    var deviations := [];
    for i := 0 to |values|
      invariant deviations == Deviations(values[..i], center)
    {
      deviations := deviations + [Abs(values[i] - center)];
    }
    assert values[..|values|] == values;
    var limit := 3.0 * Median(deviations);
    kept := [];
    for i := 0 to |values|
      invariant kept == Kept(values[..i], center, limit)
    {
      assert values[..i + 1][..i] == values[..i];
      if Abs(values[i] - center) <= limit {
        kept := kept + [values[i]];
      }
    }
  }

  lemma {:induction false} KeptAreClose(values: seq<real>, center: real, limit: real)
    ensures |Kept(values, center, limit)| == |AtMost(Deviations(values, center), limit)|
    ensures forall i :: 0 <= i < |Kept(values, center, limit)| ==> Kept(values, center, limit)[i] in values
    decreases |values|
  {
    if values != [] {
      var n := |values| - 1;
      KeptAreClose(values[..n], center, limit);
      assert Deviations(values, center)[..n] == Deviations(values[..n], center);
    }
  }

  lemma {:induction false} LooserKeepsMore(s: seq<real>, tight: real, loose: real)
    requires tight <= loose
    ensures |AtMost(s, tight)| <= |AtMost(s, loose)|
    decreases |s|
  {
    if s != [] {
      LooserKeepsMore(s[..|s| - 1], tight, loose);
    }
  }

  lemma SomeBound(values: seq<real>) returns (high: real)
    ensures forall i :: 0 <= i < |values| ==> values[i] <= high
  {
    high := 0.0;
    for i := 0 to |values|
      invariant forall j :: 0 <= j < i ==> values[j] <= high
    {
      if values[i] > high { high := values[i]; }
    }
  }

  lemma MadIsPositive(values: seq<real>, center: real)
    requires values != []
    ensures Median(Deviations(values, center)) >= 0.0
  {
    var deviations := Deviations(values, center);
    var high := SomeBound(deviations);
    hide Median;
    MedianInRange(deviations, 0.0, high);
  }

  /** Clipping keeps at least half of the samples, all of them from the input: no bucket vanishes. */
  lemma ClippingKeepsHalf(values: seq<real>)
    requires values != []
    ensures 2 * |MadClipped(values)| >= |values| && MadClipped(values) != []
    ensures forall i :: 0 <= i < |MadClipped(values)| ==> MadClipped(values)[i] in values
  {
    hide Median, Kept, AtMost, Abs;
    var center := Median(values);
    var deviations := Deviations(values, center);
    var mad := Median(deviations);
    HalfAtMostMedian(deviations);
    MadIsPositive(values, center);
    LooserKeepsMore(deviations, mad, 3.0 * mad);
    KeptAreClose(values, center, 3.0 * mad);
  }

  // ----- the order of samples does not matter

  lemma DeviationsInit(s: seq<real>, center: real)
    requires s != []
    ensures Deviations(s, center)[..|s| - 1] == Deviations(s[..|s| - 1], center)
  {}

  lemma DeviationsWithout(s: seq<real>, i: nat, center: real)
    requires i < |s|
    ensures Deviations(s, center)[..i] + Deviations(s, center)[i + 1..] == Deviations(s[..i] + s[i + 1..], center)
  {
    hide Abs;
  }

  lemma {:induction false} DeviationsAnyOrder(a: seq<real>, b: seq<real>, center: real)
    requires multiset(a) == multiset(b)
    ensures multiset(Deviations(a, center)) == multiset(Deviations(b, center))
    decreases |a|
  {
    hide Deviations;
    if a == [] {
      NothingRearranged(b);
    } else {
      var i := LastIsSomewhere(a, b);
      DeviationsAnyOrder(a[..|a| - 1], b[..i] + b[i + 1..], center);
      DeviationsInit(a, center);
      DeviationsWithout(b, i, center);
      LastTakenOut(Deviations(a, center));
      TakenOut(Deviations(b, center), i);
    }
  }

  lemma {:induction false} KeptCounts(s: seq<real>, center: real, limit: real, x: real)
    ensures multiset(Kept(s, center, limit))[x] == if Abs(x - center) <= limit then multiset(s)[x] else 0
    decreases |s|
  {
    hide Abs;
    if s != [] {
      var n := |s| - 1;
      KeptCounts(s[..n], center, limit, x);
      LastTakenOut(s);
      var before, all := Kept(s[..n], center, limit), Kept(s, center, limit);
      if Abs(s[n] - center) <= limit {
        assert multiset(all) == multiset(before) + multiset{s[n]};
      } else {
        assert all == before;
      }
    }
  }

  function LearnedFrom(samples: seq<real>): Learned {
    Learned(Median(MadClipped(samples)), |MadClipped(samples)|)
  }

  lemma KeptAnyOrder(a: seq<real>, b: seq<real>, center: real, limit: real)
    requires multiset(a) == multiset(b)
    ensures multiset(Kept(a, center, limit)) == multiset(Kept(b, center, limit))
  {
    hide Abs;
    var x, y := multiset(Kept(a, center, limit)), multiset(Kept(b, center, limit));
    forall e ensures x[e] == y[e] {
      KeptCounts(a, center, limit, e);
      KeptCounts(b, center, limit, e);
    }
    assert x == y;
  }

  lemma LearnedAnyOrder(a: seq<real>, b: seq<real>)
    requires multiset(a) == multiset(b)
    ensures LearnedFrom(a) == LearnedFrom(b)
  {
    hide Median, Kept;
    MedianAnyOrder(a, b);
    var center := Median(a);
    DeviationsAnyOrder(a, b, center);
    MedianAnyOrder(Deviations(a, center), Deviations(b, center));
    KeptAnyOrder(a, b, center, Limit(a));
    MedianAnyOrder(MadClipped(a), MadClipped(b));
    SameSize(MadClipped(a), MadClipped(b));
  }

  // ----- collecting the samples

  /** The zones that can be loaded, each with the month and hour its clock shows. */
  type Zones = map<string, int -> MonthHour>

  predicate Configured(zones: Zones, name: string) { name != "" && name != "Local" && name in zones }

  predicate Acceptable(zones: Zones, day: TrainingDay, timezone: string) {
    Configured(zones, day.timezone) && day.timezone == timezone && day.day != ZERO_TIME
  }

  predicate Qualifies(day: TrainingDay) {
    0.0 <= day.coverage <= 100.0 && day.coverage >= QUALIFYING_COVERAGE && day.installed > 0.0
  }

  predicate Usable(hour: PowerHour) { hour.at != ZERO_TIME && hour.power >= 0.0 }

  function Normalized(hour: PowerHour, installed: real): real
    requires installed > 0.0
  {
    Clamp(hour.power / installed, 0.0, 1.0)
  }

  function HourSamples(clock: int -> MonthHour, installed: real, hours: seq<PowerHour>, key: MonthHour): seq<real>
    requires installed > 0.0
  {
    if hours == [] then []
    else
      var n := |hours| - 1;
      HourSamples(clock, installed, hours[..n], key)
      + if Usable(hours[n]) && clock(hours[n].at) == key then [Normalized(hours[n], installed)] else []
  }

  function DaySamples(zones: Zones, day: TrainingDay, key: MonthHour): seq<real> {
    if Qualifies(day) && day.timezone in zones then HourSamples(zones[day.timezone], day.installed, day.hours, key) else []
  }

  function Samples(zones: Zones, days: seq<TrainingDay>, key: MonthHour): seq<real> {
    if days == [] then []
    else Samples(zones, days[..|days| - 1], key) + DaySamples(zones, days[|days| - 1], key)
  }

  function QualifyingDays(days: seq<TrainingDay>): nat {
    if days == [] then 0 else QualifyingDays(days[..|days| - 1]) + if Qualifies(days[|days| - 1]) then 1 else 0
  }

  predicate AllAcceptable(zones: Zones, days: seq<TrainingDay>) {
    forall i :: 0 <= i < |days| ==> Acceptable(zones, days[i], days[0].timezone)
  }

  /** What building must yield. */
  ghost predicate IsBuiltFrom(zones: Zones, days: seq<TrainingDay>, r: Result) {
    match r
    case Rejected => !AllAcceptable(zones, days)
    case Built(b) =>
      && AllAcceptable(zones, days)
      && b.qualifyingDays == QualifyingDays(days)
      && (forall key :: key in b.buckets <==> Samples(zones, days, key) != [])
      && (forall key :: key in b.buckets ==> b.buckets[key] == LearnedFrom(Samples(zones, days, key)))
  }

  function SamplesAt(values: map<MonthHour, seq<real>>, key: MonthHour): seq<real> {
    if key in values then values[key] else []
  }

  function WithSample(clock: int -> MonthHour, installed: real, hour: PowerHour, values: map<MonthHour, seq<real>>): map<MonthHour, seq<real>>
    requires installed > 0.0
  {
    if Usable(hour)
    then values[clock(hour.at) := SamplesAt(values, clock(hour.at)) + [Normalized(hour, installed)]]
    else values
  }

  ghost predicate Extends(clock: int -> MonthHour, installed: real, hours: seq<PowerHour>,
                          before: map<MonthHour, seq<real>>, values: map<MonthHour, seq<real>>)
    requires installed > 0.0
  {
    forall key :: SamplesAt(values, key) == SamplesAt(before, key) + HourSamples(clock, installed, hours, key)
  }

  lemma SampleExtends(clock: int -> MonthHour, installed: real, hours: seq<PowerHour>, i: nat,
                      before: map<MonthHour, seq<real>>, values: map<MonthHour, seq<real>>)
    requires installed > 0.0 && i < |hours| && Extends(clock, installed, hours[..i], before, values)
    ensures Extends(clock, installed, hours[..i + 1], before, WithSample(clock, installed, hours[i], values))
  {
    hide Usable, Normalized, HourSamples;
    var more := WithSample(clock, installed, hours[i], values);
    forall key ensures SamplesAt(more, key) == SamplesAt(before, key) + HourSamples(clock, installed, hours[..i + 1], key) {
      HourSamplesStep(clock, installed, hours, i, key);
    }
  }

  method AddDay(clock: int -> MonthHour, day: TrainingDay, before: map<MonthHour, seq<real>>) returns (values: map<MonthHour, seq<real>>)
    requires day.installed > 0.0 && forall key :: key in before ==> before[key] != []
    ensures forall key :: key in values ==> values[key] != []
    ensures forall key :: SamplesAt(values, key) == SamplesAt(before, key) + HourSamples(clock, day.installed, day.hours, key)
  {
    values := before;
    NoHourSamples(clock, day.installed, before);
    hide Normalized, Usable, HourSamples, Extends;
    for i := 0 to |day.hours|
      invariant forall key :: key in values ==> values[key] != []
      invariant Extends(clock, day.installed, day.hours[..i], before, values)
    {
      SampleExtends(clock, day.installed, day.hours, i, before, values);
      var hour := day.hours[i];
      if Usable(hour) {
        var key := clock(hour.at);
        values := values[key := SamplesAt(values, key) + [Normalized(hour, day.installed)]];
      }
    }
    assert day.hours[..|day.hours|] == day.hours;
    ExtendsMeans(clock, day.installed, day.hours, before, values);
  }

  lemma ExtendsMeans(clock: int -> MonthHour, installed: real, hours: seq<PowerHour>,
                     before: map<MonthHour, seq<real>>, values: map<MonthHour, seq<real>>)
    requires installed > 0.0 && Extends(clock, installed, hours, before, values)
    ensures forall key :: SamplesAt(values, key) == SamplesAt(before, key) + HourSamples(clock, installed, hours, key)
  {}

  lemma NoHourSamples(clock: int -> MonthHour, installed: real, values: map<MonthHour, seq<real>>)
    requires installed > 0.0
    ensures Extends(clock, installed, [], values, values)
  {}

  lemma HourSamplesStep(clock: int -> MonthHour, installed: real, hours: seq<PowerHour>, i: nat, key: MonthHour)
    requires installed > 0.0 && i < |hours|
    ensures HourSamples(clock, installed, hours[..i + 1], key)
            == HourSamples(clock, installed, hours[..i], key)
               + if Usable(hours[i]) && clock(hours[i].at) == key then [Normalized(hours[i], installed)] else []
  {
    hide Usable, Normalized;
    assert hours[..i + 1][..i] == hours[..i];
  }

  method CollectSamples(zones: Zones, days: seq<TrainingDay>) returns (ok: bool, values: map<MonthHour, seq<real>>, qualifying: nat)
    ensures ok <==> AllAcceptable(zones, days)
    ensures ok ==> qualifying == QualifyingDays(days)
    ensures ok ==> forall key :: key in values ==> values[key] != []
    ensures ok ==> forall key :: SamplesAt(values, key) == Samples(zones, days, key)
  {
    hide HourSamples, Qualifies;
    values, qualifying := map[], 0;
    var timezone := "";
    for i := 0 to |days|
      invariant timezone == if i == 0 then "" else days[0].timezone
      invariant forall j :: 0 <= j < i ==> Acceptable(zones, days[j], days[0].timezone)
      invariant qualifying == QualifyingDays(days[..i])
      invariant forall key :: key in values ==> values[key] != []
      invariant forall key :: SamplesAt(values, key) == Samples(zones, days[..i], key)
    {
      var day := days[i];
      assert days[..i + 1][..i] == days[..i];
      if !Configured(zones, day.timezone) { return false, values, qualifying; }
      if timezone == "" {
        timezone := day.timezone;
      } else if timezone != day.timezone {
        return false, values, qualifying;
      }
      if day.day == ZERO_TIME { return false, values, qualifying; }
      if Qualifies(day) {
        QualifiedIsInstalled(day);
        qualifying := qualifying + 1;
        values := AddDay(zones[day.timezone], day, values);
      }
    }
    assert days[..|days|] == days;
    ok := true;
  }

  lemma QualifiedIsInstalled(day: TrainingDay)
    requires Qualifies(day)
    ensures day.installed > 0.0
  {}

  method BuildBaseline(zones: Zones, days: seq<TrainingDay>) returns (r: Result)
    ensures IsBuiltFrom(zones, days, r)
  {
    hide Samples, QualifyingDays, AllAcceptable, Median, MadClipped;
    var ok, values, qualifying := CollectSamples(zones, days);
    if !ok { return Rejected; }
    var buckets: map<MonthHour, Learned> := map[];
    var keys := values.Keys;
    while keys != {}
      invariant keys <= values.Keys
      invariant forall key :: key in buckets <==> key in values && key !in keys
      invariant forall key :: key in buckets ==> buckets[key] == LearnedFrom(values[key])
      decreases |keys|
    {
      ghost var _ := Inhabited(keys);
      var key :| key in keys;
      keys := keys - {key};
      var kept := MadClip(values[key]);
      ClippingKeepsHalf(values[key]);
      if |kept| == 0 { continue; }
      buckets := buckets[key := Learned(Median(kept), |kept|)];
    }
    forall key ensures key in values <==> Samples(zones, days, key) != []
               ensures key in values ==> values[key] == Samples(zones, days, key)
    {
      assert SamplesAt(values, key) == Samples(zones, days, key);
    }
    r := Built(Baseline(qualifying, buckets));
  }

  // ----- what is learned

  lemma {:induction false} HourSamplesInRange(clock: int -> MonthHour, installed: real, hours: seq<PowerHour>, key: MonthHour)
    requires installed > 0.0
    ensures forall i :: 0 <= i < |HourSamples(clock, installed, hours, key)| ==>
              0.0 <= HourSamples(clock, installed, hours, key)[i] <= 1.0
    decreases |hours|
  {
    if hours != [] {
      HourSamplesInRange(clock, installed, hours[..|hours| - 1], key);
    }
  }

  lemma {:induction false} SamplesInRange(zones: Zones, days: seq<TrainingDay>, key: MonthHour)
    ensures forall i :: 0 <= i < |Samples(zones, days, key)| ==> 0.0 <= Samples(zones, days, key)[i] <= 1.0
    decreases |days|
  {
    hide HourSamples;
    if days != [] {
      var day := days[|days| - 1];
      SamplesInRange(zones, days[..|days| - 1], key);
      if Qualifies(day) && day.timezone in zones {
        HourSamplesInRange(zones[day.timezone], day.installed, day.hours, key);
      }
    }
  }

  predicate Within(samples: seq<real>, low: real, high: real) {
    forall i :: 0 <= i < |samples| ==> low <= samples[i] <= high
  }

  /**
    What a bucket learns from its samples lies in [0, 1] and between any bounds of the samples, and
    counts at least half of them.
   */
  lemma LearnedIsBounded(zones: Zones, days: seq<TrainingDay>, key: MonthHour, low: real, high: real)
    requires Samples(zones, days, key) != [] && Within(Samples(zones, days, key), low, high)
    ensures var samples := Samples(zones, days, key);
            var learned := LearnedFrom(samples);
            && 0.0 <= learned.normalizedPower <= 1.0 && low <= learned.normalizedPower <= high
            && |samples| <= 2 * learned.sampleCount <= 2 * |samples|
  {
    hide Median, Samples, MadClipped;
    var samples := Samples(zones, days, key);
    SamplesInRange(zones, days, key);
    ClippingKeepsHalf(samples);
    ClippedIsShorter(samples);
    MedianInRange(MadClipped(samples), low, high);
    MedianInRange(MadClipped(samples), 0.0, 1.0);
  }

  lemma {:induction false} KeptIsShorter(values: seq<real>, center: real, limit: real)
    ensures |Kept(values, center, limit)| <= |values|
    decreases |values|
  {
    if values != [] {
      KeptIsShorter(values[..|values| - 1], center, limit);
    }
  }

  lemma ClippedIsShorter(values: seq<real>)
    ensures |MadClipped(values)| <= |values|
  {
    KeptIsShorter(values, Median(values), Limit(values));
  }

  lemma SamplesAppend(zones: Zones, days: seq<TrainingDay>, day: TrainingDay, key: MonthHour)
    ensures Samples(zones, days + [day], key) == Samples(zones, days, key) + DaySamples(zones, day, key)
    ensures QualifyingDays(days + [day]) == QualifyingDays(days) + if Qualifies(day) then 1 else 0
  {
    hide DaySamples, Qualifies;
    assert (days + [day])[..|days|] == days;
  }

  lemma {:induction false} SamplesMove(zones: Zones, days: seq<TrainingDay>, i: nat, key: MonthHour)
    requires i < |days|
    ensures multiset(Samples(zones, days, key))
            == multiset(Samples(zones, days[..i] + days[i + 1..], key)) + multiset(DaySamples(zones, days[i], key))
    ensures QualifyingDays(days) == QualifyingDays(days[..i] + days[i + 1..]) + if Qualifies(days[i]) then 1 else 0
    decreases |days|
  {
    hide DaySamples, Qualifies, Samples, QualifyingDays;
    var n := |days| - 1;
    assert days == days[..n] + [days[n]];
    SamplesAppend(zones, days[..n], days[n], key);
    if i < n {
      SamplesMove(zones, days[..n], i, key);
      var middle := days[..n][..i] + days[..n][i + 1..];
      assert days[..i] + days[i + 1..] == middle + [days[n]];
      SamplesAppend(zones, middle, days[n], key);
      Swap(multiset(Samples(zones, middle, key)), multiset(DaySamples(zones, days[i], key)),
           multiset(DaySamples(zones, days[n], key)));
    } else {
      assert days[..i] + days[i + 1..] == days[..n];
    }
  }

  lemma Swap(a: multiset<real>, b: multiset<real>, c: multiset<real>)
    ensures a + b + c == a + c + b
  {}

  lemma {:induction false} SamplesAnyOrder(zones: Zones, a: seq<TrainingDay>, b: seq<TrainingDay>, key: MonthHour)
    requires multiset(a) == multiset(b)
    ensures multiset(Samples(zones, a, key)) == multiset(Samples(zones, b, key))
    ensures QualifyingDays(a) == QualifyingDays(b)
    decreases |a|
  {
    hide DaySamples, Qualifies;
    if a == [] {
      NothingRearranged(b);
    } else {
      var i := LastIsSomewhere(a, b);
      SamplesAnyOrder(zones, a[..|a| - 1], b[..i] + b[i + 1..], key);
      SamplesMove(zones, b, i, key);
    }
  }

  lemma AcceptableAnyOrder(zones: Zones, a: seq<TrainingDay>, b: seq<TrainingDay>)
    requires multiset(a) == multiset(b) && AllAcceptable(zones, a)
    ensures AllAcceptable(zones, b)
  {
    if b != [] {
      assert b[0] in multiset(a);
      var k :| 0 <= k < |a| && a[k] == b[0];
      assert Acceptable(zones, a[k], a[0].timezone);
      forall i | 0 <= i < |b| ensures Acceptable(zones, b[i], b[0].timezone) {
        assert b[i] in multiset(a);
        var j :| 0 <= j < |a| && a[j] == b[i];
        assert Acceptable(zones, a[j], a[0].timezone);
      }
    }
  }

  /** The baseline does not depend on the order of the training days. */
  lemma BaselineAnyOrder(zones: Zones, a: seq<TrainingDay>, b: seq<TrainingDay>, r: Result)
    requires multiset(a) == multiset(b) && IsBuiltFrom(zones, a, r)
    ensures IsBuiltFrom(zones, b, r)
  {
    hide Samples, QualifyingDays, AllAcceptable, LearnedFrom;
    if AllAcceptable(zones, a) {
      AcceptableAnyOrder(zones, a, b);
    }
    if AllAcceptable(zones, b) {
      AcceptableAnyOrder(zones, b, a);
    }
    SamplesAnyOrder(zones, a, b, MonthHour(0, 0));
    forall key ensures Samples(zones, a, key) == [] <==> Samples(zones, b, key) == []
               ensures LearnedFrom(Samples(zones, a, key)) == LearnedFrom(Samples(zones, b, key))
    {
      SamplesAnyOrder(zones, a, b, key);
      LearnedAnyOrder(Samples(zones, a, key), Samples(zones, b, key));
      SameSize(Samples(zones, a, key), Samples(zones, b, key));
    }
  }
}
