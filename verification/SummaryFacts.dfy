/**
  What the summary rows mean, column by column: sums over the hours or days they cover, the highest
  peak among them, and a coverage weighted by time.
 */
module SummaryFacts {
  import opened Common
  import opened HourSplit
  import opened Calendar
  import opened Ledger
  import opened Reorder
  import opened Summaries
  import opened SummaryStore

  /** How much of an hour lies between two instants. */
  function Shared(r: HourRow, from: int, to: int): int {
    var start := if r.at > from then r.at else from;
    var end := if r.at + HOUR < to then r.at + HOUR else to;
    if start < end then end - start else 0
  }

  /** `peak` is the highest of those seen, or zero if none is higher. */
  predicate Highest(peak: real, seen: set<real>) {
    peak >= 0.0 && (forall x :: x in seen ==> x <= peak) && (peak > 0.0 ==> peak in seen)
  }

  lemma HighestStep(before: real, seen: set<real>, x: real)
    requires Highest(before, seen)
    ensures Highest(if x > before then x else before, seen + {x})
  {}

  // ----- the scan of a day

  function EnergyWithin(from: int, to: int): HourRow -> real {
    (r: HourRow) => r.energy * (Shared(r, from, to) as real / 3600000000000.0)
  }

  /** Coverage, times the minutes it holds for. */
  function CoverageWithin(from: int, to: int): HourRow -> real {
    (r: HourRow) => r.coverage * (Shared(r, from, to) as real / 60000000000.0)
  }

  /** The peaks of the hours that share some time. */
  function PeaksWithin(rows: seq<HourRow>, from: int, to: int): set<real> {
    set i | 0 <= i < |rows| && Shared(rows[i], from, to) > 0 :: rows[i].peak
  }

  lemma OneMorePeak(rows: seq<HourRow>, from: int, to: int)
    requires rows != []
    ensures var r, fewer := rows[|rows| - 1], PeaksWithin(rows[..|rows| - 1], from, to);
            PeaksWithin(rows, from, to) == if Shared(r, from, to) > 0 then fewer + {r.peak} else fewer
  {
    hide Shared;
    var n := |rows| - 1;
    var fewer, all := PeaksWithin(rows[..n], from, to), PeaksWithin(rows, from, to);
    forall x ensures x in all <==> x in fewer || (Shared(rows[n], from, to) > 0 && x == rows[n].peak) {
      if x in fewer {
        var i :| 0 <= i < n && Shared(rows[..n][i], from, to) > 0 && rows[..n][i].peak == x;
        assert rows[i] == rows[..n][i];
      }
      if x in all {
        var i :| 0 <= i < |rows| && Shared(rows[i], from, to) > 0 && rows[i].peak == x;
        assert i < n ==> rows[..n][i] == rows[i];
      }
    }
  }

  lemma OneMoreHour(rows: seq<HourRow>, from: int, to: int)
    requires rows != []
    ensures var before, after, r := Scan(rows[..|rows| - 1], from, to), Scan(rows, from, to), rows[|rows| - 1];
            && after.energy == before.energy + EnergyWithin(from, to)(r)
            && after.weight == before.weight + CoverageWithin(from, to)(r)
            && after.minutes == before.minutes && after.productive == before.productive
            && after.peak == if Shared(r, from, to) > 0 && r.peak > before.peak then r.peak else before.peak
  {
    hide Scan, Add, Overlap, Shared, EnergyWithin, CoverageWithin;
    var r := rows[|rows| - 1];
    ScanLast(rows, from, to);
    SharedIsOverlap(r, from, to);
    AddedHour(Scan(rows[..|rows| - 1], from, to), r, from, to);
  }

  lemma AddedHour(s: Sums, r: HourRow, from: int, to: int)
    ensures var shared := Shared(r, from, to);
            var u := if shared > 0 then Add(s, r, shared, 0) else s;
            && u.energy == s.energy + EnergyWithin(from, to)(r) && u.weight == s.weight + CoverageWithin(from, to)(r)
            && u.minutes == s.minutes && u.productive == s.productive
            && u.peak == if shared > 0 && r.peak > s.peak then r.peak else s.peak
  {
    hide Part, Minutes, Shared;
    PartIs(r.energy, Shared(r, from, to));
    NothingShared(r.energy, r.coverage);
    SharedIsOverlap(r, from, to);
  }

  lemma SharedIsOverlap(r: HourRow, from: int, to: int)
    ensures Shared(r, from, to) == Overlap(r.at, r.at + HOUR, from, to) >= 0
  {}

  lemma PartIs(energy: real, duration: int)
    ensures Part(energy, duration) == energy * (duration as real / 3600000000000.0)
    ensures Minutes(duration) == duration as real / 60000000000.0
  {}

  lemma NothingShared(energy: real, coverage: real)
    ensures energy * (0 as real / 3600000000000.0) == 0.0 && coverage * (0 as real / 60000000000.0) == 0.0
  {}

  /** The columns of a scan between two instants. */
  lemma {:induction false} ScanFacts(rows: seq<HourRow>, from: int, to: int)
    ensures var s := Scan(rows, from, to);
            && s.energy == SumOver(rows, EnergyWithin(from, to))
            && s.weight == SumOver(rows, CoverageWithin(from, to))
            && s.minutes == (to - from) as real / 60000000000.0 && s.productive == 0
            && Highest(s.peak, PeaksWithin(rows, from, to))
    decreases |rows|
  {
    hide EnergyWithin, CoverageWithin, Shared;
    if rows != [] {
      hide Scan, Highest, PeaksWithin;
      var n := |rows| - 1;
      ScanFacts(rows[..n], from, to);
      OneMoreHour(rows, from, to);
      OneMorePeak(rows, from, to);
      HighestStep(Scan(rows[..n], from, to).peak, PeaksWithin(rows[..n], from, to), rows[n].peak);
    }
  }

  /** Minutes with power count one each, those of the cloud's five-minute history five. */
  lemma {:induction false} ProductiveIsCount(minutes: seq<MinuteRow>, from: int, to: int)
    ensures ProductiveMinutes(minutes, from, to) == |Producing(minutes, from, to, false)| + 5 * |Producing(minutes, from, to, true)|
    decreases |minutes|
  {
    if minutes != [] {
      var n := |minutes| - 1;
      ProductiveIsCount(minutes[..n], from, to);
      OneMoreMinute(minutes, from, to, false);
      OneMoreMinute(minutes, from, to, true);
    }
  }

  /** The minutes between two instants that show power, by where they come from. */
  function Producing(minutes: seq<MinuteRow>, from: int, to: int, cloud: bool): set<nat> {
    set i: nat | i < |minutes| && from <= minutes[i].observedAt < to && minutes[i].power > 0.0 && minutes[i].cloudHistory == cloud
  }

  lemma OneMoreMinute(minutes: seq<MinuteRow>, from: int, to: int, cloud: bool)
    requires minutes != []
    ensures var n := |minutes| - 1;
            |Producing(minutes, from, to, cloud)|
            == |Producing(minutes[..n], from, to, cloud)|
               + if from <= minutes[n].observedAt < to && minutes[n].power > 0.0 && minutes[n].cloudHistory == cloud then 1 else 0
  {
    var n: nat := |minutes| - 1;
    var fewer, all := Producing(minutes[..n], from, to, cloud), Producing(minutes, from, to, cloud);
    assert n !in fewer && all - {n} == fewer;
    assert n in all ==> |all - {n}| == |all| - 1;
  }

  /**
    What `AggregateDay` finds between two instants: each hour's energy in proportion to the time it
    shares, the highest peak of the hours that share any, coverage weighted by time, productive minutes counted.
   */
  lemma DayScanFacts(rows: seq<HourRow>, minutes: seq<MinuteRow>, day: int, from: int, to: int)
    requires from < to
    ensures var row := DayScan(rows, minutes, day, from, to);
            && row.day == day
            && row.energy == SumOver(rows, EnergyWithin(from, to))
            && Highest(row.peak, PeaksWithin(rows, from, to))
            && row.coverage * ((to - from) as real / 60000000000.0) == SumOver(rows, CoverageWithin(from, to))
            && row.productive == |Producing(minutes, from, to, false)| + 5 * |Producing(minutes, from, to, true)|
  {
    hide Scan, ProductiveMinutes, SumOver, Highest, EnergyWithin, CoverageWithin, PeaksWithin, Producing;
    ScanFacts(rows, from, to);
    ProductiveIsCount(minutes, from, to);
    CoverageIsShare(Scan(rows, from, to));
    assert (to - from) as real / 60000000000.0 > 0.0;
  }

  lemma CoverageIsShare(s: Sums)
    ensures s.minutes > 0.0 ==> Coverage(s) * s.minutes == s.weight
  {}

  // ----- the rebuilt day

  function CoverageOf(r: HourRow, s: Segment): real { r.coverage * (s.duration as real / 60000000000.0) }

  lemma {:induction false} WeightAfter(s: Sums, r: HourRow, segments: seq<Segment>, d: int)
    ensures var u := After(s, r, segments, d);
            && u.weight == s.weight + Balance(SegmentPostings(r, segments, CoverageOf), d)
            && u.peak == (if FallsOn(segments, d) && r.peak > s.peak then r.peak else s.peak)
            && u.minutes == s.minutes
    decreases |segments|
  {
    hide Part;
    if segments != [] {
      var n := |segments| - 1;
      WeightAfter(s, r, segments[..n], d);
      assert SegmentPostings(r, segments, CoverageOf)[..n] == SegmentPostings(r, segments[..n], CoverageOf);
      assert segments[..n + 1] == segments;
      FallsStep(segments, n, d);
    }
  }

  /** The peaks of the hours that have a segment on day `d`. */
  ghost function PeaksOn(z: Zone, rows: seq<HourRow>, d: int): set<real>
    requires Cuts(z, rows)
  {
    set i | 0 <= i < |rows| && FallsOn(SegmentsOf(z, rows[i]), d) :: rows[i].peak
  }

  lemma OneMorePeakOn(z: Zone, rows: seq<HourRow>, d: int)
    requires Cuts(z, rows) && rows != []
    ensures Cuts(z, rows[..|rows| - 1]) && Cut(z, rows[|rows| - 1])
    ensures var r, fewer := rows[|rows| - 1], PeaksOn(z, rows[..|rows| - 1], d);
            PeaksOn(z, rows, d) == if FallsOn(SegmentsOf(z, r), d) then fewer + {r.peak} else fewer
  {
    hide FallsOn, SegmentsOf, Cut;
    var n := |rows| - 1;
    var fewer, all := PeaksOn(z, rows[..n], d), PeaksOn(z, rows, d);
    forall x ensures x in all <==> x in fewer || (FallsOn(SegmentsOf(z, rows[n]), d) && x == rows[n].peak) {
      if x in fewer {
        var i :| 0 <= i < n && FallsOn(SegmentsOf(z, rows[..n][i]), d) && rows[..n][i].peak == x;
        assert rows[i] == rows[..n][i];
      }
      if x in all {
        var i :| 0 <= i < |rows| && FallsOn(SegmentsOf(z, rows[i]), d) && rows[i].peak == x;
        assert i < n ==> rows[..n][i] == rows[i];
      }
    }
  }

  lemma {:induction false} DaySumsFacts(z: Zone, rows: seq<HourRow>, d: int)
    requires Cuts(z, rows)
    ensures var s := DaySums(z, rows, d);
            && s.weight == Balance(HourPostings(z, rows, CoverageOf), d)
            && Highest(s.peak, PeaksOn(z, rows, d))
            && s.minutes == (z.end(d) - z.start(d)) as real / 60000000000.0
    decreases |rows|
  {
    hide After, SegmentsOf, SegmentPostings, Cut, FallsOn;
    if rows != [] {
      var n := |rows| - 1;
      var segments := SegmentsOf(z, rows[n]);
      OneMorePeakOn(z, rows, d);
      DaySumsFacts(z, rows[..n], d);
      WeightAfter(DaySums(z, rows[..n], d), rows[n], segments, d);
      HighestStep(DaySums(z, rows[..n], d).peak, PeaksOn(z, rows[..n], d), rows[n].peak);
      Concat(HourPostings(z, rows[..n], CoverageOf), SegmentPostings(rows[n], segments, CoverageOf), d);
    }
  }

  /**
    What the rebuild writes for a day, in any zone in which the cutting loop ends: the energy, the productive
    minutes and the coverage of the segments that fall on it, and the highest peak of their hours.
   */
  lemma RebuiltDayFacts(z: Zone, rows: seq<HourRow>, d: int)
    requires Cuts(z, rows)
    ensures var row, minutes := DayRowOf(z, rows, d), (z.end(d) - z.start(d)) as real / 60000000000.0;
            && row.day == d
            && row.energy == Balance(HourPostings(z, rows, EnergyOf), d)
            && row.productive as real == Balance(HourPostings(z, rows, ProductiveOf), d)
            && Highest(row.peak, PeaksOn(z, rows, d))
            && (if minutes > 0.0 then row.coverage * minutes == Balance(HourPostings(z, rows, CoverageOf), d) else row.coverage == 0.0)
  {
    hide DaySums, HourPostings, PeaksOn, Highest;
    DayIsBalance(z, rows, d);
    DaySumsFacts(z, rows, d);
    CoverageIsShare(DaySums(z, rows, d));
  }

  // ----- the month

  /** The days of a month, in the order read. */
  function DaysOf(monthOf: int -> int, days: seq<DayRow>, m: int): seq<DayRow> {
    if days == [] then []
    else DaysOf(monthOf, days[..|days| - 1], m) + if monthOf(days[|days| - 1].day) == m then [days[|days| - 1]] else []
  }

  function LengthOf(z: Zone): DayRow -> real {
    (day: DayRow) => (z.end(day.day) - z.start(day.day)) as real / 60000000000.0
  }

  function CoveredOf(z: Zone): DayRow -> real { (day: DayRow) => day.coverage * LengthOf(z)(day) }

  function DayPeaks(days: seq<DayRow>): set<real> { set i | 0 <= i < |days| :: days[i].peak }

  lemma DayPeaksAppend(days: seq<DayRow>, day: DayRow)
    ensures DayPeaks(days + [day]) == DayPeaks(days) + {day.peak}
  {
    var more := days + [day];
    assert more[|days|] == day;
    forall x | x in DayPeaks(days) ensures x in DayPeaks(more) {
      var i :| 0 <= i < |days| && days[i].peak == x;
      assert more[i] == days[i];
    }
  }

  lemma SumAppend<T>(rows: seq<T>, x: T, f: T -> real)
    ensures SumOver(rows + [x], f) == SumOver(rows, f) + f(x)
  {
    assert (rows + [x])[..|rows|] == rows;
  }

  function DayEnergyOf(): DayRow -> real { (day: DayRow) => day.energy }

  function DayProductiveOf(): DayRow -> real { (day: DayRow) => day.productive as real }

  lemma {:induction false} MonthSumsFacts(z: Zone, monthOf: int -> int, days: seq<DayRow>, m: int)
    ensures var s, mine := MonthSums(z, monthOf, days, m), DaysOf(monthOf, days, m);
            && s.energy == SumOver(mine, DayEnergyOf()) && s.productive as real == SumOver(mine, DayProductiveOf())
            && s.minutes == SumOver(mine, LengthOf(z)) && s.weight == SumOver(mine, CoveredOf(z))
            && Highest(s.peak, DayPeaks(mine))
    decreases |days|
  {
    hide Highest, DayPeaks, SumOver;
    if days == [] {
      NoMonth(z);
    } else {
      var n := |days| - 1;
      MonthSumsFacts(z, monthOf, days[..n], m);
      var mine := DaysOf(monthOf, days[..n], m);
      assert mine + [] == mine;
      if monthOf(days[n].day) == m {
        SumAppend(mine, days[n], DayEnergyOf());
        SumAppend(mine, days[n], DayProductiveOf());
        SumAppend(mine, days[n], LengthOf(z));
        SumAppend(mine, days[n], CoveredOf(z));
        DayPeaksAppend(mine, days[n]);
        HighestStep(MonthSums(z, monthOf, days[..n], m).peak, DayPeaks(mine), days[n].peak);
      }
    }
  }

  lemma NoMonth(z: Zone)
    ensures SumOver([], DayEnergyOf()) == SumOver([], DayProductiveOf()) == SumOver([], LengthOf(z)) == SumOver([], CoveredOf(z)) == 0.0
    ensures Highest(0.0, DayPeaks([]))
  {}

  /** A month's row: the sums over its days, the highest of their peaks, their coverage weighted by their length. */
  lemma MonthRowFacts(z: Zone, monthOf: int -> int, days: seq<DayRow>, m: int)
    ensures var row, mine := MonthRowOf(z, monthOf, days, m), DaysOf(monthOf, days, m);
            && row.month == m
            && row.energy == SumOver(mine, DayEnergyOf()) && row.productive as real == SumOver(mine, DayProductiveOf())
            && Highest(row.peak, DayPeaks(mine))
            && (if SumOver(mine, LengthOf(z)) > 0.0 then row.coverage * SumOver(mine, LengthOf(z)) == SumOver(mine, CoveredOf(z))
                else row.coverage == 0.0)
  {
    hide MonthSums, SumOver, Highest, DayPeaks, LengthOf, CoveredOf;
    MonthSumsFacts(z, monthOf, days, m);
    CoverageIsShare(MonthSums(z, monthOf, days, m));
  }
}
