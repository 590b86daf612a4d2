/**
  Daily and monthly summaries of the hourly rows: the one-pass rebuild of
  `internal/storage/calendar.go` and the per-period scans `AggregateDay` and
  `AggregateMonth` of `internal/storage/telemetry.go`, which must agree.
 */
module Summaries {
  import opened HourSplit
  import opened Calendar
  import opened Ledger
  import opened Reorder

  const CLOUD_SAMPLE_MINUTES: nat := 5

  datatype HourRow = HourRow(at: int, energy: real, peak: real, coverage: real, productive: nat)

  datatype MinuteRow = MinuteRow(observedAt: int, power: real, cloudHistory: bool)

  datatype DayRow = DayRow(day: int, energy: real, peak: real, productive: int, coverage: real)

  datatype MonthRow = MonthRow(month: int, energy: real, peak: real, productive: int, coverage: real)

  /** A summary in the making. */
  datatype Sums = Sums(energy: real, peak: real, weight: real, productive: int, minutes: real)

  function Minutes(duration: int): real { duration as real / 60000000000.0 }

  function MaxReal(a: real, b: real): real { if a > b then a else b }

  function Empty(minutes: real): Sums { Sums(0.0, 0.0, 0.0, 0, minutes) }

  function DayMinutes(z: Zone, d: int): real { Minutes(z.end(d) - z.start(d)) }

  /** The part of an hour's energy that falls into a stretch of it. */
  function Part(energy: real, duration: int): real { energy * (duration as real / HOUR as real) }

  function Add(s: Sums, r: HourRow, duration: int, productive: int): Sums {
    Sums(s.energy + Part(r.energy, duration), MaxReal(s.peak, r.peak), s.weight + r.coverage * Minutes(duration),
         s.productive + productive, s.minutes)
  }

  function Coverage(s: Sums): real { if s.minutes > 0.0 then s.weight / s.minutes else 0.0 }

  // ----- one pass over the segments of every hour

  function After(s: Sums, r: HourRow, segments: seq<Segment>, d: int): Sums {
    if segments == [] then s
    else
      var n := |segments| - 1;
      var before := After(s, r, segments[..n], d);
      if segments[n].day == d then Add(before, r, segments[n].duration, segments[n].productive) else before
  }

  /** The loop that cuts the hour ends: from each of its instants the day's end lies ahead. */
  ghost predicate Cut(z: Zone, r: HourRow) { Progresses(z, r.at, r.at + HOUR) }

  ghost predicate Cuts(z: Zone, rows: seq<HourRow>) { forall i :: 0 <= i < |rows| ==> Cut(z, rows[i]) }

  function SegmentsOf(z: Zone, r: HourRow): seq<Segment>
    requires Cut(z, r)
  {
    Segments(z, r.at, r.productive)
  }

  function DaySums(z: Zone, rows: seq<HourRow>, d: int): Sums
    requires Cuts(z, rows)
  {
    if rows == [] then Empty(DayMinutes(z, d))
    else
      var n := |rows| - 1;
      After(DaySums(z, rows[..n], d), rows[n], SegmentsOf(z, rows[n]), d)
  }

  /** Some segment falls on day `d`. */
  ghost predicate FallsOn(segments: seq<Segment>, d: int) { exists j :: 0 <= j < |segments| && segments[j].day == d }

  /** Some hour has a segment on day `d`. */
  ghost predicate HasSegments(z: Zone, rows: seq<HourRow>, d: int)
    requires Cuts(z, rows)
  {
    exists i :: 0 <= i < |rows| && FallsOn(SegmentsOf(z, rows[i]), d)
  }

  predicate Touches(z: Zone, r: HourRow, d: int) { OnDay(z, r.at, r.at + HOUR, d) > 0 }

  ghost predicate Touched(z: Zone, rows: seq<HourRow>, d: int) {
    exists i :: 0 <= i < |rows| && Touches(z, rows[i], d)
  }

  // ----- one scan for each period

  function Scan(rows: seq<HourRow>, from: int, to: int): Sums {
    if rows == [] then Empty(Minutes(to - from))
    else
      var n := |rows| - 1;
      var overlap := Overlap(rows[n].at, rows[n].at + HOUR, from, to);
      if overlap > 0 then Add(Scan(rows[..n], from, to), rows[n], overlap, 0) else Scan(rows[..n], from, to)
  }

  // ----- they agree

  ghost predicate DaysRise(segments: seq<Segment>) {
    forall i, j :: 0 <= i < j < |segments| ==> segments[i].day < segments[j].day
  }

  lemma {:induction false} AfterOthers(s: Sums, r: HourRow, segments: seq<Segment>, d: int)
    requires forall i :: 0 <= i < |segments| ==> segments[i].day != d
    ensures After(s, r, segments, d) == s
    decreases |segments|
  {
    if segments != [] {
      AfterOthers(s, r, segments[..|segments| - 1], d);
    }
  }

  lemma {:induction false} AfterOnce(s: Sums, r: HourRow, segments: seq<Segment>, d: int, k: nat)
    requires DaysRise(segments) && k < |segments| && segments[k].day == d
    ensures After(s, r, segments, d) == Add(s, r, segments[k].duration, segments[k].productive)
    decreases |segments|
  {
    hide Add;
    var n := |segments| - 1;
    if k < n {
      AfterOnce(s, r, segments[..n], d, k);
    } else {
      AfterOthers(s, r, segments[..n], d);
    }
  }

  /** An hour's segments add to a day what the hour's overlap with the day adds, and nothing to other days. */
  lemma RowAgrees(z: Zone, s: Sums, r: HourRow, d: int) returns (productive: int)
    requires Proper(z) && Cut(z, r)
    ensures After(s, r, SegmentsOf(z, r), d)
            == if Touches(z, r, d) then Add(s, r, OnDay(z, r.at, r.at + HOUR, d), productive) else s
    ensures Touches(z, r, d) <==> FallsOn(SegmentsOf(z, r), d)
  {
    hide Add, OnDay, After, Proper, Progresses, Stretches;
    var end, segments := r.at + HOUR, SegmentsOf(z, r);
    StretchesAreOverlaps(z, r.at, end);
    StretchesTile(z, r.at, end);
    SegmentDays(z, r);
    productive := 0;
    if Touches(z, r, d) {
      var k := StretchOf(z, r.at, end, d);
      AfterOnce(s, r, segments, d, k);
      productive := segments[k].productive;
    } else {
      AfterOthers(s, r, segments, d);
    }
  }

  lemma SegmentDays(z: Zone, r: HourRow)
    requires Cut(z, r)
    ensures var s, segments := Stretches(z, r.at, r.at + HOUR), SegmentsOf(z, r);
            |segments| == |s| && forall i :: 0 <= i < |s| ==> segments[i].day == s[i].day && segments[i].duration == s[i].duration
  {
    hide Stretches, Apportion, Progresses, Length;
    StretchesTile(z, r.at, r.at + HOUR);
  }

  lemma ProperCuts(z: Zone, rows: seq<HourRow>)
    requires Proper(z)
    ensures Cuts(z, rows)
  {
    hide Proper, Progresses;
    forall i | 0 <= i < |rows| ensures Cut(z, rows[i]) {
      ProperProgresses(z, rows[i].at, rows[i].at + HOUR);
    }
  }

  /** When days tile time, the days with segments are the days the hours overlap. */
  lemma HasSegmentsIffTouched(z: Zone, rows: seq<HourRow>, d: int)
    requires Proper(z) && Cuts(z, rows)
    ensures HasSegments(z, rows, d) <==> Touched(z, rows, d)
  {
    hide Proper, Cut, SegmentsOf, FallsOn, Touches;
    forall i | 0 <= i < |rows| ensures Touches(z, rows[i], d) <==> FallsOn(SegmentsOf(z, rows[i]), d) {
      var _ := RowAgrees(z, Empty(0.0), rows[i], d);
    }
  }

  lemma ProperDayMinutes(z: Zone, d: int)
    requires Proper(z)
    ensures DayMinutes(z, d) == Minutes(z.start(d + 1) - z.start(d))
  {
    assert Follows(z, d);
  }

  lemma HourAgrees(z: Zone, before: Sums, scanned: Sums, r: HourRow, d: int)
    requires Proper(z) && Cut(z, r) && before.(productive := 0) == scanned
    ensures After(before, r, SegmentsOf(z, r), d).(productive := 0)
            == var overlap := OnDay(z, r.at, r.at + HOUR, d); if overlap > 0 then Add(scanned, r, overlap, 0) else scanned
  {
    hide After, SegmentsOf, Proper, Cut, Add, OnDay;
    var productive := RowAgrees(z, before, r, d);
    AddIgnoresProductive(before, r, OnDay(z, r.at, r.at + HOUR, d), productive);
  }

  lemma CutsFront(z: Zone, rows: seq<HourRow>)
    requires Cuts(z, rows) && rows != []
    ensures Cuts(z, rows[..|rows| - 1]) && Cut(z, rows[|rows| - 1])
  {
    hide Cut;
  }

  lemma ScanLast(rows: seq<HourRow>, from: int, to: int)
    requires rows != []
    ensures var n := |rows| - 1;
            var overlap, s := Overlap(rows[n].at, rows[n].at + HOUR, from, to), Scan(rows[..n], from, to);
            Scan(rows, from, to) == if overlap > 0 then Add(s, rows[n], overlap, 0) else s
  {}

  lemma NoRowsAgree(z: Zone, d: int)
    requires Proper(z)
    ensures DaySums(z, [], d).(productive := 0) == Scan([], z.start(d), z.start(d + 1))
  {
    ProperDayMinutes(z, d);
  }

  /** The one pass and the scan over a day's bounds give the same energy, peak, coverage and length. */
  lemma {:induction false} RebuiltDayIsScan(z: Zone, rows: seq<HourRow>, d: int)
    requires Proper(z) && Cuts(z, rows)
    ensures DaySums(z, rows, d).(productive := 0) == Scan(rows, z.start(d), z.start(d + 1))
    decreases |rows|
  {
    if rows == [] {
      NoRowsAgree(z, d);
    } else {
      var n := |rows| - 1;
      CutsFront(z, rows);
      assert DaySums(z, rows, d) == After(DaySums(z, rows[..n], d), rows[n], SegmentsOf(z, rows[n]), d);
      hide DaySums, Scan, Cuts, After, SegmentsOf, Proper, Cut, Add, Overlap;
      RebuiltDayIsScan(z, rows[..n], d);
      ScanLast(rows, z.start(d), z.start(d + 1));
      HourAgrees(z, DaySums(z, rows[..n], d), Scan(rows[..n], z.start(d), z.start(d + 1)), rows[n], d);
    }
  }

  lemma AddIgnoresProductive(s: Sums, r: HourRow, duration: int, productive: int)
    ensures Add(s, r, duration, productive).(productive := 0) == Add(s.(productive := 0), r, duration, 0)
  {}

  lemma {:induction false} UntouchedScansEmpty(z: Zone, rows: seq<HourRow>, d: int)
    requires Proper(z) && !Touched(z, rows, d)
    ensures Scan(rows, z.start(d), z.start(d + 1)) == Empty(DayMinutes(z, d))
    decreases |rows|
  {
    ProperDayMinutes(z, d);
    hide Proper, Minutes, DayMinutes;
    if rows != [] {
      var n := |rows| - 1;
      assert !Touches(z, rows[n], d);
      forall i | 0 <= i < n ensures !Touches(z, rows[..n][i], d) {
        assert rows[..n][i] == rows[i];
      }
      UntouchedScansEmpty(z, rows[..n], d);
    }
  }

  // ----- rows may be read in any order

  lemma {:induction false} ScanMoves(rows: seq<HourRow>, i: nat, from: int, to: int)
    requires i < |rows|
    ensures Scan(rows, from, to) == Scan(rows[..i] + rows[i + 1..] + [rows[i]], from, to)
    decreases |rows|
  {
    hide Overlap, Part, Minutes;
    var n := |rows| - 1;
    if i == n {
      assert rows[..i] + rows[i + 1..] + [rows[i]] == rows;
    } else {
      ScanMoves(rows[..n], i, from, to);
      var x, last, rest := rows[i], rows[n], rows[..i] + rows[i + 1..n];
      assert rows[..n][..i] + rows[..n][i + 1..] + [x] == rest + [x];
      assert rows[..i] + rows[i + 1..] + [x] == rest + [last] + [x];
      assert rows == rows[..n] + [last];
      ScanAppend(rows[..n], last, from, to);
      ScanAppend(rest, x, from, to);
      ScanAppend(rest, last, from, to);
      ScanAppend(rest + [last], x, from, to);
    }
  }

  lemma ScanAppend(rows: seq<HourRow>, r: HourRow, from: int, to: int)
    ensures var overlap, s := Overlap(r.at, r.at + HOUR, from, to), Scan(rows, from, to);
            Scan(rows + [r], from, to) == if overlap > 0 then Add(s, r, overlap, 0) else s
  {
    assert (rows + [r])[..|rows|] == rows;
  }

  lemma {:induction false} ScanAnyOrder(a: seq<HourRow>, b: seq<HourRow>, from: int, to: int)
    requires multiset(a) == multiset(b)
    ensures Scan(a, from, to) == Scan(b, from, to)
    decreases |a|
  {
    if a == [] {
      NothingRearranged(b);
    } else {
      var n := |a| - 1;
      var i := LastIsSomewhere(a, b);
      ScanAnyOrder(a[..n], b[..i] + b[i + 1..], from, to);
      ScanMoves(b, i, from, to);
      assert a == a[..n] + [a[n]];
      ScanAppend(a[..n], a[n], from, to);
      ScanAppend(b[..i] + b[i + 1..], a[n], from, to);
    }
  }

  // ----- the month's sums

  function AddDay(s: Sums, day: DayRow, minutes: real): Sums {
    Sums(s.energy + day.energy, MaxReal(s.peak, day.peak), s.weight + day.coverage * minutes,
         s.productive + day.productive, s.minutes + minutes)
  }

  function MonthSums(z: Zone, monthOf: int -> int, days: seq<DayRow>, m: int): Sums {
    if days == [] then Empty(0.0)
    else
      var n := |days| - 1;
      var before := MonthSums(z, monthOf, days[..n], m);
      if monthOf(days[n].day) == m then AddDay(before, days[n], DayMinutes(z, days[n].day)) else before
  }

  function DayRowOf(z: Zone, rows: seq<HourRow>, d: int): DayRow
    requires Cuts(z, rows)
  {
    var s := DaySums(z, rows, d);
    DayRow(d, s.energy, s.peak, s.productive, Coverage(s))
  }

  function MonthRowOf(z: Zone, monthOf: int -> int, days: seq<DayRow>, m: int): MonthRow {
    var s := MonthSums(z, monthOf, days, m);
    MonthRow(m, s.energy, s.peak, s.productive, Coverage(s))
  }

  /** The rows of a table in the order of their keys. */
  ghost function InOrder<T>(table: map<int, T>): (r: seq<T>)
    ensures |r| == |Ascending(table.Keys)|
  {
    AscendingRises(table.Keys);
    var keys := Ascending(table.Keys);
    assert forall i :: 0 <= i < |keys| ==> keys[i] in keys;
    seq(|keys|, i requires 0 <= i < |keys| && keys[i] in table => table[keys[i]])
  }

  /** What the rebuild leaves in the daily and the monthly table. */
  ghost predicate IsRebuild(z: Zone, monthOf: int -> int, rows: seq<HourRow>, daily: map<int, DayRow>, monthly: map<int, MonthRow>)
    requires Cuts(z, rows)
  {
    && (forall d :: d in daily <==> HasSegments(z, rows, d))
    && (forall d :: d in daily ==> daily[d] == DayRowOf(z, rows, d))
    && (forall m :: m in monthly <==> exists d :: d in daily && monthOf(d) == m)
    && (forall m :: m in monthly ==> monthly[m] == MonthRowOf(z, monthOf, InOrder(daily), m))
  }

  // ----- conservation

  function EnergyOf(r: HourRow, s: Segment): real { Part(r.energy, s.duration) }

  function ProductiveOf(r: HourRow, s: Segment): real { s.productive as real }

  function SegmentPostings(r: HourRow, segments: seq<Segment>, amount: (HourRow, Segment) -> real): (p: seq<Posting>)
    ensures |p| == |segments|
    ensures forall i :: 0 <= i < |p| ==> p[i] == Posting(segments[i].day, amount(r, segments[i]))
  {
    seq(|segments|, i requires 0 <= i < |segments| => Posting(segments[i].day, amount(r, segments[i])))
  }

  function HourPostings(z: Zone, rows: seq<HourRow>, amount: (HourRow, Segment) -> real): seq<Posting>
    requires Cuts(z, rows)
  {
    if rows == [] then []
    else
      var n := |rows| - 1;
      HourPostings(z, rows[..n], amount) + SegmentPostings(rows[n], SegmentsOf(z, rows[n]), amount)
  }

  lemma {:induction false} AfterIsBalance(s: Sums, r: HourRow, segments: seq<Segment>, d: int)
    ensures After(s, r, segments, d).energy == s.energy + Balance(SegmentPostings(r, segments, EnergyOf), d)
    ensures After(s, r, segments, d).productive as real
            == s.productive as real + Balance(SegmentPostings(r, segments, ProductiveOf), d)
    decreases |segments|
  {
    hide Part;
    if segments != [] {
      var n := |segments| - 1;
      AfterIsBalance(s, r, segments[..n], d);
      assert SegmentPostings(r, segments, EnergyOf)[..n] == SegmentPostings(r, segments[..n], EnergyOf);
      assert SegmentPostings(r, segments, ProductiveOf)[..n] == SegmentPostings(r, segments[..n], ProductiveOf);
    }
  }

  lemma {:induction false} DayIsBalance(z: Zone, rows: seq<HourRow>, d: int)
    requires Cuts(z, rows)
    ensures DaySums(z, rows, d).energy == Balance(HourPostings(z, rows, EnergyOf), d)
    ensures DaySums(z, rows, d).productive as real == Balance(HourPostings(z, rows, ProductiveOf), d)
    decreases |rows|
  {
    hide After, SegmentsOf, SegmentPostings, Cut;
    if rows != [] {
      var n := |rows| - 1;
      var segments := SegmentsOf(z, rows[n]);
      DayIsBalance(z, rows[..n], d);
      AfterIsBalance(DaySums(z, rows[..n], d), rows[n], segments, d);
      Concat(HourPostings(z, rows[..n], EnergyOf), SegmentPostings(rows[n], segments, EnergyOf), d);
      Concat(HourPostings(z, rows[..n], ProductiveOf), SegmentPostings(rows[n], segments, ProductiveOf), d);
    }
  }

  lemma {:induction false} PartsAddUp(r: HourRow, s: seq<Stretch>, minutes: seq<int>)
    requires |minutes| == |s|
    ensures Booked(SegmentPostings(r, Zipped(s, minutes), EnergyOf)) == Part(r.energy, Length(s))
    ensures Booked(SegmentPostings(r, Zipped(s, minutes), ProductiveOf)) == Sum(minutes) as real
    decreases |s|
  {
    hide Part, Length;
    if s == [] {
      NoPart(r.energy);
      NoLength();
    } else {
      var n := |s| - 1;
      PartsAddUp(r, s[..n], minutes[..n]);
      assert s == s[..n] + [s[n]];
      LengthAppend(s[..n], s[n]);
      PartAdds(r.energy, Length(s[..n]), s[n].duration);
      PostingsInit(r, s, minutes, EnergyOf);
      PostingsInit(r, s, minutes, ProductiveOf);
    }
  }

  lemma PostingsInit(r: HourRow, s: seq<Stretch>, minutes: seq<int>, amount: (HourRow, Segment) -> real)
    requires |minutes| == |s| && s != []
    ensures var n := |s| - 1;
            var p := SegmentPostings(r, Zipped(s, minutes), amount);
            p[..n] == SegmentPostings(r, Zipped(s[..n], minutes[..n]), amount)
  {
    assert Zipped(s, minutes)[..|s| - 1] == Zipped(s[..|s| - 1], minutes[..|s| - 1]);
  }

  lemma NoLength()
    ensures Length([]) == 0
  {}

  lemma NoPart(energy: real)
    ensures Part(energy, 0) == 0.0 && Part(energy, HOUR) == energy
  {}

  lemma PartAdds(energy: real, a: int, b: int)
    ensures Part(energy, a + b) == Part(energy, a) + Part(energy, b)
  {}

  /** An hour's segments share out all of its energy and all of its productive minutes. */
  lemma HourIsShared(z: Zone, r: HourRow)
    requires Cut(z, r)
    ensures Booked(SegmentPostings(r, SegmentsOf(z, r), EnergyOf)) == r.energy
    ensures Booked(SegmentPostings(r, SegmentsOf(z, r), ProductiveOf)) == r.productive as real
  {
    hide Part, Apportion, Stretches, SegmentPostings, Sum, Beats, Floor, Remainder, Progresses;
    StretchesTile(z, r.at, r.at + HOUR);
    var s := Stretches(z, r.at, r.at + HOUR);
    LargestRemainder(r.productive, s);
    PartsAddUp(r, s, Apportion(r.productive, s));
    NoPart(r.energy);
  }

  function HourEnergy(rows: seq<HourRow>): real {
    if rows == [] then 0.0 else HourEnergy(rows[..|rows| - 1]) + rows[|rows| - 1].energy
  }

  function HourProductive(rows: seq<HourRow>): int {
    if rows == [] then 0 else HourProductive(rows[..|rows| - 1]) + rows[|rows| - 1].productive
  }

  lemma {:induction false} HoursBooked(z: Zone, rows: seq<HourRow>)
    requires Cuts(z, rows)
    ensures Booked(HourPostings(z, rows, EnergyOf)) == HourEnergy(rows)
    ensures Booked(HourPostings(z, rows, ProductiveOf)) == HourProductive(rows) as real
    decreases |rows|
  {
    hide SegmentsOf, SegmentPostings, Cut;
    if rows != [] {
      var n := |rows| - 1;
      var segments := SegmentsOf(z, rows[n]);
      HoursBooked(z, rows[..n]);
      HourIsShared(z, rows[n]);
      Concat(HourPostings(z, rows[..n], EnergyOf), SegmentPostings(rows[n], segments, EnergyOf), 0);
      Concat(HourPostings(z, rows[..n], ProductiveOf), SegmentPostings(rows[n], segments, ProductiveOf), 0);
    }
  }

  lemma {:induction false} PostedDaysHaveSegments(z: Zone, rows: seq<HourRow>, amount: (HourRow, Segment) -> real, i: nat)
    requires Cuts(z, rows) && i < |HourPostings(z, rows, amount)|
    ensures HasSegments(z, rows, HourPostings(z, rows, amount)[i].key)
    decreases |rows|
  {
    hide SegmentsOf, Cut;
    var n := |rows| - 1;
    var d := HourPostings(z, rows, amount)[i].key;
    var before := HourPostings(z, rows[..n], amount);
    if i < |before| {
      PostedDaysHaveSegments(z, rows[..n], amount, i);
      var k :| 0 <= k < n && FallsOn(SegmentsOf(z, rows[..n][k]), d);
      assert FallsOn(SegmentsOf(z, rows[k]), d);
    } else {
      assert SegmentsOf(z, rows[n])[i - |before|].day == d;
      assert FallsOn(SegmentsOf(z, rows[n]), d);
    }
  }

  function DayEnergy(days: seq<DayRow>): real {
    if days == [] then 0.0 else DayEnergy(days[..|days| - 1]) + days[|days| - 1].energy
  }

  function DayProductive(days: seq<DayRow>): int {
    if days == [] then 0 else DayProductive(days[..|days| - 1]) + days[|days| - 1].productive
  }

  lemma {:induction false} DaysAreBalances(z: Zone, rows: seq<HourRow>, days: seq<DayRow>, keys: seq<int>)
    requires Cuts(z, rows) && |days| == |keys| && forall i :: 0 <= i < |days| ==> days[i] == DayRowOf(z, rows, keys[i])
    ensures DayEnergy(days) == Balances(HourPostings(z, rows, EnergyOf), keys)
    ensures DayProductive(days) as real == Balances(HourPostings(z, rows, ProductiveOf), keys)
    decreases |days|
  {
    hide DaySums, Cuts, HourPostings, Coverage;
    if days != [] {
      var n := |days| - 1;
      DaysAreBalances(z, rows, days[..n], keys[..n]);
      DayIsBalance(z, rows, keys[n]);
    }
  }

  /** All energy and all productive minutes of the hours are in the days, and nothing else is. */
  lemma DaysConserve(z: Zone, monthOf: int -> int, rows: seq<HourRow>, daily: map<int, DayRow>, monthly: map<int, MonthRow>)
    requires Cuts(z, rows) && IsRebuild(z, monthOf, rows, daily, monthly)
    ensures DayEnergy(InOrder(daily)) == HourEnergy(rows)
    ensures DayProductive(InOrder(daily)) == HourProductive(rows)
  {
    hide DayRowOf, HasSegments, MonthRowOf, HourPostings, Cuts;
    var keys := Ascending(daily.Keys);
    AscendingRises(daily.Keys);
    assert forall i :: 0 <= i < |keys| ==> keys[i] in keys;
    DaysAreBalances(z, rows, InOrder(daily), keys);
    HoursBooked(z, rows);
    var energy, productive := HourPostings(z, rows, EnergyOf), HourPostings(z, rows, ProductiveOf);
    forall i | 0 <= i < |energy| ensures energy[i].key in keys {
      PostedDaysHaveSegments(z, rows, EnergyOf, i);
    }
    forall i | 0 <= i < |productive| ensures productive[i].key in keys {
      PostedDaysHaveSegments(z, rows, ProductiveOf, i);
    }
    NothingIsLost(energy, keys);
    NothingIsLost(productive, keys);
  }

  function DayPostings(monthOf: int -> int, days: seq<DayRow>, amount: DayRow -> real): (p: seq<Posting>)
    ensures |p| == |days|
    ensures forall i :: 0 <= i < |p| ==> p[i] == Posting(monthOf(days[i].day), amount(days[i]))
  {
    seq(|days|, i requires 0 <= i < |days| => Posting(monthOf(days[i].day), amount(days[i])))
  }

  function EnergyOfDay(d: DayRow): real { d.energy }

  function ProductiveOfDay(d: DayRow): real { d.productive as real }

  lemma {:induction false} MonthIsBalance(z: Zone, monthOf: int -> int, days: seq<DayRow>, m: int)
    ensures MonthSums(z, monthOf, days, m).energy == Balance(DayPostings(monthOf, days, EnergyOfDay), m)
    ensures MonthSums(z, monthOf, days, m).productive as real == Balance(DayPostings(monthOf, days, ProductiveOfDay), m)
    decreases |days|
  {
    if days != [] {
      var n := |days| - 1;
      MonthIsBalance(z, monthOf, days[..n], m);
      assert DayPostings(monthOf, days, EnergyOfDay)[..n] == DayPostings(monthOf, days[..n], EnergyOfDay);
      assert DayPostings(monthOf, days, ProductiveOfDay)[..n] == DayPostings(monthOf, days[..n], ProductiveOfDay);
    }
  }

  lemma {:induction false} DaysBooked(monthOf: int -> int, days: seq<DayRow>)
    ensures Booked(DayPostings(monthOf, days, EnergyOfDay)) == DayEnergy(days)
    ensures Booked(DayPostings(monthOf, days, ProductiveOfDay)) == DayProductive(days) as real
    decreases |days|
  {
    if days != [] {
      var n := |days| - 1;
      DaysBooked(monthOf, days[..n]);
      assert DayPostings(monthOf, days, EnergyOfDay)[..n] == DayPostings(monthOf, days[..n], EnergyOfDay);
      assert DayPostings(monthOf, days, ProductiveOfDay)[..n] == DayPostings(monthOf, days[..n], ProductiveOfDay);
    }
  }

  function MonthEnergy(months: seq<MonthRow>): real {
    if months == [] then 0.0 else MonthEnergy(months[..|months| - 1]) + months[|months| - 1].energy
  }

  function MonthProductive(months: seq<MonthRow>): int {
    if months == [] then 0 else MonthProductive(months[..|months| - 1]) + months[|months| - 1].productive
  }

  lemma {:induction false} MonthsAreBalances(z: Zone, monthOf: int -> int, days: seq<DayRow>, months: seq<MonthRow>, keys: seq<int>)
    requires |months| == |keys| && forall i :: 0 <= i < |months| ==> months[i] == MonthRowOf(z, monthOf, days, keys[i])
    ensures MonthEnergy(months) == Balances(DayPostings(monthOf, days, EnergyOfDay), keys)
    ensures MonthProductive(months) as real == Balances(DayPostings(monthOf, days, ProductiveOfDay), keys)
    decreases |months|
  {
    hide MonthSums, DayPostings, Coverage;
    if months != [] {
      var n := |months| - 1;
      MonthsAreBalances(z, monthOf, days, months[..n], keys[..n]);
      MonthIsBalance(z, monthOf, days, keys[n]);
    }
  }

  lemma MonthsConserve(z: Zone, monthOf: int -> int, daily: map<int, DayRow>, monthly: map<int, MonthRow>)
    requires forall d :: d in daily ==> daily[d].day == d && monthOf(d) in monthly
    requires forall m :: m in monthly ==> monthly[m] == MonthRowOf(z, monthOf, InOrder(daily), m)
    ensures MonthEnergy(InOrder(monthly)) == DayEnergy(InOrder(daily))
    ensures MonthProductive(InOrder(monthly)) == DayProductive(InOrder(daily))
  {
    hide MonthRowOf, MonthEnergy, DayEnergy, MonthProductive, DayProductive, Balances, Booked;
    var days, keys, dayKeys := InOrder(daily), Ascending(monthly.Keys), Ascending(daily.Keys);
    AscendingRises(monthly.Keys);
    AscendingRises(daily.Keys);
    assert forall i :: 0 <= i < |keys| ==> keys[i] in keys;
    hide Ascending;
    MonthsAreBalances(z, monthOf, days, InOrder(monthly), keys);
    DaysBooked(monthOf, days);
    forall i | 0 <= i < |days| ensures monthOf(days[i].day) in keys {
      assert dayKeys[i] in dayKeys;
    }
    NothingIsLost(DayPostings(monthOf, days, EnergyOfDay), keys);
    NothingIsLost(DayPostings(monthOf, days, ProductiveOfDay), keys);
  }

  /** Summed over hours, over days or over months, energy and productive minutes are the same. */
  lemma RebuildConserves(z: Zone, monthOf: int -> int, rows: seq<HourRow>, daily: map<int, DayRow>, monthly: map<int, MonthRow>)
    requires Cuts(z, rows) && IsRebuild(z, monthOf, rows, daily, monthly)
    ensures MonthEnergy(InOrder(monthly)) == DayEnergy(InOrder(daily)) == HourEnergy(rows)
    ensures MonthProductive(InOrder(monthly)) == DayProductive(InOrder(daily)) == HourProductive(rows)
  {
    DaysConserve(z, monthOf, rows, daily, monthly);
    hide HasSegments, MonthRowOf, DaySums, Cuts, Coverage, InOrder;
    MonthsConserve(z, monthOf, daily, monthly);
  }
}
