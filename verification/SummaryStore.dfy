/**
  The summary tables and the operations that fill them: `AggregateDay`, `AggregateMonth` and the
  rebuild after a change of calendar.

  Days and months are numbers; `monthOf` says which month a day belongs to. A query reads the rows
  of a table in an order of its own, so the order read is a parameter.
 */
module SummaryStore {
  import opened Common
  import opened HourSplit
  import opened Calendar
  import opened Reorder
  import opened Summaries

  // ----- what one day's scan yields

  predicate Counts(m: MinuteRow, from: int, to: int) { from <= m.observedAt < to && m.power > 0.0 }

  function ProductiveMinutes(minutes: seq<MinuteRow>, from: int, to: int): int {
    if minutes == [] then 0
    else
      var n := |minutes| - 1;
      ProductiveMinutes(minutes[..n], from, to)
      + if !Counts(minutes[n], from, to) then 0 else if minutes[n].cloudHistory then CLOUD_SAMPLE_MINUTES else 1
  }

  function DayScan(rows: seq<HourRow>, minutes: seq<MinuteRow>, day: int, from: int, to: int): DayRow {
    var s := Scan(rows, from, to);
    DayRow(day, s.energy, s.peak, ProductiveMinutes(minutes, from, to), Coverage(s))
  }

  /** The same day, whatever was counted as productive. */
  predicate Agrees(a: DayRow, b: DayRow) {
    a.day == b.day && a.energy == b.energy && a.peak == b.peak && a.coverage == b.coverage
  }

  /** A rebuilt day is what `AggregateDay` finds between the day's bounds, in whatever order it reads the hours. */
  lemma RebuiltDayAgrees(z: Zone, a: seq<HourRow>, b: seq<HourRow>, minutes: seq<MinuteRow>, d: int)
    requires Proper(z) && Cuts(z, a) && multiset(a) == multiset(b)
    ensures Agrees(DayRowOf(z, a, d), DayScan(b, minutes, d, z.start(d), z.start(d + 1)))
    ensures z.dayOf(z.start(d)) == d
  {
    RebuiltDayIsScan(z, a, d);
    ScanAnyOrder(a, b, z.start(d), z.start(d + 1));
    assert Follows(z, d);
    DayIsUnique(z, z.start(d), d);
  }

  /** A day the rebuild leaves out is one on which `AggregateDay` finds nothing. */
  lemma MissingDayIsEmpty(z: Zone, a: seq<HourRow>, b: seq<HourRow>, minutes: seq<MinuteRow>, d: int)
    requires Proper(z) && Cuts(z, a) && multiset(a) == multiset(b) && !HasSegments(z, a, d)
    ensures var row := DayScan(b, minutes, d, z.start(d), z.start(d + 1));
            row.energy == 0.0 && row.peak == 0.0 && row.coverage == 0.0
  {
    hide Proper, Cuts, HasSegments, Touched, Scan, DayMinutes;
    HasSegmentsIffTouched(z, a, d);
    UntouchedScansEmpty(z, a, d);
    ScanAnyOrder(a, b, z.start(d), z.start(d + 1));
  }

  // ----- the passes

  function At(z: Zone, days: map<int, Sums>, d: int): Sums {
    if d in days then days[d] else Empty(DayMinutes(z, d))
  }

  lemma AfterStep(s: Sums, r: HourRow, segments: seq<Segment>, i: nat, d: int)
    requires i < |segments|
    ensures After(s, r, segments[..i + 1], d)
            == if segments[i].day == d
               then Add(After(s, r, segments[..i], d), r, segments[i].duration, segments[i].productive)
               else After(s, r, segments[..i], d)
  {
    assert segments[..i + 1][..i] == segments[..i];
  }

  lemma FallsStep(segments: seq<Segment>, i: nat, d: int)
    requires i < |segments|
    ensures FallsOn(segments[..i + 1], d) <==> FallsOn(segments[..i], d) || segments[i].day == d
  {
    var more, fewer := segments[..i + 1], segments[..i];
    assert more[i] == segments[i] && forall j :: 0 <= j < i ==> more[j] == fewer[j];
  }

  lemma HasSegmentsStep(z: Zone, rows: seq<HourRow>, k: nat, d: int)
    requires Cuts(z, rows) && k < |rows|
    ensures HasSegments(z, rows[..k + 1], d) <==> HasSegments(z, rows[..k], d) || FallsOn(SegmentsOf(z, rows[k]), d)
  {
    hide FallsOn, SegmentsOf, Cut;
    var more, fewer := rows[..k + 1], rows[..k];
    assert more[k] == rows[k] && forall i :: 0 <= i < k ==> more[i] == fewer[i];
  }

  lemma DaySumsStep(z: Zone, rows: seq<HourRow>, k: nat, d: int)
    requires Cuts(z, rows) && k < |rows|
    ensures DaySums(z, rows[..k + 1], d) == After(DaySums(z, rows[..k], d), rows[k], SegmentsOf(z, rows[k]), d)
  {
    assert rows[..k + 1][..k] == rows[..k];
  }

  /** The pass over the hours: a sum for every day some segment falls on. */
  method CollectDays(z: Zone, rows: seq<HourRow>) returns (days: map<int, Sums>)
    requires Cuts(z, rows)
    ensures forall d :: d in days <==> HasSegments(z, rows, d)
    ensures forall d :: At(z, days, d) == DaySums(z, rows, d)
  {
    hide HasSegments, After, DaySums, Cut, Segments, SegmentsOf;
    days := map[];
    NoRows(z);
    for k := 0 to |rows|
      invariant forall d :: d in days <==> HasSegments(z, rows[..k], d)
      invariant forall d :: At(z, days, d) == DaySums(z, rows[..k], d)
    {
      ghost var before := days;
      days := AddHour(z, days, rows[k]);
      forall d ensures d in days <==> HasSegments(z, rows[..k + 1], d)
               ensures At(z, days, d) == DaySums(z, rows[..k + 1], d)
      {
        HasSegmentsStep(z, rows, k, d);
        DaySumsStep(z, rows, k, d);
      }
    }
    assert rows[..|rows|] == rows;
  }

  lemma NoRows(z: Zone)
    ensures forall d :: !HasSegments(z, [], d) && DaySums(z, [], d) == Empty(DayMinutes(z, d))
  {}

  method AddHour(z: Zone, before: map<int, Sums>, r: HourRow) returns (days: map<int, Sums>)
    requires Cut(z, r)
    ensures var segments := SegmentsOf(z, r);
            && (forall d :: d in days <==> d in before || FallsOn(segments, d))
            && (forall d :: At(z, days, d) == After(At(z, before, d), r, segments, d))
  {
    hide After, Segments, Progresses, Add, FallsOn;
    var segments := SplitCalendarHour(z, r.at, r.productive);
    days := before;
    NoSegments(r, segments);
    for i := 0 to |segments|
      invariant forall d :: d in days <==> d in before || FallsOn(segments[..i], d)
      invariant forall d :: At(z, days, d) == After(At(z, before, d), r, segments[..i], d)
    {
      var segment := segments[i];
      var summary := if segment.day in days then days[segment.day]
                     else Empty(Minutes(z.end(segment.day) - z.start(segment.day)));
      ghost var old' := days;
      days := days[segment.day := Add(summary, r, segment.duration, segment.productive)];
      forall d ensures At(z, days, d) == After(At(z, before, d), r, segments[..i + 1], d)
               ensures d in days <==> d in before || FallsOn(segments[..i + 1], d)
      {
        AfterStep(At(z, before, d), r, segments, i, d);
        FallsStep(segments, i, d);
      }
    }
    assert segments[..|segments|] == segments;
  }

  lemma NoSegments(r: HourRow, segments: seq<Segment>)
    ensures forall s, d :: After(s, r, segments[..0], d) == s
    ensures forall d :: !FallsOn(segments[..0], d)
  {}

  function MonthAt(months: map<int, Sums>, m: int): Sums { if m in months then months[m] else Empty(0.0) }

  lemma MonthStep(z: Zone, monthOf: int -> int, rows: seq<DayRow>, row: DayRow, m: int)
    ensures MonthSums(z, monthOf, rows + [row], m)
            == if monthOf(row.day) == m then AddDay(MonthSums(z, monthOf, rows, m), row, DayMinutes(z, row.day))
               else MonthSums(z, monthOf, rows, m)
  {
    assert (rows + [row])[..|rows|] == rows;
  }

  function RowFor(day: int, s: Sums): DayRow { DayRow(day, s.energy, s.peak, s.productive, Coverage(s)) }

  /** A month has sums if and only if one of its days has been written. */
  ghost predicate MonthsOf(monthOf: int -> int, daily: map<int, DayRow>, months: map<int, Sums>) {
    forall m :: m in months <==> exists d :: d in daily && monthOf(d) == m
  }

  lemma MonthsOfStep(monthOf: int -> int, daily: map<int, DayRow>, months: map<int, Sums>, key: int, row: DayRow, s: Sums)
    requires MonthsOf(monthOf, daily, months)
    ensures MonthsOf(monthOf, daily[key := row], months[monthOf(key) := s])
  {
    var written := daily[key := row];
    assert key in written;
    assert forall d :: d in written <==> d in daily || d == key;
  }

  lemma MonthSumsStep(z: Zone, monthOf: int -> int, months: map<int, Sums>, written: seq<DayRow>, row: DayRow)
    requires forall m :: MonthAt(months, m) == MonthSums(z, monthOf, written, m)
    ensures var m0 := monthOf(row.day);
            var more := months[m0 := AddDay(MonthAt(months, m0), row, DayMinutes(z, row.day))];
            forall m :: MonthAt(more, m) == MonthSums(z, monthOf, written + [row], m)
  {
    hide MonthSums, AddDay;
    var m0 := monthOf(row.day);
    var more := months[m0 := AddDay(MonthAt(months, m0), row, DayMinutes(z, row.day))];
    forall m ensures MonthAt(more, m) == MonthSums(z, monthOf, written + [row], m) {
      MonthStep(z, monthOf, written, row, m);
    }
  }

  /** Writing the days in order, collecting the months' sums. */
  method WriteDays(z: Zone, monthOf: int -> int, days: map<int, Sums>) returns (daily: map<int, DayRow>, months: map<int, Sums>)
    requires forall d :: d in days ==> days[d].minutes == DayMinutes(z, d)
    ensures daily.Keys == days.Keys && forall d :: d in daily ==> daily[d] == RowFor(d, days[d])
    ensures MonthsOf(monthOf, daily, months)
    ensures forall m :: MonthAt(months, m) == MonthSums(z, monthOf, InOrder(daily), m)
  {
    hide MonthSums, Ascending, DayMinutes, Coverage, AddDay, InOrder, MonthsOf, MonthAt;
    daily, months := map[], map[];
    var keys := SortKeys(days.Keys);
    AscendingRises(days.Keys);
    NoDays(z, monthOf);
    ghost var written: seq<DayRow> := [];
    for i := 0 to |keys|
      invariant forall d :: d in daily <==> d in keys[..i]
      invariant forall d :: d in daily ==> d in days && daily[d] == RowFor(d, days[d])
      invariant |written| == i && forall j :: 0 <= j < i ==> keys[j] in days && written[j] == RowFor(keys[j], days[keys[j]])
      invariant MonthsOf(monthOf, daily, months)
      invariant forall m :: MonthAt(months, m) == MonthSums(z, monthOf, written, m)
    {
      var key := keys[i];
      assert key in keys && keys[..i + 1] == keys[..i] + [key];
      var day := days[key];
      var row := RowFor(key, day);
      var monthKey := monthOf(key);
      var month := AddDay(MonthAt(months, monthKey), row, day.minutes);
      MonthsOfStep(monthOf, daily, months, key, row, month);
      MonthSumsStep(z, monthOf, months, written, row);
      daily, months, written := daily[key := row], months[monthKey := month], written + [row];
    }
    assert keys[..|keys|] == keys;
    SameKeys(daily, days);
    InOrderIs(daily, keys, written);
  }

  lemma NoDays(z: Zone, monthOf: int -> int)
    ensures MonthsOf(monthOf, map[], map[])
    ensures forall m :: MonthAt(map[], m) == MonthSums(z, monthOf, [], m) == Empty(0.0)
  {}

  lemma InOrderIs<T>(table: map<int, T>, keys: seq<int>, written: seq<T>)
    requires keys == Ascending(table.Keys) && |written| == |keys|
    requires forall i :: 0 <= i < |keys| ==> keys[i] in table && written[i] == table[keys[i]]
    ensures InOrder(table) == written
  {}

  method WriteMonths(months: map<int, Sums>) returns (monthly: map<int, MonthRow>)
    ensures monthly.Keys == months.Keys
    ensures forall m :: m in monthly ==> var s := months[m]; monthly[m] == MonthRow(m, s.energy, s.peak, s.productive, Coverage(s))
  {
    hide Coverage, Ascending;
    monthly := map[];
    var keys := SortKeys(months.Keys);
    AscendingRises(months.Keys);
    for i := 0 to |keys|
      invariant forall m :: m in monthly <==> m in keys[..i]
      invariant forall m :: m in monthly ==>
                  m in months && var s := months[m]; monthly[m] == MonthRow(m, s.energy, s.peak, s.productive, Coverage(s))
    {
      var key := keys[i];
      assert key in keys && keys[..i + 1] == keys[..i] + [key];
      var s := months[key];
      monthly := monthly[key := MonthRow(key, s.energy, s.peak, s.productive, Coverage(s))];
    }
    assert keys[..|keys|] == keys;
    SameKeys(monthly, months);
  }

  lemma SameKeys<A, B>(a: map<int, A>, b: map<int, B>)
    requires forall k :: k in a <==> k in b
    ensures a.Keys == b.Keys
  {
    var x, y := a.Keys, b.Keys;
    assert forall k :: k in x <==> k in y;
    assert x == y;
  }

  lemma {:induction false} AfterKeepsMinutes(s: Sums, r: HourRow, segments: seq<Segment>, d: int)
    ensures After(s, r, segments, d).minutes == s.minutes
    decreases |segments|
  {
    if segments != [] {
      AfterKeepsMinutes(s, r, segments[..|segments| - 1], d);
    }
  }

  lemma {:induction false} DayLength(z: Zone, rows: seq<HourRow>, d: int)
    requires Cuts(z, rows)
    ensures DaySums(z, rows, d).minutes == DayMinutes(z, d)
    decreases |rows|
  {
    hide After, SegmentsOf, Cut;
    if rows != [] {
      var n := |rows| - 1;
      DayLength(z, rows[..n], d);
      AfterKeepsMinutes(DaySums(z, rows[..n], d), rows[n], SegmentsOf(z, rows[n]), d);
    }
  }

  // ----- the tables

  class Repository {
    var zone: Zone
    var monthOf: int -> int
    var hourly: seq<HourRow>
    var minutes: seq<MinuteRow>
    var daily: map<int, DayRow>
    var monthly: map<int, MonthRow>

    constructor (zone: Zone, monthOf: int -> int, hourly: seq<HourRow>, minutes: seq<MinuteRow>)
      ensures this.zone == zone && this.monthOf == monthOf && this.hourly == hourly && this.minutes == minutes
      ensures daily == map[] && monthly == map[]
    {
      this.zone, this.monthOf, this.hourly, this.minutes := zone, monthOf, hourly, minutes;
      daily, monthly := map[], map[];
    }

    method AggregateDay(from: int, to: int, asRead: seq<HourRow>) returns (ok: bool, row: DayRow)
      requires multiset(asRead) == multiset(hourly)
      modifies this`daily
      ensures ok <==> from < to
      ensures !ok ==> daily == old(daily)
      ensures ok ==> row == DayScan(hourly, minutes, zone.dayOf(from), from, to) && daily == old(daily)[row.day := row]
    {
      hide Scan, Part, Minutes, Overlap;
      row := DayRow(zone.dayOf(from), 0.0, 0.0, 0, 0.0);
      if !(from < to) {
        return false, row;
      }
      var s := ScanHours(asRead, from, to);
      ScanAnyOrder(asRead, hourly, from, to);
      var productive := CountProductive(from, to);
      row := DayRow(row.day, s.energy, s.peak, productive, Coverage(s));
      daily := daily[row.day := row];
      ok := true;
    }

    method CountProductive(from: int, to: int) returns (n: int)
      ensures n == ProductiveMinutes(minutes, from, to)
    {
      var live, cloud := 0, 0;
      for i := 0 to |minutes|
        invariant live + cloud * CLOUD_SAMPLE_MINUTES == ProductiveMinutes(minutes[..i], from, to)
      {
        assert minutes[..i + 1][..i] == minutes[..i];
        if Counts(minutes[i], from, to) {
          if minutes[i].cloudHistory { cloud := cloud + 1; } else { live := live + 1; }
        }
      }
      assert minutes[..|minutes|] == minutes;
      n := live + cloud * CLOUD_SAMPLE_MINUTES;
    }

    method AggregateMonth(inMonth: int) returns (row: MonthRow)
      modifies this`monthly
      ensures row == MonthRowOf(zone, monthOf, InOrder(daily), monthOf(zone.dayOf(inMonth)))
      ensures monthly == old(monthly)[row.month := row]
    {
      hide MonthSums, Ascending, InOrder, AddDay;
      var month := monthOf(zone.dayOf(inMonth));
      var keys := SortKeys(daily.Keys);
      AscendingRises(daily.Keys);
      NoDays(zone, monthOf);
      var s := Empty(0.0);
      ghost var selected: seq<DayRow> := [];
      for i := 0 to |keys|
        invariant daily == old(daily) && monthly == old(monthly)
        invariant |selected| == i && forall j :: 0 <= j < i ==> keys[j] in daily && selected[j] == daily[keys[j]]
        invariant s == MonthSums(zone, monthOf, selected, month)
      {
        assert keys[i] in keys;
        var day := daily[keys[i]];
        if monthOf(day.day) == month {
          s := AddDay(s, day, Minutes(zone.end(day.day) - zone.start(day.day)));
        }
        MonthStep(zone, monthOf, selected, day, month);
        selected := selected + [day];
      }
      InOrderIs(daily, keys, selected);
      row := MonthRow(month, s.energy, s.peak, s.productive, Coverage(s));
      monthly := monthly[month := row];
    }

    /**
      Both tables are replaced. All it takes is that the loop cutting each hour ends; when local days tile
      time, the days are those the hours overlap and each holds what a scan of that day finds.
     */
    method RebuildCalendar(asRead: seq<HourRow>)
      requires Cuts(zone, asRead) && multiset(asRead) == multiset(hourly)
      modifies this`daily, this`monthly
      ensures IsRebuild(zone, monthOf, asRead, daily, monthly)
      ensures Proper(zone) ==>
                forall d :: (d in daily <==> Touched(zone, asRead, d)) &&
                            (d in daily ==> Agrees(daily[d], DayScan(hourly, minutes, d, zone.start(d), zone.start(d + 1))))
    {
      hide *;
      var days := CollectDays(zone, asRead);
      CollectedDays(zone, asRead, days);
      var newDaily, months := WriteDays(zone, monthOf, days);
      var newMonthly := WriteMonths(months);
      daily, monthly := newDaily, newMonthly;
      RebuildIs(zone, monthOf, asRead, days, months, daily, monthly);
      if Proper(zone) {
        forall d ensures d in daily <==> Touched(zone, asRead, d)
                 ensures d in daily ==> Agrees(daily[d], DayScan(hourly, minutes, d, zone.start(d), zone.start(d + 1)))
        {
          HasSegmentsIffTouched(zone, asRead, d);
          RebuiltDayAgrees(zone, asRead, hourly, minutes, d);
        }
      }
    }
  }

  lemma CollectedDays(z: Zone, rows: seq<HourRow>, days: map<int, Sums>)
    requires Cuts(z, rows) && forall d :: At(z, days, d) == DaySums(z, rows, d)
    ensures forall d :: d in days ==> days[d] == DaySums(z, rows, d) && days[d].minutes == DayMinutes(z, d)
  {
    hide DaySums, Cuts, DayMinutes;
    forall d | d in days ensures days[d] == DaySums(z, rows, d) && days[d].minutes == DayMinutes(z, d) {
      assert At(z, days, d) == DaySums(z, rows, d);
      DayLength(z, rows, d);
    }
  }

  lemma RebuildIs(z: Zone, monthOf: int -> int, rows: seq<HourRow>, days: map<int, Sums>, months: map<int, Sums>,
                  daily: map<int, DayRow>, monthly: map<int, MonthRow>)
    requires Cuts(z, rows)
    requires forall d :: d in days <==> HasSegments(z, rows, d)
    requires forall d :: d in days ==> days[d] == DaySums(z, rows, d)
    requires daily.Keys == days.Keys && forall d :: d in daily ==> daily[d] == RowFor(d, days[d])
    requires MonthsOf(monthOf, daily, months)
    requires forall m :: MonthAt(months, m) == MonthSums(z, monthOf, InOrder(daily), m)
    requires monthly.Keys == months.Keys
    requires forall m :: m in monthly ==> var s := months[m]; monthly[m] == MonthRow(m, s.energy, s.peak, s.productive, Coverage(s))
    ensures IsRebuild(z, monthOf, rows, daily, monthly)
    ensures forall d :: d in daily ==> daily[d] == DayRowOf(z, rows, d)
    ensures forall d :: d in daily <==> HasSegments(z, rows, d)
  {
    hide HasSegments, DaySums, MonthSums, Coverage, Cuts, InOrder;
    assert forall d :: d in daily <==> d in days;
    assert forall m :: m in monthly <==> m in months;
    forall d | d in daily ensures daily[d] == DayRowOf(z, rows, d) {
      assert d in days;
    }
    forall m | m in monthly ensures monthly[m] == MonthRowOf(z, monthOf, InOrder(daily), m) {
      assert months[m] == MonthAt(months, m);
    }
  }

  function Portion(energy: real, overlap: int, whole: int): real
    requires whole != 0
  {
    energy * overlap as real / whole as real
  }

  lemma PortionIsPart(energy: real, overlap: int)
    ensures Portion(energy, overlap, HOUR) == Part(energy, overlap)
  {}

  lemma ScanStep(rows: seq<HourRow>, i: nat, from: int, to: int)
    requires i < |rows|
    ensures var hour := rows[i];
            var overlap := Min(to, hour.at + HOUR) - Max(from, hour.at);
            Scan(rows[..i + 1], from, to)
            == if overlap > 0 then Add(Scan(rows[..i], from, to), hour, overlap, 0) else Scan(rows[..i], from, to)
  {
    hide Add, Minutes;
    assert rows[..i + 1][..i] == rows[..i];
  }

  method ScanHours(rows: seq<HourRow>, from: int, to: int) returns (s: Sums)
    requires from < to
    ensures s == Scan(rows, from, to)
  {
    hide Part, Portion, Minutes, Scan;
    s := Empty(Minutes(to - from));
    NoHours(from, to);
    for i := 0 to |rows|
      invariant s == Scan(rows[..i], from, to)
    {
      var hour := rows[i];
      var hourEnd := hour.at + HOUR;
      ScanStep(rows, i, from, to);
      if hour.at < to && hourEnd > from {
        var overlap := Min(to, hourEnd) - Max(from, hour.at);
        if overlap > 0 {
          PortionIsPart(hour.energy, overlap);
          s := s.(energy := s.energy + Portion(hour.energy, overlap, hourEnd - hour.at),
                  peak := MaxReal(s.peak, hour.peak), weight := s.weight + hour.coverage * Minutes(overlap));
        }
      }
    }
    assert rows[..|rows|] == rows;
  }

  lemma NoHours(from: int, to: int)
    ensures Scan([], from, to) == Empty(Minutes(to - from))
  {}
}
