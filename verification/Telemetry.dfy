/**
  Minute telemetry: the merging upsert of `SaveMinute` in `internal/storage/telemetry.go`
  and the coalescing loop of `internal/collector/collector.go` above it.

  Instants are nanoseconds since the zero time, which is 0; a minute is named by its start.
 */
module Telemetry {
  import opened Common

  const MINUTE: nat := 60_000_000_000

  /** The columns that always come from one and the same snapshot. */
  datatype Reading = Reading(acPower: real, energyToday: real,
                             pv1Voltage: real, pv1Current: real, pv1Power: real,
                             pv2Active: bool, pv2Voltage: real, pv2Current: real, pv2Power: real,
                             gridVoltage: real, gridFrequency: real, status: string, faults: seq<nat>)

  datatype Snapshot = Snapshot(observedAt: nat, lifetime: real, reading: Reading)

  /** A row of the minute table has the same columns, `observedAt` being the source time of its reading. */
  type Row = Snapshot

  type Table = map<nat, Row>

  datatype EventRow = EventRow(at: nat, kind: string, snapshot: Snapshot)

  datatype Read = Success(snapshot: Snapshot) | Failed

  function MinuteOf(s: Snapshot): nat {
    s.observedAt - s.observedAt % MINUTE
  }

  // ----- the upsert

  /** Later source time wins the reading; the lifetime counter never goes back. */
  function Merge(row: Row, s: Snapshot): Row {
    Snapshot(if s.observedAt > row.observedAt then s.observedAt else row.observedAt,
             if s.lifetime > row.lifetime then s.lifetime else row.lifetime,
             if s.observedAt > row.observedAt then s.reading else row.reading)
  }

  /** A snapshot without an observation time is refused. */
  function Save(t: Table, s: Snapshot): Table {
    if s.observedAt == ZERO_TIME then t
    else if MinuteOf(s) in t then t[MinuteOf(s) := Merge(t[MinuteOf(s)], s)]
    else t[MinuteOf(s) := s]
  }

  function SaveAll(t: Table, s: seq<Snapshot>): Table {
    if s == [] then t else Save(SaveAll(t, s[..|s| - 1]), s[|s| - 1])
  }

  // ----- coalescing

  datatype Progress = Progress(table: Table, pending: Option<Snapshot>)

  /** The one of two snapshots of a minute that is kept: the later, the second on a tie. */
  function Latest(p: Snapshot, s: Snapshot): Snapshot {
    if s.observedAt < p.observedAt then p else s
  }

  function Take(a: Progress, s: Snapshot): Progress {
    match a.pending
    case None => Progress(a.table, Some(s))
    case Some(p) =>
      if MinuteOf(p) != MinuteOf(s) then Progress(Save(a.table, p), Some(s))
      else Progress(a.table, Some(Latest(p, s)))
  }

  function TakeAll(t: Table, s: seq<Snapshot>): Progress {
    if s == [] then Progress(t, None) else Take(TakeAll(t, s[..|s| - 1]), s[|s| - 1])
  }

  function Flush(a: Progress): Table {
    if a.pending.Some? then Save(a.table, a.pending.value) else a.table
  }

  function Snapshots(answers: seq<Read>): seq<Snapshot> {
    if answers == [] then []
    else
      var earlier, r := Snapshots(answers[..|answers| - 1]), answers[|answers| - 1];
      if r.Success? then earlier + [r.snapshot] else earlier
  }

  // ----- change events

  predicate SameFaults(a: seq<nat>, b: seq<nat>) { multiset(a) == multiset(b) }

  function EventAt(s: Snapshot, now: nat): nat {
    if s.observedAt == ZERO_TIME then now else s.observedAt
  }

  /** The row of one change, if there is one and the store takes it. */
  function Change(changed: bool, at: nat, kind: string, s: Snapshot): seq<EventRow> {
    if changed && at != ZERO_TIME then [EventRow(at, kind, s)] else []
  }

  /** What a snapshot adds to the event log; `up` says of each kind whether the store takes a row of it now. */
  function ChangesFrom(previous: Option<Snapshot>, s: Snapshot, now: nat, up: string -> bool): seq<EventRow> {
    if previous.None? then []
    else
      var p, at := previous.value.reading, EventAt(s, now);
      Change(p.status != s.reading.status && up("status_change"), at, "status_change", s) +
      Change(!SameFaults(p.faults, s.reading.faults) && up("fault_change"), at, "fault_change", s)
  }

  function LastSnapshot(answers: seq<Read>): Option<Snapshot> {
    if answers == [] then None
    else if answers[|answers| - 1].Success? then Some(answers[|answers| - 1].snapshot)
    else LastSnapshot(answers[..|answers| - 1])
  }

  function Events(answers: seq<Read>, clock: nat -> nat, up: (nat, string) -> bool): seq<EventRow> {
    if answers == [] then []
    else
      var n := |answers| - 1;
      Events(answers[..n], clock, up) +
      (if answers[n].Success?
       then ChangesFrom(LastSnapshot(answers[..n]), answers[n].snapshot, clock(n), kind => up(n, kind))
       else [])
  }

  // ----- what is really saved

  /** The snapshots the collector hands to the store, in order: one for each stretch of snapshots of one minute. */
  function Kepts(s: seq<Snapshot>): seq<Snapshot> {
    if s == [] then []
    else
      var k, x := Kepts(s[..|s| - 1]), s[|s| - 1];
      if k != [] && MinuteOf(k[|k| - 1]) == MinuteOf(x) then k[..|k| - 1] + [Latest(k[|k| - 1], x)] else k + [x]
  }

  /** Saving those the store takes; `up(k)` says whether it takes the one at `k`. */
  function SaveTaken(t: Table, s: seq<Snapshot>, up: nat -> bool): Table {
    if s == [] then t
    else
      var n := |s| - 1;
      if up(n) then Save(SaveTaken(t, s[..n], up), s[n]) else SaveTaken(t, s[..n], up)
  }

  class Store {
    var minutes: Table
    var events: seq<EventRow>

    constructor ()
      ensures minutes == map[] && events == []
    {
      minutes, events := map[], [];
    }

    /** `up` is whether the database carries out the statement. */
    method SaveMinute(s: Snapshot, up: bool) returns (ok: bool)
      modifies this`minutes
      ensures ok == (s.observedAt != ZERO_TIME && up) && minutes == if up then Save(old(minutes), s) else old(minutes)
    {
      if s.observedAt == ZERO_TIME || !up {
        return false;
      }
      var minute := s.observedAt - s.observedAt % MINUTE;
      if minute in minutes {
        var row := minutes[minute];
        var newer := s.observedAt > row.observedAt;
        minutes := minutes[minute := Snapshot(if newer then s.observedAt else row.observedAt,
                                              if s.lifetime > row.lifetime then s.lifetime else row.lifetime,
                                              if newer then s.reading else row.reading)];
      } else {
        minutes := minutes[minute := s];
      }
      ok := true;
    }

    method SaveEvent(at: nat, kind: string, s: Snapshot, up: bool) returns (ok: bool)
      modifies this`events
      ensures ok == (at != ZERO_TIME && up) && events == old(events) + Change(up, at, kind, s)
    {
      if at == ZERO_TIME || !up {
        return false;
      }
      events := events + [EventRow(at, kind, s)];
      ok := true;
    }
  }

  class Collector {
    const store: Store

    constructor (store: Store)
      ensures this.store == store
    {
      this.store := store;
    }

    /**
      Reads until cancelled; the answers are the inverter's, the clock what it was at each of them.
      The store may fail: `minuteUp(k)` is whether it takes the k-th minute it is handed,
      `eventUp(i, kind)` whether it takes an event of that kind at the i-th answer.
     */
    method Run(answers: seq<Read>, clock: nat -> nat, minuteUp: nat -> bool, eventUp: (nat, string) -> bool)
      modifies store
      ensures store.minutes == SaveTaken(old(store.minutes), Kepts(Snapshots(answers)), minuteUp)
      ensures (forall k :: minuteUp(k)) ==> store.minutes == Flush(TakeAll(old(store.minutes), Snapshots(answers)))
      ensures (forall k :: minuteUp(k)) && AllCoherent(Snapshots(answers)) ==>
                store.minutes == SaveAll(old(store.minutes), Snapshots(answers))
      ensures store.events == old(store.events) + Events(answers, clock, eventUp)
    {
      hide Save, MinuteOf, SameFaults, Kepts, SaveTaken, Snapshots, LastSnapshot, Events, ChangesFrom, AllCoherent, TakeAll, Waiting;
      ghost var before := store.minutes;
      var pending: Option<Snapshot>, previous: Option<Snapshot> := None, None;
      var handed := 0;
      NoAnswers(before, clock, minuteUp, eventUp);
      for i := 0 to |answers|
        invariant Waiting(before, Kepts(Snapshots(answers[..i])), minuteUp, store.minutes, pending, handed)
        invariant previous == LastSnapshot(answers[..i])
        invariant store.events == old(store.events) + Events(answers[..i], clock, eventUp)
      {
        OneMoreAnswer(answers, clock, eventUp, i);
        if answers[i].Success? {
          var snapshot := answers[i].snapshot;
          TakenNext(before, Snapshots(answers[..i]), snapshot, minuteUp, store.minutes, pending, handed);
          if pending.Some? && MinuteOf(pending.value) != MinuteOf(snapshot) {
            var _ := store.SaveMinute(pending.value, minuteUp(handed));
            handed := handed + 1;
            pending := None;
          }
          if pending.None? || !(snapshot.observedAt < pending.value.observedAt) {
            pending := Some(snapshot);
          }
          if previous.Some? {
            RecordChanges(previous.value, snapshot, clock(i), kind => eventUp(i, kind));
          }
          previous := Some(snapshot);
        }
      }
      assert answers[..|answers|] == answers;
      AllHanded(before, Snapshots(answers), minuteUp, store.minutes, pending, handed);
      if pending.Some? {
        var _ := store.SaveMinute(pending.value, minuteUp(handed));
      }
      if forall k :: minuteUp(k) {
        AllTaken(before, Snapshots(answers), minuteUp);
      }
    }

    method RecordChanges(previous: Snapshot, snapshot: Snapshot, now: nat, up: string -> bool)
      modifies store`events
      ensures store.events == old(store.events) + ChangesFrom(Some(previous), snapshot, now, up)
    {
      var at := if snapshot.observedAt == ZERO_TIME then now else snapshot.observedAt;
      if previous.reading.status != snapshot.reading.status {
        var _ := store.SaveEvent(at, "status_change", snapshot, up("status_change"));
      }
      if !SameFaults(previous.reading.faults, snapshot.reading.faults) {
        var _ := store.SaveEvent(at, "fault_change", snapshot, up("fault_change"));
      }
    }
  }

  /** All but the last kept snapshot have been handed over, and the last is pending. */
  ghost predicate Waiting(before: Table, kept: seq<Snapshot>, up: nat -> bool, minutes: Table, pending: Option<Snapshot>, handed: nat) {
    if kept == [] then pending == None && handed == 0 && minutes == before
    else pending == Some(kept[|kept| - 1]) && handed == |kept| - 1 && minutes == SaveTaken(before, kept[..|kept| - 1], up)
  }

  lemma SaveTakenStep(before: Table, kept: seq<Snapshot>, x: Snapshot, up: nat -> bool)
    ensures SaveTaken(before, kept + [x], up)
            == if up(|kept|) then Save(SaveTaken(before, kept, up), x) else SaveTaken(before, kept, up)
  {
    hide Save;
    assert (kept + [x])[..|kept|] == kept;
  }

  /** What one more snapshot does to the pending one and to the table. */
  lemma TakenNext(before: Table, s: seq<Snapshot>, x: Snapshot, up: nat -> bool, minutes: Table, pending: Option<Snapshot>, handed: nat)
    requires Waiting(before, Kepts(s), up, minutes, pending, handed)
    ensures var over := pending.Some? && MinuteOf(pending.value) != MinuteOf(x);
            Waiting(before, Kepts(s + [x]), up,
                    if over && up(handed) then Save(minutes, pending.value) else minutes,
                    Some(if over || pending.None? || !(x.observedAt < pending.value.observedAt) then x else pending.value),
                    if over then handed + 1 else handed)
  {
    hide Save, MinuteOf, Kepts, SaveTaken;
    OneMoreKept(s, x);
    var k := Kepts(s);
    if k != [] {
      var n := |k| - 1;
      SaveTakenStep(before, k[..n], k[n], up);
      assert k[..n] + [k[n]] == k;
      assert (k[..n] + [Latest(k[n], x)])[..n] == k[..n];
    } else {
      SaveNone(before, up);
    }
  }

  lemma SaveNone(before: Table, up: nat -> bool)
    ensures SaveTaken(before, [], up) == before
  {}

  /** Handing over the last one leaves the table that saving the kept ones builds. */
  lemma AllHanded(before: Table, s: seq<Snapshot>, up: nat -> bool, minutes: Table, pending: Option<Snapshot>, handed: nat)
    requires Waiting(before, Kepts(s), up, minutes, pending, handed)
    ensures SaveTaken(before, Kepts(s), up)
            == if pending.Some? && up(handed) then Save(minutes, pending.value) else minutes
  {
    hide Save, MinuteOf, Kepts, SaveTaken;
    SaveNone(before, up);
    var k := Kepts(s);
    if k != [] {
      SaveTakenStep(before, k[..|k| - 1], k[|k| - 1], up);
      assert k[..|k| - 1] + [k[|k| - 1]] == k;
    }
  }

  lemma OneMoreKept(s: seq<Snapshot>, x: Snapshot)
    ensures var k := Kepts(s);
            if k != [] && MinuteOf(k[|k| - 1]) == MinuteOf(x)
            then Kepts(s + [x]) == k[..|k| - 1] + [Latest(k[|k| - 1], x)]
            else Kepts(s + [x]) == k + [x] && (k + [x])[..|k|] == k
  {
    hide MinuteOf;
    assert (s + [x])[..|s|] == s;
  }

  lemma {:induction false} TakenIsSaved(t: Table, s: seq<Snapshot>, up: nat -> bool)
    requires forall k :: up(k)
    ensures SaveTaken(t, s, up) == SaveAll(t, s)
    decreases |s|
  {
    hide Save;
    if s != [] {
      TakenIsSaved(t, s[..|s| - 1], up);
    }
  }

  lemma AllTaken(t: Table, s: seq<Snapshot>, up: nat -> bool)
    requires forall k :: up(k)
    ensures SaveTaken(t, Kepts(s), up) == Flush(TakeAll(t, s))
    ensures AllCoherent(s) ==> SaveTaken(t, Kepts(s), up) == SaveAll(t, s)
  {
    hide Kepts, TakeAll, SaveAll, AllCoherent, Flush;
    TakenIsSaved(t, Kepts(s), up);
    FlushedIsKepts(t, s);
    if AllCoherent(s) {
      CoalescingLosesNothing(t, s);
    }
  }

  lemma NoAnswers(t: Table, clock: nat -> nat, minuteUp: nat -> bool, eventUp: (nat, string) -> bool)
    ensures Waiting(t, Kepts(Snapshots([])), minuteUp, t, None, 0)
    ensures LastSnapshot([]) == None && Events([], clock, eventUp) == []
  {}

  lemma OneMoreAnswer(answers: seq<Read>, clock: nat -> nat, up: (nat, string) -> bool, i: nat)
    requires i < |answers|
    ensures var before, after := answers[..i], answers[..i + 1];
            if answers[i].Success? then
              var s := answers[i].snapshot;
              Snapshots(after) == Snapshots(before) + [s] && LastSnapshot(after) == Some(s) &&
              Events(after, clock, up) == Events(before, clock, up) + ChangesFrom(LastSnapshot(before), s, clock(i), kind => up(i, kind))
            else
              Snapshots(after) == Snapshots(before) && LastSnapshot(after) == LastSnapshot(before) &&
              Events(after, clock, up) == Events(before, clock, up)
    ensures answers[i].Success? ==> ChangesFrom(None, answers[i].snapshot, clock(i), kind => up(i, kind)) == []
  {
    hide SameFaults, Change;
    assert answers[..i + 1][..i] == answers[..i];
  }

  // ----- coalescing against saving every snapshot

  /** Nothing is lost by keeping only the later of two snapshots of a minute. */
  predicate Coherent(p: Snapshot, s: Snapshot) {
    p.observedAt == ZERO_TIME || s.observedAt == ZERO_TIME || MinuteOf(p) != MinuteOf(s) ||
    if p.observedAt < s.observedAt then p.lifetime <= s.lifetime
    else if s.observedAt < p.observedAt then s.lifetime <= p.lifetime
    else p.lifetime <= s.lifetime && p.reading == s.reading
  }

  ghost predicate AllCoherent(s: seq<Snapshot>) {
    forall i, j :: 0 <= i < j < |s| ==> Coherent(s[i], s[j])
  }

  lemma LatestStandsForBoth(t: Table, p: Snapshot, s: Snapshot)
    requires MinuteOf(p) == MinuteOf(s) && Coherent(p, s)
    ensures Save(Save(t, p), s) == Save(t, Latest(p, s))
  {
    hide MinuteOf;
  }

  /** For two snapshots of one minute the condition is exact: it holds if and only if every table comes out the same. */
  lemma CoalescingIsExact(p: Snapshot, s: Snapshot)
    requires MinuteOf(p) == MinuteOf(s)
    ensures Coherent(p, s) <==> forall t: Table :: Save(Save(t, p), s) == Save(t, Latest(p, s))
  {
    hide MinuteOf;
    if Coherent(p, s) {
      forall t: Table ensures Save(Save(t, p), s) == Save(t, Latest(p, s)) {
        LatestStandsForBoth(t, p, s);
      }
    } else {
      var none: Table := map[];
      assert Save(Save(none, p), s)[MinuteOf(s)] == Merge(p, s);
      assert Save(none, Latest(p, s))[MinuteOf(s)] == Latest(p, s);
      assert Save(Save(none, p), s) != Save(none, Latest(p, s));
    }
  }

  lemma {:induction false} PendingIsOneOf(t: Table, s: seq<Snapshot>)
    ensures TakeAll(t, s).pending.Some? <==> s != []
    ensures s != [] ==> TakeAll(t, s).pending.value in s
    decreases |s|
  {
    hide Save, MinuteOf;
    if s != [] {
      PendingIsOneOf(t, s[..|s| - 1]);
    }
  }

  /** The collector's table is the table that saving every snapshot would have built. */
  lemma {:induction false} CoalescingLosesNothing(t: Table, s: seq<Snapshot>)
    requires AllCoherent(s)
    ensures Flush(TakeAll(t, s)) == SaveAll(t, s)
    decreases |s|
  {
    hide Save, MinuteOf, Coherent;
    if s != [] {
      var n := |s| - 1;
      CoalescingLosesNothing(t, s[..n]);
      PendingIsOneOf(t, s[..n]);
      var a := TakeAll(t, s[..n]);
      if a.pending.Some? {
        var p := a.pending.value;
        if MinuteOf(p) == MinuteOf(s[n]) {
          var i :| 0 <= i < n && s[i] == p;
          assert Coherent(s[i], s[n]);
          LatestStandsForBoth(a.table, p, s[n]);
        }
      }
    }
  }

  /** Distinct observation times with a lifetime counter that does not go back in time are enough. */
  lemma DistinctTimesAreCoherent(s: seq<Snapshot>)
    requires forall i, j :: 0 <= i < j < |s| ==> s[i].observedAt != s[j].observedAt
    requires forall i, j :: 0 <= i < |s| && 0 <= j < |s| && s[i].observedAt < s[j].observedAt ==> s[i].lifetime <= s[j].lifetime
    ensures AllCoherent(s)
  {
    hide MinuteOf;
  }

  // ----- exactly when a run of snapshots of one minute may be coalesced

  ghost predicate OneMinute(s: seq<Snapshot>, minute: nat) {
    s != [] && forall i :: 0 <= i < |s| ==> Counts(s[i], minute)
  }

  function Kept(s: seq<Snapshot>): Snapshot
    requires s != []
  {
    if |s| == 1 then s[0] else Latest(Kept(s[..|s| - 1]), s[|s| - 1])
  }

  function FirstAtLatest(s: seq<Snapshot>): Snapshot
    requires s != []
  {
    if |s| == 1 then s[0]
    else
      var f, x := FirstAtLatest(s[..|s| - 1]), s[|s| - 1];
      if x.observedAt > f.observedAt then x else f
  }

  function LargestLifetime(s: seq<Snapshot>): real
    requires s != []
  {
    if |s| == 1 then s[0].lifetime
    else
      var l, x := LargestLifetime(s[..|s| - 1]), s[|s| - 1].lifetime;
      if x > l then x else l
  }

  lemma {:induction false} KeptIsLatest(s: seq<Snapshot>, minute: nat)
    requires OneMinute(s, minute)
    ensures Kept(s).observedAt == FirstAtLatest(s).observedAt && Kept(s) in s
    decreases |s|
  {
    hide Counts;
    if |s| > 1 {
      KeptIsLatest(s[..|s| - 1], minute);
    }
  }

  lemma {:induction false} TakeMinute(t: Table, s: seq<Snapshot>, minute: nat)
    requires OneMinute(s, minute)
    ensures TakeAll(t, s) == Progress(t, Some(Kept(s))) && Counts(Kept(s), minute)
    decreases |s|
  {
    hide Save, MinuteOf;
    if |s| > 1 {
      TakeMinute(t, s[..|s| - 1], minute);
    }
  }

  lemma MergeAssociative(row: Row, p: Snapshot, s: Snapshot)
    ensures Merge(Merge(row, p), s) == Merge(row, Merge(p, s))
  {}

  lemma SameMinuteMerge(p: Snapshot, s: Snapshot, minute: nat)
    requires Counts(p, minute) && Counts(s, minute)
    ensures Counts(Merge(p, s), minute)
  {}

  lemma {:induction false} SaveMinuteAtOnce(t: Table, s: seq<Snapshot>, minute: nat)
    requires OneMinute(s, minute)
    ensures var sum := Snapshot(FirstAtLatest(s).observedAt, LargestLifetime(s), FirstAtLatest(s).reading);
            Counts(sum, minute) && SaveAll(t, s) == Save(t, sum)
    decreases |s|
  {
    hide MinuteOf;
    var n := |s| - 1;
    assert SaveAll(t, s) == Save(SaveAll(t, s[..n]), s[n]);
    if n > 0 {
      SaveMinuteAtOnce(t, s[..n], minute);
      var sum := Snapshot(FirstAtLatest(s[..n]).observedAt, LargestLifetime(s[..n]), FirstAtLatest(s[..n]).reading);
      SameMinuteMerge(sum, s[n], minute);
      if minute in t {
        MergeAssociative(t[minute], sum, s[n]);
      }
    } else {
      assert s == [s[0]];
    }
  }

  /**
    For a run of snapshots of one minute, keeping one gives every table what saving all gives it
    exactly when the kept one has the largest lifetime counter and the reading that was first at its time.
   */
  lemma MinuteCoalescingIsExact(s: seq<Snapshot>, minute: nat)
    requires OneMinute(s, minute)
    ensures (forall t: Table :: Flush(TakeAll(t, s)) == SaveAll(t, s)) <==>
              Kept(s).lifetime == LargestLifetime(s) && Kept(s).reading == FirstAtLatest(s).reading
  {
    hide MinuteOf, TakeAll, SaveAll, Kept, FirstAtLatest, LargestLifetime, Counts;
    KeptIsLatest(s, minute);
    var sum := Snapshot(FirstAtLatest(s).observedAt, LargestLifetime(s), FirstAtLatest(s).reading);
    forall t: Table ensures Flush(TakeAll(t, s)) == Save(t, Kept(s)) && SaveAll(t, s) == Save(t, sum) {
      TakeMinute(t, s, minute);
      SaveMinuteAtOnce(t, s, minute);
    }
    var none: Table := map[];
    TakeMinute(none, s, minute);
    SaveMinuteAtOnce(none, s, minute);
    SaveIntoNothing(Kept(s), sum, minute);
    assert Flush(TakeAll(none, s)) == Save(none, Kept(s)) && SaveAll(none, s) == Save(none, sum);
  }

  lemma SaveIntoNothing(p: Snapshot, s: Snapshot, minute: nat)
    requires Counts(p, minute) && Counts(s, minute)
    ensures Save(map[], p) == Save(map[], s) <==> p == s
  {
    hide MinuteOf;
    var none: Table := map[];
    assert Save(none, p)[minute] == p && Save(none, s)[minute] == s;
  }

  // ----- exactly when a whole read order may be coalesced

  /** All but the last kept snapshot have been saved, and the last is pending. */
  ghost predicate KeptsPending(t: Table, k: seq<Snapshot>, a: Progress) {
    a == if k == [] then Progress(t, None) else Progress(SaveAll(t, k[..|k| - 1]), Some(k[|k| - 1]))
  }

  lemma KeptsPendingStep(t: Table, s: seq<Snapshot>, x: Snapshot)
    requires KeptsPending(t, Kepts(s), TakeAll(t, s))
    ensures KeptsPending(t, Kepts(s + [x]), Take(TakeAll(t, s), x))
  {
    hide Save, MinuteOf, Kepts, SaveAll, TakeAll;
    OneMoreKept(s, x);
    var k := Kepts(s);
    if k != [] {
      var n := |k| - 1;
      assert k[..n] + [k[n]] == k;
      assert (k[..n] + [Latest(k[n], x)])[..n] == k[..n];
      SaveAllAppend(t, k[..n], k[n]);
    } else {
      SaveAllNone(t);
    }
  }

  lemma {:induction false} TakeAllKeeps(t: Table, s: seq<Snapshot>)
    ensures KeptsPending(t, Kepts(s), TakeAll(t, s))
    decreases |s|
  {
    if s != [] {
      var n := |s| - 1;
      assert TakeAll(t, s) == Take(TakeAll(t, s[..n]), s[n]);
      TakeAllKeeps(t, s[..n]);
      hide KeptsPending, Kepts, TakeAll, Take;
      assert s[..n] + [s[n]] == s;
      KeptsPendingStep(t, s[..n], s[n]);
    }
  }

  /** The collector saves the kept snapshots, one after the other. */
  lemma FlushedIsKepts(t: Table, s: seq<Snapshot>)
    ensures Flush(TakeAll(t, s)) == SaveAll(t, Kepts(s))
  {
    hide Save, Kepts, TakeAll, SaveAll;
    TakeAllKeeps(t, s);
    SaveAllNone(t);
    var k := Kepts(s);
    if k != [] {
      SaveAllAppend(t, k[..|k| - 1], k[|k| - 1]);
      assert k[..|k| - 1] + [k[|k| - 1]] == k;
    }
  }

  lemma SaveAllAppend(t: Table, s: seq<Snapshot>, x: Snapshot)
    ensures SaveAll(t, s + [x]) == Save(SaveAll(t, s), x)
  {
    hide Save;
    assert (s + [x])[..|s|] == s;
  }

  lemma SaveAllNone(t: Table)
    ensures SaveAll(t, []) == t
  {}

  /** Whatever the table held before, a minute's row is merged with the row the snapshots alone would build. */
  lemma {:induction false} RowFromAny(t: Table, s: seq<Snapshot>, minute: nat)
    ensures var all, alone := SaveAll(t, s), SaveAll(map[], s);
            && (minute in all <==> minute in t || minute in alone)
            && (minute in all ==>
                  all[minute] == if minute !in t then alone[minute]
                                 else if minute in alone then Merge(t[minute], alone[minute]) else t[minute])
    decreases |s|
  {
    hide Save, MinuteOf, Counts, Merge;
    if s != [] {
      var n := |s| - 1;
      RowFromAny(t, s[..n], minute);
      var before, alone := SaveAll(t, s[..n]), SaveAll(map[], s[..n]);
      SaveOne(before, s[n], minute);
      SaveOne(alone, s[n], minute);
      if minute in t && minute in alone {
        MergeAssociative(t[minute], alone[minute], s[n]);
      }
    }
  }

  lemma TablesAgreeIff(a: seq<Snapshot>, b: seq<Snapshot>)
    ensures (forall t: Table :: SaveAll(t, a) == SaveAll(t, b)) <==> SaveAll(map[], a) == SaveAll(map[], b)
  {
    hide SaveAll, Merge;
    if SaveAll(map[], a) == SaveAll(map[], b) {
      forall t: Table ensures SaveAll(t, a) == SaveAll(t, b) {
        forall minute ensures SameRow(SaveAll(t, a), SaveAll(t, b), minute) {
          RowFromAny(t, a, minute);
          RowFromAny(t, b, minute);
        }
        SameRows(SaveAll(t, a), SaveAll(t, b));
      }
    }
  }

  ghost predicate SameRow(x: Table, y: Table, minute: nat) {
    (minute in x <==> minute in y) && (minute in x ==> x[minute] == y[minute])
  }

  lemma SameRows(x: Table, y: Table)
    requires forall minute :: SameRow(x, y, minute)
    ensures x == y
  {
    assert forall minute :: minute in x <==> minute in y by {
      forall minute ensures minute in x <==> minute in y {
        assert SameRow(x, y, minute);
      }
    }
    forall minute | minute in x ensures x[minute] == y[minute] {
      assert SameRow(x, y, minute);
    }
  }

  /** The snapshots of one minute. */
  function Of(s: seq<Snapshot>, minute: nat): seq<Snapshot> {
    if s == [] then []
    else Of(s[..|s| - 1], minute) + if Counts(s[|s| - 1], minute) then [s[|s| - 1]] else []
  }

  /** What a minute's snapshots come to: the first reading at the latest time, and the largest lifetime counter. */
  function Summary(s: seq<Snapshot>): Snapshot
    requires s != []
  {
    Snapshot(FirstAtLatest(s).observedAt, LargestLifetime(s), FirstAtLatest(s).reading)
  }

  lemma SummaryStep(s: seq<Snapshot>, x: Snapshot)
    ensures s == [] ==> Summary(s + [x]) == x
    ensures s != [] ==> Summary(s + [x]) == Merge(Summary(s), x)
  {
    assert (s + [x])[..|s|] == s;
  }

  lemma {:induction false} RowIsSummary(s: seq<Snapshot>, minute: nat)
    ensures minute in SaveAll(map[], s) <==> Of(s, minute) != []
    ensures minute in SaveAll(map[], s) ==> SaveAll(map[], s)[minute] == Summary(Of(s, minute))
    decreases |s|
  {
    hide Save, MinuteOf, Counts, Merge, Summary;
    if s != [] {
      var n := |s| - 1;
      RowIsSummary(s[..n], minute);
      SaveOne(SaveAll(map[], s[..n]), s[n], minute);
      SummaryStep(Of(s[..n], minute), s[n]);
      assert Of(s[..n], minute) + [] == Of(s[..n], minute);
    }
  }

  function TimeIn(s: Snapshot, minute: nat): nat { if Counts(s, minute) then s.observedAt else 0 }

  function LatestTime(s: seq<Snapshot>, minute: nat): nat {
    if s == [] then 0
    else
      var earlier, x := LatestTime(s[..|s| - 1], minute), TimeIn(s[|s| - 1], minute);
      if x > earlier then x else earlier
  }

  lemma LatestTimeAppend(s: seq<Snapshot>, x: Snapshot, minute: nat)
    ensures LatestTime(s + [x], minute)
            == if TimeIn(x, minute) > LatestTime(s, minute) then TimeIn(x, minute) else LatestTime(s, minute)
  {
    hide TimeIn;
    assert (s + [x])[..|s|] == s;
  }

  lemma LatestHasLatestTime(p: Snapshot, s: Snapshot, minute: nat)
    requires MinuteOf(p) == MinuteOf(s)
    ensures TimeIn(Latest(p, s), minute) == if TimeIn(s, minute) > TimeIn(p, minute) then TimeIn(s, minute) else TimeIn(p, minute)
  {
    hide MinuteOf;
  }

  /** Coalescing never loses a minute's latest observation time. */
  lemma {:induction false} KeptsKeepTime(s: seq<Snapshot>, minute: nat)
    ensures LatestTime(Kepts(s), minute) == LatestTime(s, minute)
    decreases |s|
  {
    hide MinuteOf, TimeIn, Latest;
    if s != [] {
      var n := |s| - 1;
      KeptsKeepTime(s[..n], minute);
      var k := Kepts(s[..n]);
      if k != [] && MinuteOf(k[|k| - 1]) == MinuteOf(s[n]) {
        var last := k[|k| - 1];
        assert k == k[..|k| - 1] + [last];
        LatestTimeAppend(k[..|k| - 1], last, minute);
        LatestTimeAppend(k[..|k| - 1], Latest(last, s[n]), minute);
        LatestHasLatestTime(last, s[n], minute);
      } else {
        LatestTimeAppend(k, s[n], minute);
      }
    }
  }

  lemma {:induction false} LatestTimeOf(s: seq<Snapshot>, minute: nat)
    ensures Of(s, minute) != [] <==> LatestTime(s, minute) > 0
    ensures Of(s, minute) != [] ==> FirstAtLatest(Of(s, minute)).observedAt == LatestTime(s, minute)
    decreases |s|
  {
    hide MinuteOf;
    if s != [] {
      var n := |s| - 1;
      LatestTimeOf(s[..n], minute);
      var before := Of(s[..n], minute);
      assert before + [] == before && (before + [s[n]])[..|before|] == before;
    }
  }

  /** Of the snapshots of a minute, the kept ones have the largest lifetime counter and the first reading at the latest time. */
  ghost predicate StandFor(kept: seq<Snapshot>, all: seq<Snapshot>) {
    all != [] ==> kept != [] && LargestLifetime(kept) == LargestLifetime(all) && FirstAtLatest(kept).reading == FirstAtLatest(all).reading
  }

  /**
    For any read order, over any number of minutes and coming back to any of them: the collector's table is
    what saving every snapshot builds, from every table, if and only if in every minute the kept
    snapshots have the largest lifetime counter and the first reading at the latest time.
   */
  lemma CoalescingIsExactOverall(s: seq<Snapshot>)
    ensures (forall t: Table :: Flush(TakeAll(t, s)) == SaveAll(t, s)) <==>
            (forall minute :: StandFor(Of(Kepts(s), minute), Of(s, minute)))
  {
    hide SaveAll, TakeAll, Flush, Kepts, Of, StandFor;
    forall t: Table ensures Flush(TakeAll(t, s)) == SaveAll(t, Kepts(s)) {
      FlushedIsKepts(t, s);
    }
    TablesAgreeIff(Kepts(s), s);
    AloneAgreesIff(s);
    assert (forall t: Table :: Flush(TakeAll(t, s)) == SaveAll(t, s)) <==> (forall t: Table :: SaveAll(t, Kepts(s)) == SaveAll(t, s));
  }

  lemma AloneAgreesIff(s: seq<Snapshot>)
    ensures SaveAll(map[], Kepts(s)) == SaveAll(map[], s) <==>
            (forall minute :: StandFor(Of(Kepts(s), minute), Of(s, minute)))
  {
    hide SaveAll, Kepts, Of, StandFor, SameRow;
    if forall minute :: StandFor(Of(Kepts(s), minute), Of(s, minute)) {
      forall minute ensures SameRow(SaveAll(map[], Kepts(s)), SaveAll(map[], s), minute) {
        assert StandFor(Of(Kepts(s), minute), Of(s, minute));
        RowsAgreeIff(s, minute);
      }
      SameRows(SaveAll(map[], Kepts(s)), SaveAll(map[], s));
    } else {
      var minute :| !StandFor(Of(Kepts(s), minute), Of(s, minute));
      RowsAgreeIff(s, minute);
      SameTableSameRow(SaveAll(map[], s), minute);
    }
  }

  lemma SameTableSameRow(t: Table, minute: nat)
    ensures SameRow(t, t, minute)
  {}

  lemma RowsAgreeIff(s: seq<Snapshot>, minute: nat)
    ensures StandFor(Of(Kepts(s), minute), Of(s, minute)) <==> SameRow(SaveAll(map[], Kepts(s)), SaveAll(map[], s), minute)
  {
    hide SaveAll, Kepts, Of, LargestLifetime, FirstAtLatest, LatestTime;
    RowIsSummary(Kepts(s), minute);
    RowIsSummary(s, minute);
    KeptsKeepTime(s, minute);
    LatestTimeOf(Kepts(s), minute);
    LatestTimeOf(s, minute);
  }

  /** Two readings at one instant: saving both keeps the first, the collector keeps the second. */
  lemma TieLosesReading(first: Reading, second: Reading)
    requires first != second
    ensures var p, s := Snapshot(MINUTE, 1.0, first), Snapshot(MINUTE, 1.0, second);
            && SaveAll(map[], [p, s]) == map[MINUTE := p] && Flush(TakeAll(map[], [p, s])) == map[MINUTE := s]
            && SaveAll(map[], [p, s]) != Flush(TakeAll(map[], [p, s]))
  {
    var p, s := Snapshot(MINUTE, 1.0, first), Snapshot(MINUTE, 1.0, second);
    var both := [p, s];
    assert both[..1] == [p] && both[1] == s && [p][..0] == [];
    assert SaveAll(map[], [p]) == map[MINUTE := p];
    assert TakeAll(map[], [p]) == Progress(map[], Some(p));
    assert map[MINUTE := p][MINUTE] != map[MINUTE := s][MINUTE];
  }

  /** A lifetime counter that falls within a minute: saving both keeps the larger value, the collector the later. */
  lemma DipLosesLifetime(reading: Reading)
    ensures var p, s := Snapshot(MINUTE, 2.0, reading), Snapshot(MINUTE + 1, 1.0, reading);
            && SaveAll(map[], [p, s]) == map[MINUTE := Snapshot(MINUTE + 1, 2.0, reading)]
            && Flush(TakeAll(map[], [p, s])) == map[MINUTE := s]
            && SaveAll(map[], [p, s]) != Flush(TakeAll(map[], [p, s]))
  {
    var p, s := Snapshot(MINUTE, 2.0, reading), Snapshot(MINUTE + 1, 1.0, reading);
    var both := [p, s];
    assert both[..1] == [p] && both[1] == s && [p][..0] == [];
    assert SaveAll(map[], [p]) == map[MINUTE := p];
    assert TakeAll(map[], [p]) == Progress(map[], Some(p));
    assert map[MINUTE := Snapshot(MINUTE + 1, 2.0, reading)][MINUTE] != map[MINUTE := s][MINUTE];
  }

  // ----- what the table holds

  /** `row` is what a minute should show for these snapshots. */
  ghost predicate Summarises(row: Row, s: seq<Snapshot>, minute: nat) {
    && (forall i :: 0 <= i < |s| && Counts(s[i], minute) ==> s[i].observedAt <= row.observedAt && s[i].lifetime <= row.lifetime)
    && (exists i :: 0 <= i < |s| && Counts(s[i], minute) && s[i].observedAt == row.observedAt && s[i].reading == row.reading)
    && (exists i :: 0 <= i < |s| && Counts(s[i], minute) && s[i].lifetime == row.lifetime)
  }

  predicate Counts(s: Snapshot, minute: nat) {
    s.observedAt != ZERO_TIME && MinuteOf(s) == minute
  }

  /** Saved from empty, each minute shows its latest reading and its largest lifetime counter. */
  lemma {:induction false} SaveAllSummarises(s: seq<Snapshot>, minute: nat)
    ensures minute in SaveAll(map[], s) <==> exists i :: 0 <= i < |s| && Counts(s[i], minute)
    ensures minute in SaveAll(map[], s) ==> Summarises(SaveAll(map[], s)[minute], s, minute)
    decreases |s|
  {
    hide MinuteOf, Counts, Summarises;
    if s != [] {
      var n := |s| - 1;
      SaveAllSummarises(s[..n], minute);
      SaveOne(SaveAll(map[], s[..n]), s[n], minute);
      assert s == s[..n] + [s[n]];
      var t := SaveAll(map[], s[..n]);
      if minute in t {
        SummaryGrows(t[minute], s[..n], s[n], minute);
        var i :| 0 <= i < n && Counts(s[..n][i], minute);
        assert Counts(s[i], minute);
      } else if Counts(s[n], minute) {
        FirstSummary(s[..n], s[n], minute);
      }
    }
  }

  lemma SaveOne(t: Table, s: Snapshot, minute: nat)
    ensures Counts(s, minute) ==> minute in Save(t, s) && Save(t, s)[minute] == if minute in t then Merge(t[minute], s) else s
    ensures !Counts(s, minute) ==> (minute in Save(t, s) <==> minute in t) && (minute in t ==> Save(t, s)[minute] == t[minute])
  {
    hide MinuteOf;
  }

  lemma SummaryGrows(row: Row, s: seq<Snapshot>, x: Snapshot, minute: nat)
    requires Summarises(row, s, minute)
    ensures Summarises(if Counts(x, minute) then Merge(row, x) else row, s + [x], minute)
  {
    hide MinuteOf, Counts;
    var more := s + [x];
    var i :| 0 <= i < |s| && Counts(s[i], minute) && s[i].observedAt == row.observedAt && s[i].reading == row.reading;
    var j :| 0 <= j < |s| && Counts(s[j], minute) && s[j].lifetime == row.lifetime;
    assert more[i] == s[i] && more[j] == s[j] && more[|s|] == x;
    assert forall k :: 0 <= k < |s| ==> more[k] == s[k];
  }

  lemma FirstSummary(s: seq<Snapshot>, x: Snapshot, minute: nat)
    requires Counts(x, minute) && !exists i :: 0 <= i < |s| && Counts(s[i], minute)
    ensures Summarises(x, s + [x], minute)
  {
    hide MinuteOf, Counts;
    var more := s + [x];
    assert more[|s|] == x;
    assert forall k :: 0 <= k < |s| ==> more[k] == s[k];
  }
}
