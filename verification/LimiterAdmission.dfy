/**
  Whom the limiter lets in, said of the table's fields and of whole runs: not only that it refuses enough,
  but that it refuses nobody else, evicts no more than it must and counts every failure once.
 */
module LimiterAdmission {
  import opened Common
  import opened LimiterSpec
  import opened LimiterRuns

  /** How long a bucket lasts. */
  const QUARTER_HOUR: int := 15 * 60 * 1_000_000_000

  predicate Unexpired(t: Table, key: Key, now: int) {
    key in t.entries && t.entries[key].expiresAt > now
  }

  function UnexpiredKeys(t: Table, now: int): set<Key> {
    set k | k in t.entries && t.entries[k].expiresAt > now
  }

  /** There is a free place, or one whose work is done. */
  ghost predicate HasRoom(t: Table, capacity: nat, now: int) {
    |UnexpiredKeys(t, now)| < capacity || exists k :: Unexpired(t, k, now) && t.entries[k].pending == 0
  }

  lemma PrunedKeys(t: Table, now: int)
    ensures Prune(t, now).entries.Keys == UnexpiredKeys(t, now)
    ensures |Prune(t, now).entries| == |UnexpiredKeys(t, now)|
  {
    var a, b := Prune(t, now).entries.Keys, UnexpiredKeys(t, now);
    assert forall k :: k in a <==> k in b;
    assert a == b;
  }

  lemma PruneWellFormed(t: Table, now: int)
    requires WellFormed(t)
    ensures WellFormed(Prune(t, now))
  {
    hide WellFormed;
    SubTableWellFormed(t, Prune(t, now).entries);
  }

  lemma RoomIff(t: Table, capacity: nat, now: int)
    requires WellFormed(t)
    ensures MakeRoom(Prune(t, now), capacity).Free? <==> HasRoom(t, capacity, now)
  {
    hide WellFormed, MakeRoom;
    PruneWellFormed(t, now);
    PrunedKeys(t, now);
    var p := Prune(t, now);
    RefusedOnlyInFlight(p, capacity);
    assert forall k :: k in p.entries <==> Unexpired(t, k, now);
  }

  /**
    An attempt is let in if and only if its key has an unexpired bucket with less than five failures and
    attempts in flight, or has none and there is room for one. Who is refused is told to wait until the
    bucket expires, but a second at least; a second, if there is no room.
   */
  lemma AdmittedIff(t: Table, capacity: nat, key: Key, now: int)
    requires WellFormed(t)
    ensures var o := Admit(t, capacity, key, now).1;
            && (o.Admitted? <==> if Unexpired(t, key, now) then t.entries[key].failures + t.entries[key].pending < 5
                                 else HasRoom(t, capacity, now))
            && (o.Refused? ==>
                  o.retry == if Unexpired(t, key, now) then Max(1_000_000_000, t.entries[key].expiresAt - now) else 1_000_000_000)
  {
    hide WellFormed, MakeRoom;
    RoomIff(t, capacity, now);
  }

  /** The table is full, and of its idle entries this one has the fewest failures and has been idle longest. */
  ghost predicate FirstToGo(t: Table, capacity: nat, key: Key, now: int) {
    && Unexpired(t, key, now) && t.entries[key].pending == 0 && |UnexpiredKeys(t, now)| >= capacity
    && forall j :: Unexpired(t, j, now) && t.entries[j].pending == 0 && j != key ==>
         t.entries[key].failures < t.entries[j].failures
         || (t.entries[key].failures == t.entries[j].failures && t.entries[key].idleSince < t.entries[j].idleSince)
  }

  /** What making room leaves: of the unexpired entries all, or all but the idle one with the fewest failures, longest idle. */
  lemma MakeRoomLeaves(t: Table, capacity: nat, now: int, key: Key)
    requires MakeRoom(Prune(t, now), capacity).Free?
    ensures var r := MakeRoom(Prune(t, now), capacity).table;
            && (key in r.entries <==> Unexpired(t, key, now) && !FirstToGo(t, capacity, key, now))
            && (key in r.entries ==> r.entries[key] == t.entries[key])
            && r.nextGen == t.nextGen && r.tick == t.tick
  {
    PrunedKeys(t, now);
    var p := Prune(t, now);
    assert forall k :: k in p.entries <==> Unexpired(t, k, now);
    if |p.entries| >= capacity {
      if IsVictim(p.entries, key) {
        VictimUnique(p.entries, key, Victim(p.entries));
      }
      assert IsVictim(p.entries, key) <==> FirstToGo(t, capacity, key, now);
    }
  }

  /**
    What admitting does to the buckets: the key's own holds one attempt more, or is new, without failures,
    and lasts a quarter of an hour; every other unexpired one stays as it was, but for the first to go
    when a new one needs its place.
   */
  lemma AdmittingLeaves(t: Table, capacity: nat, key: Key, now: int, other: Key)
    requires Admit(t, capacity, key, now).1.Admitted? && other != key
    ensures var (u, o) := Admit(t, capacity, key, now);
            && key in u.entries && u.entries[key].gen == o.gen
            && (if Unexpired(t, key, now) then u.entries[key] == t.entries[key].(pending := t.entries[key].pending + 1)
                else var e := u.entries[key]; e.failures == 0 && e.pending == 1 && e.expiresAt == now + QUARTER_HOUR && e.gen == t.nextGen)
            && (other in u.entries <==>
                  Unexpired(t, other, now) && !(!Unexpired(t, key, now) && FirstToGo(t, capacity, other, now)))
            && (other in u.entries ==> u.entries[other] == t.entries[other])
  {
    hide MakeRoom;
    if !Unexpired(t, key, now) {
      MakeRoomLeaves(t, capacity, now, other);
    }
  }

  function FiveAtMost(n: nat): nat { if n < 5 then n else 5 }

  /**
    What completing does to the key's bucket. A success removes it. A failure counts, up to five, in the
    bucket there is, be it the attempt's own or a later one, or opens an idle one if there is room. An
    attempt whose own bucket is there is no longer in flight, and a bucket with nothing left to count goes.
   */
  lemma CompletingCounts(t: Table, capacity: nat, key: Key, gen: nat, result: Completion, now: int)
    requires WellFormed(t)
    requires Unexpired(t, key, now) && t.entries[key].gen == gen ==> t.entries[key].pending > 0
    ensures var u := Complete(t, capacity, key, gen, result, now);
            if result == Success then key !in u.entries
            else if Unexpired(t, key, now) then
              var before := t.entries[key];
              var pending := if before.gen == gen then before.pending - 1 else before.pending;
              var failures := if result == Failure then FiveAtMost(before.failures + 1) else before.failures;
              && (key in u.entries <==> pending > 0 || failures > 0)
              && (key in u.entries ==>
                    u.entries[key] == Entry(before.gen, failures, pending, before.expiresAt, u.entries[key].idleSince))
            else
              && (key in u.entries <==> result == Failure && HasRoom(t, capacity, now))
              && (key in u.entries ==> u.entries[key] == Entry(t.nextGen, 1, 0, now + QUARTER_HOUR, t.tick))
  {
    hide MakeRoom;
    assert Unexpired(t, key, now) ==> EntryOk(t, t.entries[key]);
    RoomIff(t, capacity, now);
    if !Unexpired(t, key, now) && result == Failure && HasRoom(t, capacity, now) {
      MakeRoomLeaves(t, capacity, now, key);
    }
  }

  /** Completing leaves the other keys' unexpired buckets alone, but for the first to go if a failure opens one. */
  lemma CompletingSpares(t: Table, capacity: nat, key: Key, gen: nat, result: Completion, now: int, other: Key)
    requires WellFormed(t) && other != key
    ensures var u := Complete(t, capacity, key, gen, result, now);
            && (other in u.entries <==>
                  Unexpired(t, other, now) && !(result == Failure && !Unexpired(t, key, now) && FirstToGo(t, capacity, other, now)))
            && (other in u.entries ==> u.entries[other] == t.entries[other])
  {
    hide MakeRoom, WellFormed;
    RoomIff(t, capacity, now);
    if !Unexpired(t, key, now) && result == Failure {
      if HasRoom(t, capacity, now) {
        MakeRoomLeaves(t, capacity, now, other);
      } else {
        assert !FirstToGo(t, capacity, other, now);
      }
    }
  }

  /** Who has just become idle, or failed while idle, is the last to go of those with as many failures. */
  lemma LatestIdleGoesLast(t: Table, capacity: nat, key: Key, gen: nat, result: Completion, now: int, other: Key)
    requires WellFormed(t) && other != key
    requires Unexpired(t, key, now) && t.entries[key].gen == gen ==> t.entries[key].pending > 0
    requires var u := Complete(t, capacity, key, gen, result, now);
             && key in u.entries && u.entries[key].pending == 0 && other in u.entries && u.entries[other].pending == 0
    requires result == Failure || t.entries[key].gen == gen
    ensures var u := Complete(t, capacity, key, gen, result, now);
            u.entries[other].idleSince < u.entries[key].idleSince
  {
    hide MakeRoom;
    CompletingSpares(t, capacity, key, gen, result, now, other);
    assert EntryOk(t, t.entries[other]);
    if !Unexpired(t, key, now) {
      CompletingCounts(t, capacity, key, gen, result, now);
    }
  }

  // ----- over runs

  /** The attempt that the event ends, if it was under way. */
  ghost predicate Ends(s: System, e: Event, key: Key) {
    e.Finished? && e.ticket < |s.tickets| && s.tickets[e.ticket].open && s.tickets[e.ticket].key == key
  }

  ghost predicate Fails(s: System, e: Event, key: Key) { Ends(s, e, key) && e.result == Failure }

  /** The failed attempts of a key later than `from`, since its last success. */
  ghost function FailedSince(clock: int, capacity: nat, events: seq<Event>, key: Key, from: int): nat
    decreases |events|
  {
    if events == [] then 0
    else
      var front, e := events[..|events| - 1], events[|events| - 1];
      var s := Run(Initial(clock), capacity, front);
      if Ends(s, e, key) && e.result == Success then 0
      else FailedSince(clock, capacity, front, key, from) + if Fails(s, e, key) && e.now > from then 1 else 0
  }

  function OpenFor(tickets: seq<Ticket>, key: Key): nat {
    if tickets == [] then 0
    else
      var last := tickets[|tickets| - 1];
      OpenFor(tickets[..|tickets| - 1], key) + if last.open && last.key == key then 1 else 0
  }

  /** The keys with an attempt in flight. */
  function InFlight(tickets: seq<Ticket>): set<Key> {
    set i | 0 <= i < |tickets| && tickets[i].open :: tickets[i].key
  }

  lemma {:induction false} PendingIsOpenFor(tickets: seq<Ticket>, gen: nat, key: Key)
    requires forall i :: 0 <= i < |tickets| && tickets[i].gen == gen ==> tickets[i].key == key
    ensures Tally(tickets, gen, IsOpen) <= OpenFor(tickets, key)
    decreases |tickets|
  {
    if tickets != [] {
      PendingIsOpenFor(tickets[..|tickets| - 1], gen, key);
    }
  }

  lemma {:induction false} TalliedIsOpen(tickets: seq<Ticket>, gen: nat) returns (i: nat)
    requires Tally(tickets, gen, IsOpen) > 0
    ensures i < |tickets| && tickets[i].open && tickets[i].gen == gen
    decreases |tickets|
  {
    var n := |tickets| - 1;
    if tickets[n].open && tickets[n].gen == gen {
      i := n;
    } else {
      i := TalliedIsOpen(tickets[..n], gen);
    }
  }

  /** Every bucket with work in flight has an attempt of its key in flight. */
  lemma BusyIsInFlight(s: System, capacity: nat, key: Key)
    requires Inv(s, capacity) && key in s.table.entries && s.table.entries[key].pending > 0
    ensures key in InFlight(s.tickets)
  {
    hide WellFormed, Tally;
    assert EntryInv(s.table.entries[key], s.tickets);
    var i := TalliedIsOpen(s.tickets, s.table.entries[key].gen);
    assert s.tickets[i].key == key;
  }

  /** While attempts of fewer keys than the table has places are in flight, there is room. */
  lemma RoomWhileFewInFlight(s: System, capacity: nat, now: int)
    requires Inv(s, capacity) && |InFlight(s.tickets)| < capacity
    ensures HasRoom(s.table, capacity, now)
  {
    hide Inv, InFlight;
    var keys := UnexpiredKeys(s.table, now);
    if forall k :: k in keys ==> s.table.entries[k].pending > 0 {
      forall k | k in keys ensures k in InFlight(s.tickets) {
        BusyIsInFlight(s, capacity, k);
      }
      SubsetSize(keys, InFlight(s.tickets));
    } else {
      var k :| k in keys && s.table.entries[k].pending == 0;
      assert Unexpired(s.table, k, now);
    }
  }

  /** What one event does to a key's bucket, as far as its failures go. */
  lemma FailuresStep(s: System, capacity: nat, e: Event, key: Key)
    requires Inv(s, capacity) && Timely(s, e)
    requires key in Step(s, capacity, e).table.entries
    ensures var t := Step(s, capacity, e).table;
            var failed := if Fails(s, e, key) then 1 else 0;
            && !(Ends(s, e, key) && e.result == Success)
            && (key in s.table.entries && s.table.entries[key].gen == t.entries[key].gen ==>
                  t.entries[key].expiresAt == s.table.entries[key].expiresAt &&
                  t.entries[key].failures == FiveAtMost(s.table.entries[key].failures + failed))
            && (!(key in s.table.entries && s.table.entries[key].gen == t.entries[key].gen) ==>
                  t.entries[key].failures == failed && t.entries[key].expiresAt == e.now + QUARTER_HOUR)
  {
    hide MakeRoom, WellFormed, Tally, Complete, Admit;
    StampsBelowTick(s.table);
    if key in s.table.entries {
      EntryOkOf(s.table, key);
    }
    match e
    case Arrive(k, now) => ArrivalSteps(s.table, capacity, k, now, key);
    case Finished(i, result, now) =>
      if i < |s.tickets| && s.tickets[i].open {
        var ticket := s.tickets[i];
        if ticket.key == key {
          OwnIsPending(s, capacity, i, now);
          CompletingCounts(s.table, capacity, key, ticket.gen, result, now);
        } else {
          CompletingSpares(s.table, capacity, ticket.key, ticket.gen, result, now, key);
        }
      }
  }

  lemma ArrivalSteps(t: Table, capacity: nat, k: Key, now: int, key: Key)
    requires WellFormed(t) && key in Admit(t, capacity, k, now).0.entries
    ensures var u := Admit(t, capacity, k, now).0;
            if key in t.entries && t.entries[key].gen == u.entries[key].gen
            then u.entries[key].expiresAt == t.entries[key].expiresAt && u.entries[key].failures == t.entries[key].failures
            else u.entries[key].failures == 0 && u.entries[key].expiresAt == now + QUARTER_HOUR
  {
    hide MakeRoom, WellFormed;
    StampsBelowTick(t);
    if Admit(t, capacity, k, now).1.Admitted? {
      if key != k {
        AdmittingLeaves(t, capacity, k, now, key);
      } else if !Unexpired(t, k, now) {
        MakeRoomLeaves(t, capacity, now, key);
      }
    }
  }

  lemma OwnIsPending(s: System, capacity: nat, i: nat, now: int)
    requires Inv(s, capacity) && i < |s.tickets| && s.tickets[i].open
    ensures var ticket := s.tickets[i];
            Unexpired(s.table, ticket.key, now) && s.table.entries[ticket.key].gen == ticket.gen ==> s.table.entries[ticket.key].pending > 0
  {
    hide WellFormed, Tally;
    var ticket := s.tickets[i];
    if ticket.key in s.table.entries && s.table.entries[ticket.key].gen == ticket.gen {
      assert EntryInv(s.table.entries[ticket.key], s.tickets);
      OpenIsTallied(s.tickets, i);
    }
  }

  /** The failed attempts of a key since its present bucket was opened. */
  ghost function FailedInBucket(clock: int, capacity: nat, events: seq<Event>, key: Key): nat
    decreases |events|
  {
    if events == [] then 0
    else
      var front, e := events[..|events| - 1], events[|events| - 1];
      var s := Run(Initial(clock), capacity, front);
      var t := Step(s, capacity, e).table;
      if key !in t.entries then 0
      else
        (if key in s.table.entries && s.table.entries[key].gen == t.entries[key].gen
         then FailedInBucket(clock, capacity, front, key) else 0)
        + if Fails(s, e, key) then 1 else 0
  }

  /**
    In every reachable state a bucket's failures are the failed attempts of its key since it was opened,
    or five if there were more; and the key had no success since.
   */
  lemma {:induction false} FailuresAreCounted(clock: int, capacity: nat, events: seq<Event>, key: Key, from: int)
    requires capacity > 0 && TimelyRun(Initial(clock), capacity, events)
    requires key in Run(Initial(clock), capacity, events).table.entries
    ensures var e := Run(Initial(clock), capacity, events).table.entries[key];
            && e.failures == FiveAtMost(FailedInBucket(clock, capacity, events, key))
            && e.expiresAt <= Run(Initial(clock), capacity, events).clock + QUARTER_HOUR
            && (from < e.expiresAt - QUARTER_HOUR ==>
                  FailedInBucket(clock, capacity, events, key) <= FailedSince(clock, capacity, events, key, from))
    decreases |events|
  {
    if events != [] {
      var front, e := events[..|events| - 1], events[|events| - 1];
      var s := Run(Initial(clock), capacity, front);
      assert Run(Initial(clock), capacity, events) == Step(s, capacity, e);
      RunKeepsInvariant(clock, capacity, front);
      RunKeepsInvariant(clock, capacity, events);
      FailuresStep(s, capacity, e, key);
      ExpiryBound(Step(s, capacity, e), capacity, key);
      if key in s.table.entries {
        FailuresAreCounted(clock, capacity, front, key, from);
      }
      hide Inv, Step, Run, TimelyRun;
    }
  }

  lemma ExpiryBound(s: System, capacity: nat, key: Key)
    requires Inv(s, capacity) && key in s.table.entries
    ensures s.table.entries[key].expiresAt <= s.clock + QUARTER_HOUR
  {}

  lemma LetIn(s: System, capacity: nat, key: Key, now: int, failed: nat)
    requires Inv(s, capacity) && |InFlight(s.tickets)| < capacity
    requires Unexpired(s.table, key, now) ==> s.table.entries[key].failures <= failed
    requires failed + OpenFor(s.tickets, key) < 5
    ensures Admit(s.table, capacity, key, now).1.Admitted?
  {
    hide WellFormed, Admit, Tally, OpenFor, InFlight;
    AdmittedIff(s.table, capacity, key, now);
    RoomWhileFewInFlight(s, capacity, now);
    if Unexpired(s.table, key, now) {
      assert EntryInv(s.table.entries[key], s.tickets);
      PendingIsOpenFor(s.tickets, s.table.entries[key].gen, key);
    }
  }

  /**
    No one is kept out without cause. In every reachable state: if the key's failed attempts of the last
    quarter of an hour and since its last success, together with its attempts in flight, are less than
    five, and attempts of fewer keys than the table has places are in flight, then the next attempt is let in.
   */
  lemma FewFailuresAreAdmitted(clock: int, capacity: nat, events: seq<Event>, key: Key, now: int)
    requires capacity > 0 && TimelyRun(Initial(clock), capacity, events)
    requires var s := Run(Initial(clock), capacity, events);
             && Timely(s, Arrive(key, now)) && |InFlight(s.tickets)| < capacity
             && FailedSince(clock, capacity, events, key, now - QUARTER_HOUR) + OpenFor(s.tickets, key) < 5
    ensures Admit(Run(Initial(clock), capacity, events).table, capacity, key, now).1.Admitted?
  {
    hide Run, TimelyRun, Inv, Admit, OpenFor, InFlight, FailedSince, FailedInBucket;
    RunKeepsInvariant(clock, capacity, events);
    var s := Run(Initial(clock), capacity, events);
    if Unexpired(s.table, key, now) {
      FailuresAreCounted(clock, capacity, events, key, now - QUARTER_HOUR);
    }
    LetIn(s, capacity, key, now, FailedSince(clock, capacity, events, key, now - QUARTER_HOUR));
  }
}
