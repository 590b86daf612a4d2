/**
  Where the limiter's bounds give way: an admission that has outlived its bucket can destroy a newer
  bucket, and can push a bucket's failures plus pending work past the limit. Both are shown by a run,
  and both are characterised exactly.
 */
module LimiterLimits {
  import opened LimiterSpec
  import opened LimiterRuns

  // ----- runs one event at a time

  lemma Extend(s: System, capacity: nat, events: seq<Event>, e: Event)
    requires TimelyRun(s, capacity, events) && Timely(Run(s, capacity, events), e)
    ensures TimelyRun(s, capacity, events + [e])
    ensures Run(s, capacity, events + [e]) == Step(Run(s, capacity, events), capacity, e)
  {
    hide Step;
    assert (events + [e])[..|events|] == events;
  }

  // ----- admissions that have outlived their bucket

  /** The open ticket `i` finishes after its own generation is gone. */
  ghost predicate Outlived(s: System, i: nat, now: int) {
    i < |s.tickets| && s.tickets[i].open && !OwnGenerationAlive(Prune(s.table, now), s.tickets[i])
  }

  /** A late failure of `failed` makes room by evicting `key`. */
  ghost predicate EvictedFor(t: Table, capacity: nat, failed: Key, key: Key) {
    failed !in t.entries && |t.entries| >= capacity && IsVictim(t.entries, key)
  }

  lemma LateFailureSurvivors(t: Table, capacity: nat, failed: Key, now: int, key: Key)
    requires key in t.entries
    ensures key in LateFailure(t, capacity, failed, now).entries <==> !EvictedFor(t, capacity, failed, key)
  {
    if failed !in t.entries && |t.entries| >= capacity && exists j :: IsVictim(t.entries, j) {
      if IsVictim(t.entries, key) {
        VictimUnique(t.entries, key, Victim(t.entries));
      }
    }
  }

  /**
    Exactly which buckets a completion from a dead generation leaves in place: all but the key's present
    bucket after a success, and the evicted one after a failure that needs room for a new bucket.
   */
  lemma DeadGenerationSurvivors(s: System, capacity: nat, i: nat, result: Completion, now: int, key: Key)
    requires Outlived(s, i, now) && key in Prune(s.table, now).entries
    ensures var p, own := Prune(s.table, now), s.tickets[i].key;
            key in Step(s, capacity, Finished(i, result, now)).table.entries <==>
              !(result == Success && key == own) && !(result == Failure && EvictedFor(p, capacity, own, key))
  {
    hide Prune, EvictedFor, LateFailure;
    if result == Failure {
      LateFailureSurvivors(Prune(s.table, now), capacity, s.tickets[i].key, now, key);
    }
  }

  /** Some bucket with work in flight is gone after the step, though it had not expired. */
  ghost predicate LosesReservations(s: System, capacity: nat, e: Event) {
    exists k :: k in Prune(s.table, e.now).entries && Prune(s.table, e.now).entries[k].pending > 0 &&
                k !in Step(s, capacity, e).table.entries
  }

  /**
    A completion from a dead generation costs reservations if and only if it is a success and its key
    has a newer bucket with work in flight: what a failure evicts is idle.
   */
  lemma ReservationsLostIff(s: System, capacity: nat, i: nat, result: Completion, now: int)
    requires Outlived(s, i, now)
    ensures var p, own := Prune(s.table, now), s.tickets[i].key;
            LosesReservations(s, capacity, Finished(i, result, now)) <==>
              result == Success && own in p.entries && p.entries[own].pending > 0
  {
    hide Prune, Step;
    forall k | k in Prune(s.table, now).entries
      ensures k in Step(s, capacity, Finished(i, result, now)).table.entries <==>
                !(result == Success && k == s.tickets[i].key) &&
                !(result == Failure && EvictedFor(Prune(s.table, now), capacity, s.tickets[i].key, k))
    {
      DeadGenerationSurvivors(s, capacity, i, result, now, k);
    }
  }

  /** The run: one attempt at 0, another when its bucket has expired. */
  lemma TwoGenerations(key: Key, capacity: nat) returns (events: seq<Event>)
    requires capacity > 0
    ensures TimelyRun(Initial(0), capacity, events)
    ensures Run(Initial(0), capacity, events)
            == System(Table(map[key := Entry(1, 0, 1, 2 * WINDOW, 0)], 2, 0),
                      [Ticket(key, 0, true, false), Ticket(key, 1, true, false)], WINDOW)
  {
    hide Run, TimelyRun, Step;
    events := [];
    NothingYet(capacity);
    FirstArrival(key, capacity);
    Extend(Initial(0), capacity, events, Arrive(key, 0));
    events := events + [Arrive(key, 0)];
    ArrivalAfterExpiry(key, capacity);
    Extend(Initial(0), capacity, events, Arrive(key, WINDOW));
    events := events + [Arrive(key, WINDOW)];
  }

  lemma NothingYet(capacity: nat)
    ensures TimelyRun(Initial(0), capacity, []) && Run(Initial(0), capacity, []) == Initial(0)
  {}

  function OneAttempt(key: Key): System {
    System(Table(map[key := Entry(0, 0, 1, WINDOW, 0)], 1, 0), [Ticket(key, 0, true, false)], 0)
  }

  lemma FirstArrival(key: Key, capacity: nat)
    requires capacity > 0
    ensures Step(Initial(0), capacity, Arrive(key, 0)) == OneAttempt(key)
  {
    var t := Initial(0).table;
    assert Prune(t, 0) == t;
  }

  lemma ArrivalAfterExpiry(key: Key, capacity: nat)
    requires capacity > 0
    ensures Step(OneAttempt(key), capacity, Arrive(key, WINDOW))
            == System(Table(map[key := Entry(1, 0, 1, 2 * WINDOW, 0)], 2, 0),
                      [Ticket(key, 0, true, false), Ticket(key, 1, true, false)], WINDOW)
  {
    assert Prune(OneAttempt(key).table, WINDOW).entries == map[];
  }

  /** A success of the first attempt destroys the second bucket and the attempt in flight in it. */
  lemma LateSuccessDestroysNewerBucket(key: Key, capacity: nat) returns (events: seq<Event>)
    requires capacity > 0
    ensures TimelyRun(Initial(0), capacity, events)
    ensures var s := Run(Initial(0), capacity, events);
            && Outlived(s, 0, WINDOW) && key in s.table.entries
            && s.table.entries[key].gen == 1 && s.table.entries[key].pending == 1
            && Timely(s, Finished(0, Success, WINDOW))
            && key !in Step(s, capacity, Finished(0, Success, WINDOW)).table.entries
            && LosesReservations(s, capacity, Finished(0, Success, WINDOW))
  {
    events := TwoGenerations(key, capacity);
    var s := Run(Initial(0), capacity, events);
    hide Run, TimelyRun, LosesReservations;
    assert Prune(s.table, WINDOW).entries[key] == s.table.entries[key];
    ReservationsLostIff(s, capacity, 0, Success, WINDOW);
    DeadGenerationSurvivors(s, capacity, 0, Success, WINDOW, key);
  }

  // ----- failures and pending work past the limit

  predicate Within(e: Entry) { e.failures + e.pending <= FAILURE_LIMIT }

  ghost predicate AllWithin(t: Table) { forall k :: k in t.entries ==> Within(t.entries[k]) }

  /**
    A failure from a dead generation meets a newer bucket that has failures to spare but,
    with its work in flight, stands exactly at the limit.
   */
  ghost predicate Overfills(s: System, e: Event) {
    && e.Finished? && e.result == Failure && Outlived(s, e.ticket, e.now)
    && var t, key := Prune(s.table, e.now), s.tickets[e.ticket].key;
       key in t.entries && t.entries[key].failures < FAILURE_LIMIT && t.entries[key].failures + t.entries[key].pending == FAILURE_LIMIT
  }

  lemma PrunedWithin(t: Table, now: int)
    requires AllWithin(t)
    ensures AllWithin(Prune(t, now))
  {}

  lemma RoomWithin(t: Table, capacity: nat)
    requires AllWithin(t) && MakeRoom(t, capacity).Free?
    ensures AllWithin(MakeRoom(t, capacity).table)
  {}

  lemma AdmitWithin(t: Table, capacity: nat, key: Key, now: int)
    requires AllWithin(t)
    ensures AllWithin(Admit(t, capacity, key, now).0)
  {
    hide Prune, MakeRoom;
    PrunedWithin(t, now);
    var p := Prune(t, now);
    if key !in p.entries && MakeRoom(p, capacity).Free? {
      RoomWithin(p, capacity);
    }
  }

  lemma FinishWithin(t: Table, key: Key, failed: bool)
    requires AllWithin(t) && key in t.entries && t.entries[key].pending > 0
    ensures AllWithin(Finish(t, key, failed))
  {
    assert Within(t.entries[key]);
  }

  lemma LateFailureWithinIff(t: Table, capacity: nat, key: Key, now: int)
    requires AllWithin(t)
    ensures AllWithin(LateFailure(t, capacity, key, now)) <==>
              !(key in t.entries && t.entries[key].failures < FAILURE_LIMIT &&
                t.entries[key].failures + t.entries[key].pending == FAILURE_LIMIT)
  {
    hide MakeRoom;
    if key in t.entries {
      assert Within(t.entries[key]);
      assert key in LateFailure(t, capacity, key, now).entries;
    } else if MakeRoom(t, capacity).Free? {
      RoomWithin(t, capacity);
    }
  }

  /** An open ticket whose generation lives is among its bucket's pending work. */
  lemma OwnTicketIsPending(s: System, capacity: nat, i: nat, now: int)
    requires Inv(s, capacity) && i < |s.tickets| && s.tickets[i].open
    requires OwnGenerationAlive(Prune(s.table, now), s.tickets[i])
    ensures Prune(s.table, now).entries[s.tickets[i].key].pending > 0
  {
    var e := s.table.entries[s.tickets[i].key];
    assert EntryInv(e, s.tickets);
    OpenIsTallied(s.tickets, i);
  }

  /** From a state in which no bucket exceeds the limit, a step takes one past it if and only if it overfills one. */
  lemma StepStaysWithinIff(s: System, capacity: nat, e: Event)
    requires Inv(s, capacity) && AllWithin(s.table)
    ensures AllWithin(Step(s, capacity, e).table) <==> !Overfills(s, e)
  {
    hide Inv, AllWithin, Admit, Finish, LateFailure, Prune;
    match e
    case Arrive(key, now) => AdmitWithin(s.table, capacity, key, now);
    case Finished(i, result, now) =>
      if i < |s.tickets| && s.tickets[i].open {
        var p, ticket := Prune(s.table, now), s.tickets[i];
        PrunedWithin(s.table, now);
        if result == Success {
          SuccessWithin(p, ticket.key);
        } else if OwnGenerationAlive(p, ticket) {
          OwnTicketIsPending(s, capacity, i, now);
          FinishWithin(p, ticket.key, result == Failure);
        } else if result == Failure {
          LateFailureWithinIff(p, capacity, ticket.key, now);
        }
      }
  }

  lemma SuccessWithin(t: Table, key: Key)
    requires AllWithin(t)
    ensures AllWithin(t.(entries := t.entries - {key}))
  {}

  ghost function StateAt(clock: int, capacity: nat, events: seq<Event>, n: nat): System
    requires n <= |events|
  {
    Run(Initial(clock), capacity, events[..n])
  }

  lemma {:induction false} TimelyPrefix(clock: int, capacity: nat, events: seq<Event>, n: nat)
    requires TimelyRun(Initial(clock), capacity, events) && n <= |events|
    ensures TimelyRun(Initial(clock), capacity, events[..n])
    decreases |events|
  {
    if n < |events| {
      TimelyPrefix(clock, capacity, events[..|events| - 1], n);
      assert events[..|events| - 1][..n] == events[..n];
    } else {
      assert events[..n] == events;
    }
  }

  lemma NextState(clock: int, capacity: nat, events: seq<Event>, n: nat)
    requires n < |events|
    ensures StateAt(clock, capacity, events, n + 1) == Step(StateAt(clock, capacity, events, n), capacity, events[n])
  {
    hide Step;
    assert events[..n + 1][..n] == events[..n];
  }

  ghost predicate WithinAt(clock: int, capacity: nat, events: seq<Event>, n: nat)
    requires n <= |events|
  {
    AllWithin(StateAt(clock, capacity, events, n).table)
  }

  ghost predicate OverfillsAt(clock: int, capacity: nat, events: seq<Event>, n: nat)
    requires n < |events|
  {
    Overfills(StateAt(clock, capacity, events, n), events[n])
  }

  lemma StepAtIff(clock: int, capacity: nat, events: seq<Event>, n: nat)
    requires capacity > 0 && TimelyRun(Initial(clock), capacity, events) && n < |events|
    requires WithinAt(clock, capacity, events, n)
    ensures WithinAt(clock, capacity, events, n + 1) <==> !OverfillsAt(clock, capacity, events, n)
  {
    hide Run, Step, Overfills, AllWithin, TimelyRun, Inv;
    TimelyPrefix(clock, capacity, events, n);
    RunKeepsInvariant(clock, capacity, events[..n]);
    NextState(clock, capacity, events, n);
    StepStaysWithinIff(StateAt(clock, capacity, events, n), capacity, events[n]);
  }

  lemma {:induction false} NoOverfillStaysWithin(clock: int, capacity: nat, events: seq<Event>, n: nat)
    requires capacity > 0 && TimelyRun(Initial(clock), capacity, events) && n <= |events|
    requires forall j :: 0 <= j < n ==> !OverfillsAt(clock, capacity, events, j)
    ensures WithinAt(clock, capacity, events, n)
    decreases n
  {
    if n > 0 {
      hide WithinAt, OverfillsAt, TimelyRun;
      NoOverfillStaysWithin(clock, capacity, events, n - 1);
      StepAtIff(clock, capacity, events, n - 1);
    }
  }

  /**
    Over a whole run failures and pending work stay within the limit in every bucket
    if and only if no event of the run overfills one.
   */
  lemma RunStaysWithinIff(clock: int, capacity: nat, events: seq<Event>)
    requires capacity > 0 && TimelyRun(Initial(clock), capacity, events)
    ensures (forall n :: 0 <= n <= |events| ==> WithinAt(clock, capacity, events, n)) <==>
            (forall n :: 0 <= n < |events| ==> !OverfillsAt(clock, capacity, events, n))
  {
    hide WithinAt, OverfillsAt, TimelyRun;
    if forall n :: 0 <= n < |events| ==> !OverfillsAt(clock, capacity, events, n) {
      forall n | 0 <= n <= |events| ensures WithinAt(clock, capacity, events, n) {
        NoOverfillStaysWithin(clock, capacity, events, n);
      }
    } else {
      var n :| 0 <= n < |events| && OverfillsAt(clock, capacity, events, n);
      if WithinAt(clock, capacity, events, n) {
        StepAtIff(clock, capacity, events, n);
      }
    }
  }

  /** `n` attempts in flight in the second bucket, and the first bucket's attempt still open. */
  function Crowded(key: Key, n: nat): System
    requires n > 0
  {
    System(Table(map[key := Entry(1, 0, n, 2 * WINDOW, 0)], 2, 0),
           [Ticket(key, 0, true, false)] + seq(n, _ => Ticket(key, 1, true, false)), WINDOW)
  }

  lemma OneMoreAttempt(key: Key, capacity: nat, n: nat)
    requires 0 < n < FAILURE_LIMIT
    ensures Step(Crowded(key, n), capacity, Arrive(key, WINDOW)) == Crowded(key, n + 1)
  {
    var s := Crowded(key, n);
    assert Prune(s.table, WINDOW) == s.table;
    assert seq(n, _ => Ticket(key, 1, true, false)) + [Ticket(key, 1, true, false)] == seq(n + 1, _ => Ticket(key, 1, true, false));
  }

  lemma {:induction false} CrowdedRun(key: Key, capacity: nat, n: nat) returns (events: seq<Event>)
    requires capacity > 0 && 0 < n <= FAILURE_LIMIT
    ensures TimelyRun(Initial(0), capacity, events) && Run(Initial(0), capacity, events) == Crowded(key, n)
    decreases n
  {
    hide Run, TimelyRun, Step;
    if n == 1 {
      events := TwoGenerations(key, capacity);
      assert Crowded(key, 1).tickets == [Ticket(key, 0, true, false), Ticket(key, 1, true, false)];
    } else {
      var fewer := CrowdedRun(key, capacity, n - 1);
      OneMoreAttempt(key, capacity, n - 1);
      Extend(Initial(0), capacity, fewer, Arrive(key, WINDOW));
      events := fewer + [Arrive(key, WINDOW)];
    }
  }

  /** A run to six: the first bucket's attempt fails late, with five attempts in flight in the second bucket. */
  lemma SixOutOfFive(key: Key, capacity: nat) returns (events: seq<Event>)
    requires capacity > 0
    ensures TimelyRun(Initial(0), capacity, events)
    ensures var t := Run(Initial(0), capacity, events).table;
            key in t.entries && t.entries[key].failures == 1 && t.entries[key].pending == FAILURE_LIMIT
  {
    var before := CrowdedRun(key, capacity, FAILURE_LIMIT);
    hide Run, TimelyRun;
    Extend(Initial(0), capacity, before, Finished(0, Failure, WINDOW));
    events := before + [Finished(0, Failure, WINDOW)];
    assert Prune(Crowded(key, FAILURE_LIMIT).table, WINDOW) == Crowded(key, FAILURE_LIMIT).table;
  }
}
