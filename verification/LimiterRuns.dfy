/**
  Whole runs of the login limiter: any interleaving of admissions and completions
  under a clock that does not go back, with every admission kept as a ticket that
  remembers which bucket generation issued it.
 */
module LimiterRuns {
  import opened LimiterSpec

  /** `counted`: this attempt failed while its own generation was still there. */
  datatype Ticket = Ticket(key: Key, gen: nat, open: bool, counted: bool)

  datatype System = System(table: Table, tickets: seq<Ticket>, clock: int)

  datatype Event = Arrive(key: Key, now: int) | Finished(ticket: nat, result: Completion, now: int)

  function Initial(clock: int): System {
    System(Table(map[], 0, 0), [], clock)
  }

  predicate OwnGenerationAlive(t: Table, ticket: Ticket) {
    ticket.key in t.entries && t.entries[ticket.key].gen == ticket.gen
  }

  ghost function Step(s: System, capacity: nat, e: Event): System {
    match e
    case Arrive(key, now) =>
      var (t, o) := Admit(s.table, capacity, key, now);
      System(t, if o.Admitted? then s.tickets + [Ticket(key, o.gen, true, false)] else s.tickets, now)
    case Finished(i, result, now) =>
      if i >= |s.tickets| || !s.tickets[i].open then s
      else
        var ticket := s.tickets[i];
        var counted := result == Failure && OwnGenerationAlive(Prune(s.table, now), ticket);
        System(Complete(s.table, capacity, ticket.key, ticket.gen, result, now),
               s.tickets[i := ticket.(open := false, counted := counted)], now)
  }

  predicate Timely(s: System, e: Event) { s.clock <= e.now }

  ghost function Run(s: System, capacity: nat, events: seq<Event>): System
    decreases |events|
  {
    if events == [] then s
    else Step(Run(s, capacity, events[..|events| - 1]), capacity, events[|events| - 1])
  }

  /** The clock never goes back over the whole run. */
  ghost predicate TimelyRun(s: System, capacity: nat, events: seq<Event>)
    decreases |events|
  {
    events != [] ==>
      TimelyRun(s, capacity, events[..|events| - 1]) &&
      Timely(Run(s, capacity, events[..|events| - 1]), events[|events| - 1])
  }

  // ----- counting tickets

  datatype Kind = IsOpen | IsCounted

  predicate Matches(ticket: Ticket, gen: nat, kind: Kind) {
    ticket.gen == gen && (if kind == IsOpen then ticket.open else ticket.counted)
  }

  function Weight(ticket: Ticket, gen: nat, kind: Kind): nat {
    if Matches(ticket, gen, kind) then 1 else 0
  }

  function Tally(tickets: seq<Ticket>, gen: nat, kind: Kind): nat {
    if tickets == [] then 0
    else Tally(tickets[..|tickets| - 1], gen, kind) + Weight(tickets[|tickets| - 1], gen, kind)
  }

  lemma {:induction false} TallyUpdate(tickets: seq<Ticket>, i: nat, ticket: Ticket, gen: nat, kind: Kind)
    requires i < |tickets|
    ensures Tally(tickets[i := ticket], gen, kind) + Weight(tickets[i], gen, kind)
         == Tally(tickets, gen, kind) + Weight(ticket, gen, kind)
    decreases |tickets|
  {
    hide Matches, Weight;
    var n := |tickets| - 1;
    if i < n {
      TallyUpdate(tickets[..n], i, ticket, gen, kind);
      assert tickets[i := ticket][..n] == tickets[..n][i := ticket];
    } else {
      assert tickets[i := ticket][..n] == tickets[..n];
    }
  }

  lemma TallyAppend(tickets: seq<Ticket>, ticket: Ticket, gen: nat, kind: Kind)
    ensures Tally(tickets + [ticket], gen, kind) == Tally(tickets, gen, kind) + Weight(ticket, gen, kind)
  {
    assert (tickets + [ticket])[..|tickets|] == tickets;
  }

  lemma {:induction false} TallyZero(tickets: seq<Ticket>, gen: nat, kind: Kind)
    requires forall i :: 0 <= i < |tickets| ==> tickets[i].gen != gen
    ensures Tally(tickets, gen, kind) == 0
    decreases |tickets|
  {
    if tickets != [] {
      TallyZero(tickets[..|tickets| - 1], gen, kind);
    }
  }

  lemma {:induction false} OpenIsTallied(tickets: seq<Ticket>, i: nat)
    requires i < |tickets| && tickets[i].open
    ensures Tally(tickets, tickets[i].gen, IsOpen) > 0
    decreases |tickets|
  {
    if i < |tickets| - 1 {
      OpenIsTallied(tickets[..|tickets| - 1], i);
    }
  }

  // ----- the invariant

  /** Pending counts exactly the generation's open tickets, and these with its own failures never exceed the limit. */
  predicate EntryInv(e: Entry, tickets: seq<Ticket>) {
    && e.pending == Tally(tickets, e.gen, IsOpen)
    && e.pending + Tally(tickets, e.gen, IsCounted) <= FAILURE_LIMIT
    && (e.failures < FAILURE_LIMIT ==> Tally(tickets, e.gen, IsCounted) <= e.failures)
  }

  ghost predicate TicketsOk(s: System) {
    && (forall i :: 0 <= i < |s.tickets| ==> s.tickets[i].gen < s.table.nextGen)
    && (forall i, k :: 0 <= i < |s.tickets| && k in s.table.entries && s.table.entries[k].gen == s.tickets[i].gen
          ==> s.tickets[i].key == k)
  }

  ghost predicate Inv(s: System, capacity: nat) {
    && WellFormed(s.table)
    && |s.table.entries| <= capacity
    && TicketsOk(s)
    && (forall k :: k in s.table.entries ==> EntryInv(s.table.entries[k], s.tickets))
    && (forall k :: k in s.table.entries ==> s.table.entries[k].expiresAt <= s.clock + WINDOW)
  }

  lemma {:induction false} SubsetSize(a: set<Key>, b: set<Key>)
    requires a <= b
    ensures |a| <= |b|
    decreases a
  {
    if a != {} {
      var x :| x in a;
      SubsetSize(a - {x}, b - {x});
    }
  }

  /** Dropping entries keeps everything. */
  lemma SubTableKeeps(s: System, capacity: nat, entries: map<Key, Entry>)
    requires Inv(s, capacity) && SubTable(entries, s.table.entries)
    ensures Inv(s.(table := s.table.(entries := entries)), capacity)
  {
    hide EntryInv, WellFormed;
    SubTableWellFormed(s.table, entries);
    SubsetSize(entries.Keys, s.table.entries.Keys);
  }

  lemma PruneKeeps(s: System, capacity: nat, now: int)
    requires Inv(s, capacity) && s.clock <= now
    ensures Inv(s.(table := Prune(s.table, now), clock := now), capacity)
    ensures forall k :: k in Prune(s.table, now).entries ==> now < Prune(s.table, now).entries[k].expiresAt
  {
    hide EntryInv, WellFormed;
    SubTableKeeps(s, capacity, Prune(s.table, now).entries);
  }

  lemma RemoveKeeps(s: System, capacity: nat, key: Key)
    requires Inv(s, capacity)
    ensures Inv(s.(table := s.table.(entries := s.table.entries - {key})), capacity)
    ensures key in s.table.entries ==> |s.table.entries - {key}| == |s.table.entries| - 1
  {
    hide Inv;
    var r := s.table.entries - {key};
    SubTableKeeps(s, capacity, r);
    if key in s.table.entries {
      assert s.table.entries.Keys == r.Keys + {key};
      assert |s.table.entries.Keys| == |r.Keys| + 1;
    }
  }

  lemma MakeRoomKeeps(s: System, capacity: nat)
    requires Inv(s, capacity) && capacity > 0 && MakeRoom(s.table, capacity).Free?
    ensures Inv(s.(table := MakeRoom(s.table, capacity).table), capacity)
    ensures |MakeRoom(s.table, capacity).table.entries| < capacity
    ensures MakeRoom(s.table, capacity).table.entries.Keys <= s.table.entries.Keys
  {
    hide EntryInv, WellFormed;
    if |s.table.entries| >= capacity {
      RemoveKeeps(s, capacity, Victim(s.table.entries));
    }
  }

  /** Opening a bucket under a fresh generation keeps everything; its first admission, if any, gets a ticket. */
  lemma OpenKeeps(s: System, capacity: nat, key: Key, failures: nat, pending: nat, now: int)
    requires Inv(s, capacity) && s.clock == now && key !in s.table.entries && |s.table.entries| < capacity
    requires (failures == 0 && pending == 1) || (failures == 1 && pending == 0)
    ensures var e := Entry(s.table.nextGen, failures, pending, now + WINDOW, if pending == 0 then s.table.tick else 0);
            var t := Table(s.table.entries[key := e], s.table.nextGen + 1, if pending == 0 then s.table.tick + 1 else s.table.tick);
            Inv(System(t, if pending == 1 then s.tickets + [Ticket(key, s.table.nextGen, true, false)] else s.tickets, now), capacity)
  {
    hide EntryInv, WellFormed, TicketsOk;
    var g := s.table.nextGen;
    var e := Entry(g, failures, pending, now + WINDOW, if pending == 0 then s.table.tick else 0);
    var t := Table(s.table.entries[key := e], g + 1, if pending == 0 then s.table.tick + 1 else s.table.tick);
    var tickets := if pending == 1 then s.tickets + [Ticket(key, g, true, false)] else s.tickets;
    assert t.entries.Keys == s.table.entries.Keys + {key};
    assert |t.entries.Keys| == |s.table.entries.Keys| + 1;
    StampsBelowTick(s.table);
    PutWellFormed(s.table, t, key, e);
    OpenTicketsOk(s, t, key, e, pending == 1);
    forall k | k in t.entries ensures EntryInv(t.entries[k], tickets) {
      if k != key && pending == 1 {
        OtherTicket(s.tickets, Ticket(key, g, true, false), s.table.entries[k]);
      }
    }
  }

  lemma OpenTicketsOk(s: System, t: Table, key: Key, e: Entry, ticketed: bool)
    requires TicketsOk(s) && e.gen == s.table.nextGen && t.nextGen == e.gen + 1 && t.entries == s.table.entries[key := e]
    requires forall k :: k in s.table.entries ==> s.table.entries[k].gen < e.gen
    requires if ticketed then e.failures == 0 && e.pending == 1 else e.failures == 1 && e.pending == 0
    ensures var tickets := if ticketed then s.tickets + [Ticket(key, e.gen, true, false)] else s.tickets;
            TicketsOk(s.(table := t, tickets := tickets)) && EntryInv(e, tickets)
  {
    hide EntryInv;
    NewEntryOk(s.tickets, e, key, ticketed);
  }

  lemma NewEntryOk(tickets: seq<Ticket>, e: Entry, key: Key, ticketed: bool)
    requires forall i :: 0 <= i < |tickets| ==> tickets[i].gen < e.gen
    requires if ticketed then e.failures == 0 && e.pending == 1 else e.failures == 1 && e.pending == 0
    ensures EntryInv(e, if ticketed then tickets + [Ticket(key, e.gen, true, false)] else tickets)
  {
    hide Tally;
    TallyZero(tickets, e.gen, IsOpen);
    TallyZero(tickets, e.gen, IsCounted);
    TallyAppend(tickets, Ticket(key, e.gen, true, false), e.gen, IsOpen);
    TallyAppend(tickets, Ticket(key, e.gen, true, false), e.gen, IsCounted);
  }

  lemma OtherTicket(tickets: seq<Ticket>, ticket: Ticket, e: Entry)
    requires EntryInv(e, tickets) && ticket.gen != e.gen
    ensures EntryInv(e, tickets + [ticket])
  {
    hide Tally;
    TallyAppend(tickets, ticket, e.gen, IsOpen);
    TallyAppend(tickets, ticket, e.gen, IsCounted);
  }

  lemma OneMoreTicket(tickets: seq<Ticket>, key: Key, e: Entry)
    requires EntryInv(e, tickets) && e.failures + e.pending < FAILURE_LIMIT
    ensures EntryInv(e.(pending := e.pending + 1), tickets + [Ticket(key, e.gen, true, false)])
  {
    hide Tally;
    TallyAppend(tickets, Ticket(key, e.gen, true, false), e.gen, IsOpen);
    TallyAppend(tickets, Ticket(key, e.gen, true, false), e.gen, IsCounted);
  }

  lemma EntryOkOf(t: Table, key: Key)
    requires WellFormed(t) && key in t.entries
    ensures EntryOk(t, t.entries[key])
  {}

  lemma JoinKeeps(s: System, capacity: nat, key: Key)
    requires Inv(s, capacity) && key in s.table.entries
    requires s.table.entries[key].failures + s.table.entries[key].pending < FAILURE_LIMIT
    ensures var e := s.table.entries[key];
            Inv(s.(table := s.table.(entries := s.table.entries[key := e.(pending := e.pending + 1)]),
                   tickets := s.tickets + [Ticket(key, e.gen, true, false)]), capacity)
  {
    hide EntryInv, WellFormed, TicketsOk;
    var e := s.table.entries[key];
    var ticket := Ticket(key, e.gen, true, false);
    var t := s.table.(entries := s.table.entries[key := e.(pending := e.pending + 1)]);
    assert t.entries.Keys == s.table.entries.Keys;
    PutApart(s.table, key);
    EntryOkOf(s.table, key);
    PutWellFormed(s.table, t, key, t.entries[key]);
    JoinTicketsOk(s, t, key);
    OneMoreTicket(s.tickets, key, e);
    forall k | k in t.entries ensures EntryInv(t.entries[k], s.tickets + [ticket]) {
      if k != key {
        OtherTicket(s.tickets, ticket, s.table.entries[k]);
      }
    }
  }

  lemma JoinTicketsOk(s: System, t: Table, key: Key)
    requires TicketsOk(s) && WellFormed(s.table) && key in s.table.entries && t.nextGen == s.table.nextGen
    requires t.entries == s.table.entries[key := s.table.entries[key].(pending := s.table.entries[key].pending + 1)]
    ensures TicketsOk(s.(table := t, tickets := s.tickets + [Ticket(key, s.table.entries[key].gen, true, false)]))
  {
    hide WellFormed;
    PutApart(s.table, key);
    StampsBelowTick(s.table);
  }

  lemma AdmitKeeps(s: System, capacity: nat, key: Key, now: int)
    requires Inv(s, capacity) && s.clock <= now && capacity > 0
    ensures Inv(Step(s, capacity, Arrive(key, now)), capacity)
  {
    hide EntryInv, WellFormed, TicketsOk;
    PruneKeeps(s, capacity, now);
    var p := s.(table := Prune(s.table, now), clock := now);
    if key in p.table.entries {
      if p.table.entries[key].failures + p.table.entries[key].pending < FAILURE_LIMIT {
        JoinKeeps(p, capacity, key);
      }
    } else if MakeRoom(p.table, capacity).Free? {
      MakeRoomKeeps(p, capacity);
      OpenKeeps(p.(table := MakeRoom(p.table, capacity).table), capacity, key, 0, 1, now);
    }
  }

  // ----- completions

  /** Closing a ticket of another generation leaves an entry's counts alone. */
  lemma CloseOther(tickets: seq<Ticket>, i: nat, ticket: Ticket, e: Entry)
    requires i < |tickets| && EntryInv(e, tickets) && ticket.gen == tickets[i].gen != e.gen
    ensures EntryInv(e, tickets[i := ticket])
  {
    hide Tally;
    TallyUpdate(tickets, i, ticket, e.gen, IsOpen);
    TallyUpdate(tickets, i, ticket, e.gen, IsCounted);
  }

  lemma CloseOwn(tickets: seq<Ticket>, i: nat, failed: bool, e: Entry)
    requires i < |tickets| && EntryInv(e, tickets) && tickets[i].gen == e.gen && tickets[i].open && !tickets[i].counted
    ensures e.pending > 0
    ensures EntryInv(e.(pending := e.pending - 1, failures := if failed then CountFailure(e.failures) else e.failures),
                     tickets[i := tickets[i].(open := false, counted := failed)])
  {
    hide Tally;
    TallyUpdate(tickets, i, tickets[i].(open := false, counted := failed), e.gen, IsOpen);
    TallyUpdate(tickets, i, tickets[i].(open := false, counted := failed), e.gen, IsCounted);
  }

  lemma IdleSinceIrrelevant(e: Entry, tickets: seq<Ticket>, at: nat)
    ensures EntryInv(e, tickets) == EntryInv(e.(idleSince := at), tickets)
  {}

  /** Open tickets have not been counted yet. */
  ghost predicate OpenUncounted(tickets: seq<Ticket>) {
    forall i :: 0 <= i < |tickets| ==> tickets[i].open ==> !tickets[i].counted
  }

  lemma FinishKeeps(s: System, capacity: nat, i: nat, failed: bool)
    requires Inv(s, capacity) && OpenUncounted(s.tickets)
    requires i < |s.tickets| && s.tickets[i].open && OwnGenerationAlive(s.table, s.tickets[i])
    ensures Inv(s.(table := Finish(s.table, s.tickets[i].key, failed),
                   tickets := s.tickets[i := s.tickets[i].(open := false, counted := failed)]), capacity)
  {
    hide EntryInv, WellFormed, TicketsOk;
    var ticket := s.tickets[i];
    var key, closed := ticket.key, ticket.(open := false, counted := failed);
    var e := s.table.entries[key];
    var t := Finish(s.table, key, failed);
    var tickets := s.tickets[i := closed];
    CloseOwn(s.tickets, i, failed, e);
    IdleSinceIrrelevant(e.(pending := e.pending - 1, failures := if failed then CountFailure(e.failures) else e.failures),
                        tickets, s.table.tick);
    FinishWellFormed(s.table, key, failed);
    PutApart(s.table, key);
    assert t.entries.Keys <= s.table.entries.Keys;
    SubsetSize(t.entries.Keys, s.table.entries.Keys);
    CloseTicketsOk(s, t, i, closed);
    forall k | k in t.entries ensures EntryInv(t.entries[k], tickets) {
      if k != key {
        CloseOther(s.tickets, i, closed, s.table.entries[k]);
      }
    }
  }

  /** Tickets stay in order as long as no key gets another generation. */
  lemma CloseTicketsOk(s: System, t: Table, i: nat, closed: Ticket)
    requires TicketsOk(s) && i < |s.tickets| && closed.gen == s.tickets[i].gen && closed.key == s.tickets[i].key
    requires t.nextGen == s.table.nextGen && t.entries.Keys <= s.table.entries.Keys
    requires forall k :: k in t.entries ==> t.entries[k].gen == s.table.entries[k].gen
    ensures TicketsOk(s.(table := t, tickets := s.tickets[i := closed]))
  {}

  /** Closing a ticket whose generation is gone keeps everything. */
  lemma ForgetKeeps(s: System, capacity: nat, i: nat)
    requires Inv(s, capacity) && i < |s.tickets| && !OwnGenerationAlive(s.table, s.tickets[i])
    ensures Inv(s.(tickets := s.tickets[i := s.tickets[i].(open := false, counted := false)]), capacity)
  {
    hide EntryInv, Tally, WellFormed;
    forall k | k in s.table.entries
      ensures EntryInv(s.table.entries[k], s.tickets[i := s.tickets[i].(open := false, counted := false)])
    {
      CloseOther(s.tickets, i, s.tickets[i].(open := false, counted := false), s.table.entries[k]);
    }
  }

  lemma MoreFailures(e: Entry, tickets: seq<Ticket>, at: nat)
    requires EntryInv(e, tickets)
    ensures EntryInv(e.(failures := CountFailure(e.failures)), tickets)
    ensures EntryInv(e.(failures := CountFailure(e.failures), idleSince := at), tickets)
  {}

  lemma SameTickets(s: System, t: Table)
    requires TicketsOk(s) && t.nextGen == s.table.nextGen && t.entries.Keys <= s.table.entries.Keys
    requires forall k :: k in t.entries ==> t.entries[k].gen == s.table.entries[k].gen
    ensures TicketsOk(s.(table := t))
  {}

  lemma LateFailureKeeps(s: System, capacity: nat, key: Key, now: int)
    requires Inv(s, capacity) && s.clock == now && capacity > 0
    ensures Inv(s.(table := LateFailure(s.table, capacity, key, now)), capacity)
  {
    hide EntryInv, WellFormed, TicketsOk;
    if key in s.table.entries {
      LateFailureInPlace(s, capacity, key, now);
    } else if MakeRoom(s.table, capacity).Free? {
      MakeRoomKeeps(s, capacity);
      OpenKeeps(s.(table := MakeRoom(s.table, capacity).table), capacity, key, 1, 0, now);
    }
  }

  lemma LateFailureInPlace(s: System, capacity: nat, key: Key, now: int)
    requires Inv(s, capacity) && key in s.table.entries
    ensures Inv(s.(table := LateFailure(s.table, capacity, key, now)), capacity)
  {
    hide EntryInv, WellFormed, TicketsOk, MakeRoom;
    var t := LateFailure(s.table, capacity, key, now);
    MoreFailures(s.table.entries[key], s.tickets, s.table.tick);
    assert t.entries.Keys == s.table.entries.Keys;
    PutApart(s.table, key);
    StampsBelowTick(s.table);
    EntryOkOf(s.table, key);
    PutWellFormed(s.table, t, key, t.entries[key]);
    SameTickets(s, t);
  }

  lemma CompleteKeeps(s: System, capacity: nat, i: nat, result: Completion, now: int)
    requires Inv(s, capacity) && OpenUncounted(s.tickets) && s.clock <= now && capacity > 0
    ensures Inv(Step(s, capacity, Finished(i, result, now)), capacity)
  {
    hide EntryInv, WellFormed, TicketsOk, Finish, LateFailure, Prune;
    if i < |s.tickets| && s.tickets[i].open {
      PruneKeeps(s, capacity, now);
      var p := s.(table := Prune(s.table, now), clock := now);
      var ticket := s.tickets[i];
      if result == Success {
        RemoveKeeps(p, capacity, ticket.key);
        ForgetKeeps(p.(table := p.table.(entries := p.table.entries - {ticket.key})), capacity, i);
      } else if OwnGenerationAlive(p.table, ticket) {
        FinishKeeps(p, capacity, i, result == Failure);
      } else {
        ForgetKeeps(p, capacity, i);
        if result == Failure {
          LateFailureKeeps(p.(tickets := p.tickets[i := ticket.(open := false, counted := false)]), capacity, ticket.key, now);
        }
      }
    }
  }

  /** Every reachable state of the limiter satisfies the invariant. */
  lemma {:induction false} RunKeepsInvariant(clock: int, capacity: nat, events: seq<Event>)
    requires capacity > 0 && TimelyRun(Initial(clock), capacity, events)
    ensures Inv(Run(Initial(clock), capacity, events), capacity)
    ensures OpenUncounted(Run(Initial(clock), capacity, events).tickets)
    decreases |events|
  {
    hide Inv, Admit, Complete;
    if events == [] {
      InitialInv(clock, capacity);
    } else {
      var front, e := events[..|events| - 1], events[|events| - 1];
      RunKeepsInvariant(clock, capacity, front);
      var s := Run(Initial(clock), capacity, front);
      match e {
        case Arrive(key, now) => AdmitKeeps(s, capacity, key, now);
        case Finished(i, result, now) => CompleteKeeps(s, capacity, i, result, now);
      }
    }
  }

  lemma InitialInv(clock: int, capacity: nat)
    ensures Inv(Initial(clock), capacity)
  {}

  // ----- what the invariant means for callers

  /**
    In every reachable state each live bucket has exactly as many reservations as there are
    unfinished admissions of its generation, and these plus the generation's own failures
    stay within the limit.
   */
  lemma QuotaOverRuns(clock: int, capacity: nat, events: seq<Event>, key: Key)
    requires capacity > 0 && TimelyRun(Initial(clock), capacity, events)
    requires key in Run(Initial(clock), capacity, events).table.entries
    ensures var s := Run(Initial(clock), capacity, events);
            var e := s.table.entries[key];
            && e.failures <= FAILURE_LIMIT
            && e.pending == Tally(s.tickets, e.gen, IsOpen)
            && Tally(s.tickets, e.gen, IsOpen) + Tally(s.tickets, e.gen, IsCounted) <= FAILURE_LIMIT
            && |s.table.entries| <= capacity
  {
    hide Run, TimelyRun, Tally;
    RunKeepsInvariant(clock, capacity, events);
  }

  /** The attempts of a generation that are in flight or have counted as failures, whether its bucket still lives or not. */
  ghost predicate WithinQuota(tickets: seq<Ticket>, gen: nat) {
    Tally(tickets, gen, IsOpen) + Tally(tickets, gen, IsCounted) <= FAILURE_LIMIT
  }

  lemma TicketAdded(tickets: seq<Ticket>, ticket: Ticket, gen: nat)
    requires ticket.open && !ticket.counted
    requires WithinQuota(tickets, gen)
    requires ticket.gen == gen ==> Tally(tickets, gen, IsOpen) + Tally(tickets, gen, IsCounted) < FAILURE_LIMIT
    ensures WithinQuota(tickets + [ticket], gen)
  {
    hide Tally;
    TallyAppend(tickets, ticket, gen, IsOpen);
    TallyAppend(tickets, ticket, gen, IsCounted);
  }

  lemma TicketClosed(tickets: seq<Ticket>, i: nat, counted: bool, gen: nat)
    requires i < |tickets| && tickets[i].open && !tickets[i].counted && WithinQuota(tickets, gen)
    ensures WithinQuota(tickets[i := tickets[i].(open := false, counted := counted)], gen)
  {
    hide Tally;
    TallyUpdate(tickets, i, tickets[i].(open := false, counted := counted), gen, IsOpen);
    TallyUpdate(tickets, i, tickets[i].(open := false, counted := counted), gen, IsCounted);
  }

  /** An admission goes to a generation that has room for it. */
  lemma AdmittedHasRoom(s: System, capacity: nat, key: Key, now: int)
    requires Inv(s, capacity) && Admit(s.table, capacity, key, now).1.Admitted?
    ensures var gen := Admit(s.table, capacity, key, now).1.gen;
            Tally(s.tickets, gen, IsOpen) + Tally(s.tickets, gen, IsCounted) < FAILURE_LIMIT
  {
    hide WellFormed, Tally;
    var p := Prune(s.table, now);
    if key in p.entries {
      assert EntryInv(s.table.entries[key], s.tickets);
    } else {
      TallyZero(s.tickets, s.table.nextGen, IsOpen);
      TallyZero(s.tickets, s.table.nextGen, IsCounted);
    }
  }

  /**
    The quota of every generation, dead ones included: in every reachable state no bucket that ever
    existed has let more than five attempts be in flight or fail.
   */
  lemma {:induction false} QuotaOfEveryGeneration(clock: int, capacity: nat, events: seq<Event>, gen: nat)
    requires capacity > 0 && TimelyRun(Initial(clock), capacity, events)
    ensures WithinQuota(Run(Initial(clock), capacity, events).tickets, gen)
    decreases |events|
  {
    if events != [] {
      var front, e := events[..|events| - 1], events[|events| - 1];
      var s := Run(Initial(clock), capacity, front);
      assert Run(Initial(clock), capacity, events) == Step(s, capacity, e);
      QuotaOfEveryGeneration(clock, capacity, front, gen);
      RunKeepsInvariant(clock, capacity, front);
      hide Inv, Admit, Complete, WithinQuota, Run, TimelyRun, Tally, Prune;
      match e {
        case Arrive(key, now) =>
          if Admit(s.table, capacity, key, now).1.Admitted? {
            AdmittedHasRoom(s, capacity, key, now);
            TicketAdded(s.tickets, Ticket(key, Admit(s.table, capacity, key, now).1.gen, true, false), gen);
          }
        case Finished(i, result, now) =>
          if i < |s.tickets| && s.tickets[i].open {
            TicketClosed(s.tickets, i, result == Failure && OwnGenerationAlive(Prune(s.table, now), s.tickets[i]), gen);
          }
      }
    }
  }

  /** After an operation at `now` every entry left is unexpired. */
  lemma NothingExpiredIsLeft(s: System, capacity: nat, e: Event, key: Key)
    requires capacity > 0 && Inv(s, capacity) && OpenUncounted(s.tickets) && Timely(s, e)
    requires e.Finished? ==> e.ticket < |s.tickets| && s.tickets[e.ticket].open
    requires key in Step(s, capacity, e).table.entries
    ensures var x := Step(s, capacity, e).table.entries[key];
            e.now < x.expiresAt <= e.now + WINDOW
  {
    hide WellFormed, TicketsOk, EntryInv;
    PruneKeeps(s, capacity, e.now);
  }

  /** A refusal always names a wait between one second and the window. */
  lemma RefusalIsBounded(s: System, capacity: nat, key: Key, now: int)
    requires capacity > 0 && Inv(s, capacity) && s.clock <= now
    requires Admit(s.table, capacity, key, now).1.Refused?
    ensures SECOND <= Admit(s.table, capacity, key, now).1.retry <= WINDOW
  {
    hide WellFormed, TicketsOk, EntryInv;
    PruneKeeps(s, capacity, now);
  }

  /**
    A completion whose own generation is gone never touches another generation's reservations:
    every bucket it leaves in place keeps its pending count.
   */
  lemma DeadGenerationKeepsPending(s: System, capacity: nat, i: nat, result: Completion, now: int, key: Key)
    requires i < |s.tickets| && s.tickets[i].open && !OwnGenerationAlive(Prune(s.table, now), s.tickets[i])
    requires key in Prune(s.table, now).entries
    ensures key in Step(s, capacity, Finished(i, result, now)).table.entries ==>
              var before := Prune(s.table, now).entries[key];
              var after := Step(s, capacity, Finished(i, result, now)).table.entries[key];
              after.gen == before.gen && after.pending == before.pending && after.expiresAt == before.expiresAt &&
              (after.failures == before.failures ||
               (result == Failure && key == s.tickets[i].key && after.failures == before.failures + 1))
  {
    hide Prune;
    var p := Prune(s.table, now);
    if result == Failure && key in LateFailure(p, capacity, s.tickets[i].key, now).entries {
      LateFailureEffect(p, capacity, s.tickets[i].key, now, key);
    }
  }

  lemma LateFailureEffect(t: Table, capacity: nat, failed: Key, now: int, key: Key)
    requires key in t.entries && key in LateFailure(t, capacity, failed, now).entries
    ensures var before, after := t.entries[key], LateFailure(t, capacity, failed, now).entries[key];
            after.gen == before.gen && after.pending == before.pending && after.expiresAt == before.expiresAt &&
            (after.failures == before.failures || (key == failed && after.failures == before.failures + 1))
  {}

  /** Completing the same admission again changes nothing at all. */
  lemma SecondCompletionIsNoOp(s: System, capacity: nat, i: nat, first: Completion, again: Completion, now: int, later: int)
    requires i < |s.tickets|
    ensures var once := Step(s, capacity, Finished(i, first, now));
            Step(once, capacity, Finished(i, again, later)) == once
  {}
}
