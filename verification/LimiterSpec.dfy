/**
  What the login limiter of `internal/auth/limiter.go` is meant to be: a plain map from
  key to counters, in which expiry and eviction are decided by looking at every entry.

  A key stands for the keyed digest of address and user name. Instants are nanoseconds.
  `gen` numbers the buckets in the order of their creation, so two buckets that
  live one after the other under the same key are told apart, as their pointers are;
  `idleSince` is the moment (counted in `tick`s) at which an entry last became idle.
 */
module LimiterSpec {

  const FAILURE_LIMIT: nat := 5
  const WINDOW: int := 900_000_000_000
  const SECOND: int := 1_000_000_000

  datatype Key = Key(digest: nat)

  datatype Entry = Entry(gen: nat, failures: nat, pending: nat, expiresAt: int, idleSince: nat)

  datatype Table = Table(entries: map<Key, Entry>, nextGen: nat, tick: nat)

  datatype Outcome = Admitted(gen: nat) | Refused(retry: int)

  datatype Completion = Failure | Success | Cancel

  // ----- the scans

  function Prune(t: Table, now: int): Table {
    t.(entries := map k | k in t.entries && now < t.entries[k].expiresAt :: t.entries[k])
  }

  /** Fewest failures first, then longest idle first. */
  predicate EvictedBefore(a: Entry, b: Entry) {
    a.failures < b.failures || (a.failures == b.failures && a.idleSince < b.idleSince)
  }

  /** `k` is idle and is evicted before every other idle entry. */
  ghost predicate IsVictim(entries: map<Key, Entry>, k: Key) {
    k in entries && entries[k].pending == 0 &&
    forall j :: j in entries && j != k && entries[j].pending == 0 ==> EvictedBefore(entries[k], entries[j])
  }

  lemma VictimUnique(entries: map<Key, Entry>, j: Key, k: Key)
    requires IsVictim(entries, j) && IsVictim(entries, k)
    ensures j == k
  {}

  ghost function Victim(entries: map<Key, Entry>): (k: Key)
    requires exists j :: IsVictim(entries, j)
    ensures IsVictim(entries, k)
  {
    var k :| IsVictim(entries, k);
    k
  }

  datatype Room = Full | Free(table: Table)

  ghost function MakeRoom(t: Table, capacity: nat): Room {
    if |t.entries| < capacity then Free(t)
    else if exists k :: IsVictim(t.entries, k) then Free(t.(entries := t.entries - {Victim(t.entries)}))
    else Full
  }

  function Retry(expiresAt: int, now: int): int {
    if expiresAt - now < SECOND then SECOND else expiresAt - now
  }

  ghost function Admit(t: Table, capacity: nat, key: Key, now: int): (Table, Outcome) {
    var p := Prune(t, now);
    if key in p.entries then
      var e := p.entries[key];
      if e.failures + e.pending >= FAILURE_LIMIT then (p, Refused(Retry(e.expiresAt, now)))
      else (p.(entries := p.entries[key := e.(pending := e.pending + 1)]), Admitted(e.gen))
    else
      match MakeRoom(p, capacity)
      case Full => (p, Refused(SECOND))
      case Free(r) =>
        (Table(r.entries[key := Entry(r.nextGen, 0, 1, now + WINDOW, 0)], r.nextGen + 1, r.tick), Admitted(r.nextGen))
  }

  function CountFailure(failures: nat): nat {
    if failures < FAILURE_LIMIT then failures + 1 else failures
  }

  /** One attempt of the entry's own generation ends without success. */
  function Finish(t: Table, key: Key, failed: bool): Table
    requires key in t.entries
  {
    var e := t.entries[key];
    var pending := if e.pending > 0 then e.pending - 1 else 0;
    var failures := if failed then CountFailure(e.failures) else e.failures;
    if pending == 0 && failures == 0 then t.(entries := t.entries - {key})
    else if pending == 0 then
      t.(entries := t.entries[key := e.(pending := 0, failures := failures, idleSince := t.tick)], tick := t.tick + 1)
    else t.(entries := t.entries[key := e.(pending := pending, failures := failures)])
  }

  /** A failure whose own generation is gone counts in the current window, or opens one. */
  ghost function LateFailure(t: Table, capacity: nat, key: Key, now: int): Table {
    if key in t.entries then
      var e := t.entries[key].(failures := CountFailure(t.entries[key].failures));
      if e.pending == 0 then t.(entries := t.entries[key := e.(idleSince := t.tick)], tick := t.tick + 1)
      else t.(entries := t.entries[key := e])
    else
      match MakeRoom(t, capacity)
      case Full => t
      case Free(r) => Table(r.entries[key := Entry(r.nextGen, 1, 0, now + WINDOW, r.tick)], r.nextGen + 1, r.tick + 1)
  }

  ghost function Complete(t: Table, capacity: nat, key: Key, gen: nat, result: Completion, now: int): Table {
    var p := Prune(t, now);
    if result == Success then p.(entries := p.entries - {key})
    else if key in p.entries && p.entries[key].gen == gen then Finish(p, key, result == Failure)
    else if result == Failure then LateFailure(p, capacity, key, now)
    else p
  }

  // ----- what every table keeps

  ghost predicate WellFormed(t: Table) {
    && (forall k :: k in t.entries ==> EntryOk(t, t.entries[k]))
    && (forall j, k :: j in t.entries && k in t.entries && j != k ==> t.entries[j].gen != t.entries[k].gen)
    && (forall j, k :: j in t.entries && k in t.entries && j != k && t.entries[j].pending == 0 && t.entries[k].pending == 0
          ==> t.entries[j].idleSince != t.entries[k].idleSince)
  }

  predicate EntryOk(t: Table, e: Entry) {
    e.gen < t.nextGen && e.failures <= FAILURE_LIMIT &&
    (e.pending == 0 ==> e.failures >= 1 && e.idleSince < t.tick)
  }

  /** While some entry is idle there is a victim: a full table refuses only if every entry has work in flight. */
  lemma {:induction false} SomeVictim(t: Table, idle: set<Key>)
    requires WellFormed(t)
    requires idle == set k | k in t.entries && t.entries[k].pending == 0
    requires idle != {}
    ensures exists k :: IsVictim(t.entries, k)
  {
    var k := LeastOf(t, idle);
    assert IsVictim(t.entries, k);
  }

  lemma {:induction false} LeastOf(t: Table, among: set<Key>) returns (k: Key)
    requires WellFormed(t)
    requires forall j :: j in among ==> j in t.entries && t.entries[j].pending == 0
    requires among != {}
    ensures k in among && forall j :: j in among && j != k ==> EvictedBefore(t.entries[k], t.entries[j])
    decreases among
  {
    k :| k in among;
    if among != {k} {
      var rest := among - {k};
      var j := LeastOf(t, rest);
      if EvictedBefore(t.entries[j], t.entries[k]) {
        k := j;
      }
    }
  }

  /** Room is refused exactly when the table is full of work in flight. */
  lemma RefusedOnlyInFlight(t: Table, capacity: nat)
    requires WellFormed(t)
    ensures MakeRoom(t, capacity).Full? <==> |t.entries| >= capacity && forall k :: k in t.entries ==> t.entries[k].pending > 0
  {
    var idle := set k | k in t.entries && t.entries[k].pending == 0;
    if idle != {} {
      SomeVictim(t, idle);
    } else {
      forall k | k in t.entries ensures t.entries[k].pending > 0 {
        assert k !in idle;
      }
    }
  }

  /** Fewer entries, the rest untouched. */
  ghost predicate SubTable(a: map<Key, Entry>, b: map<Key, Entry>) {
    a.Keys <= b.Keys && forall k :: k in a ==> a[k] == b[k]
  }

  lemma SubTableWellFormed(t: Table, entries: map<Key, Entry>)
    requires WellFormed(t) && SubTable(entries, t.entries)
    ensures WellFormed(t.(entries := entries))
  {
    hide EntryOk;
    var u := t.(entries := entries);
    forall k | k in entries ensures EntryOk(u, entries[k]) {
      EntryOkLater(t, u, entries[k]);
    }
  }

  lemma EntryOkLater(t: Table, u: Table, e: Entry)
    requires EntryOk(t, e) && t.nextGen <= u.nextGen && t.tick <= u.tick
    ensures EntryOk(u, e)
  {}

  /** Writing one entry keeps a table well formed if its generation and idle stamp are not another entry's. */
  lemma PutWellFormed(t: Table, u: Table, key: Key, e: Entry)
    requires WellFormed(t)
    requires u.entries == t.entries[key := e] && t.nextGen <= u.nextGen && t.tick <= u.tick
    requires EntryOk(u, e)
    requires forall k :: k in t.entries && k != key ==> t.entries[k].gen != e.gen
    requires e.pending == 0 ==> forall k :: k in t.entries && k != key && t.entries[k].pending == 0 ==> t.entries[k].idleSince != e.idleSince
    ensures WellFormed(u)
  {
    hide EntryOk;
    forall k | k in u.entries ensures EntryOk(u, u.entries[k]) {
      if k != key {
        EntryOkLater(t, u, t.entries[k]);
      }
    }
  }

  lemma StampsBelowTick(t: Table)
    requires WellFormed(t)
    ensures forall k :: k in t.entries ==> t.entries[k].gen < t.nextGen
    ensures forall k :: k in t.entries && t.entries[k].pending == 0 ==> t.entries[k].idleSince < t.tick
  {}

  lemma FinishWellFormed(t: Table, key: Key, failed: bool)
    requires WellFormed(t) && key in t.entries
    ensures WellFormed(Finish(t, key, failed))
  {
    StampsBelowTick(t);
    var u := Finish(t, key, failed);
    if key in u.entries {
      assert EntryOk(t, t.entries[key]);
      hide WellFormed;
      PutApart(t, key);
      PutWellFormed(t, u, key, u.entries[key]);
    } else {
      SubTableWellFormed(t, u.entries);
    }
  }

  lemma PutApart(t: Table, key: Key)
    requires WellFormed(t) && key in t.entries
    ensures forall k :: k in t.entries && k != key ==> t.entries[k].gen != t.entries[key].gen
  {}
}
