/** Which rows the collector writes into the event log, said of the successful polls alone. */
module CollectorEvents {
  import opened Common
  import opened Telemetry

  /** A poll that succeeded, by its place among the answers. */
  datatype Poll = Poll(index: nat, snapshot: Snapshot)

  function Polls(answers: seq<Read>): seq<Poll> {
    if answers == [] then []
    else
      var n := |answers| - 1;
      Polls(answers[..n]) + if answers[n].Success? then [Poll(n, answers[n].snapshot)] else []
  }

  /** The `k`-th success has another status, or other fault codes, than the one before it. */
  predicate Differs(polls: seq<Poll>, k: int, kind: string) {
    0 < k < |polls| &&
    var a, b := polls[k - 1].snapshot.reading, polls[k].snapshot.reading;
    || (kind == "status_change" && a.status != b.status)
    || (kind == "fault_change" && multiset(a.faults) != multiset(b.faults))
  }

  /** The row for it carries its snapshot and its time, or the clock's if it has none. */
  predicate RowFor(row: EventRow, poll: Poll, clock: nat -> nat) {
    && row.snapshot == poll.snapshot && row.at != 0
    && row.at == if poll.snapshot.observedAt != 0 then poll.snapshot.observedAt else clock(poll.index)
  }

  ghost predicate Reported(row: EventRow, polls: seq<Poll>, clock: nat -> nat, up: (nat, string) -> bool) {
    exists k :: Differs(polls, k, row.kind) && up(polls[k].index, row.kind) && RowFor(row, polls[k], clock)
  }

  lemma {:induction false} LastIsPolled(answers: seq<Read>)
    ensures var polls := Polls(answers);
            LastSnapshot(answers) == if polls == [] then None else Some(polls[|polls| - 1].snapshot)
    decreases |answers|
  {
    if answers != [] {
      LastIsPolled(answers[..|answers| - 1]);
    }
  }

  lemma OneMorePoll(polls: seq<Poll>, x: Poll, row: EventRow, clock: nat -> nat, up: (nat, string) -> bool)
    ensures Reported(row, polls + [x], clock, up) <==>
              || Reported(row, polls, clock, up)
              || (Differs(polls + [x], |polls|, row.kind) && up(x.index, row.kind) && RowFor(row, x, clock))
  {
    hide RowFor;
    var more := polls + [x];
    forall k | 0 < k < |polls| ensures Differs(more, k, row.kind) <==> Differs(polls, k, row.kind) {
      assert more[k] == polls[k] && more[k - 1] == polls[k - 1];
    }
    if Reported(row, polls, clock, up) {
      var k :| Differs(polls, k, row.kind) && up(polls[k].index, row.kind) && RowFor(row, polls[k], clock);
      assert Differs(more, k, row.kind) && more[k] == polls[k];
    }
    if Differs(more, |polls|, row.kind) && up(x.index, row.kind) && RowFor(row, x, clock) {
      assert more[|polls|] == x;
    }
  }

  lemma ChangesAreRows(previous: Snapshot, x: Poll, row: EventRow, clock: nat -> nat, up: (nat, string) -> bool)
    ensures row in ChangesFrom(Some(previous), x.snapshot, clock(x.index), kind => up(x.index, kind)) <==>
              && RowFor(row, x, clock) && up(x.index, row.kind)
              && (|| (row.kind == "status_change" && previous.reading.status != x.snapshot.reading.status)
                  || (row.kind == "fault_change" && multiset(previous.reading.faults) != multiset(x.snapshot.reading.faults)))
  {}

  /**
    A row is in the event log if and only if it reports that some success differs from the one before
    it, failed polls in between or not, at a moment at which the store takes that kind of row.
   */
  lemma {:induction false} EventsTell(answers: seq<Read>, clock: nat -> nat, up: (nat, string) -> bool, row: EventRow)
    ensures row in Events(answers, clock, up) <==> Reported(row, Polls(answers), clock, up)
    decreases |answers|
  {
    if answers != [] {
      var n := |answers| - 1;
      EventsTell(answers[..n], clock, up, row);
      LastIsPolled(answers[..n]);
      hide Reported, ChangesFrom, RowFor;
      var polls := Polls(answers[..n]);
      assert polls + [] == polls;
      if answers[n].Success? {
        var x := Poll(n, answers[n].snapshot);
        OneMorePoll(polls, x, row, clock, up);
        if polls == [] {
          NothingBefore(x.snapshot, clock(n), kind => up(n, kind));
        } else {
          assert (polls + [x])[|polls|] == x && (polls + [x])[|polls| - 1] == polls[|polls| - 1];
          ChangesAreRows(polls[|polls| - 1].snapshot, x, row, clock, up);
        }
      }
    }
  }

  lemma NothingBefore(s: Snapshot, now: nat, up: string -> bool)
    ensures ChangesFrom(None, s, now, up) == []
  {}

  /** The successes of which a row of this kind reports a change. */
  function Changed(polls: seq<Poll>, kind: string, clock: nat -> nat, up: (nat, string) -> bool): set<nat> {
    set k: nat | k < |polls| && Differs(polls, k, kind) && up(polls[k].index, kind)
                 && (polls[k].snapshot.observedAt != 0 || clock(polls[k].index) != 0)
  }

  lemma OneMoreChanged(polls: seq<Poll>, x: Poll, kind: string, clock: nat -> nat, up: (nat, string) -> bool)
    ensures |Changed(polls + [x], kind, clock, up)|
            == |Changed(polls, kind, clock, up)|
               + if Differs(polls + [x], |polls|, kind) && up(x.index, kind) && (x.snapshot.observedAt != 0 || clock(x.index) != 0)
                 then 1 else 0
  {
    var n, more := |polls|, polls + [x];
    var fewer, all := Changed(polls, kind, clock, up), Changed(more, kind, clock, up);
    forall k | 0 <= k < n ensures more[k] == polls[k] && (Differs(more, k, kind) <==> Differs(polls, k, kind)) {
      assert k > 0 ==> more[k - 1] == polls[k - 1];
    }
    assert n !in fewer && all - {n} == fewer;
    assert n in all ==> |all - {n}| == |all| - 1;
  }

  /** Each such change is reported once. */
  lemma {:induction false} EachChangeOnce(answers: seq<Read>, clock: nat -> nat, up: (nat, string) -> bool)
    ensures var polls := Polls(answers);
            |Events(answers, clock, up)|
            == |Changed(polls, "status_change", clock, up)| + |Changed(polls, "fault_change", clock, up)|
    decreases |answers|
  {
    if answers != [] {
      var n := |answers| - 1;
      EachChangeOnce(answers[..n], clock, up);
      LastIsPolled(answers[..n]);
      var polls := Polls(answers[..n]);
      assert polls + [] == polls;
      if answers[n].Success? {
        var x := Poll(n, answers[n].snapshot);
        assert (polls + [x])[|polls|] == x && (polls != [] ==> (polls + [x])[|polls| - 1] == polls[|polls| - 1]);
        hide Changed;
        OneMoreChanged(polls, x, "status_change", clock, up);
        OneMoreChanged(polls, x, "fault_change", clock, up);
      }
    }
  }
}
