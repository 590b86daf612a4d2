/**
  Splitting an hour at local midnights: `splitCalendarHour` of `internal/storage/calendar.go`.

  Instants and durations are nanoseconds. A zone says which local day (a day number) an
  instant falls on, where the code places the start of a day and where, a day added to that,
  it places its end; the three need not fit together, as when clocks skip midnight.
 */
module HourSplit {

  const HOUR: int := 3_600_000_000_000

  datatype Zone = Zone(start: int -> int, end: int -> int, dayOf: int -> int)

  /** The end the code computes for the day `t` falls on. */
  function Next(z: Zone, t: int): int {
    z.end(z.dayOf(t))
  }

  datatype Segment = Segment(day: int, duration: int, productive: int)

  // ----- the cursor

  function Step(z: Zone, cursor: int, end: int): int {
    if Next(z, cursor) < end then Next(z, cursor) else end
  }

  /** Where the loop's cursor is after `n` rounds. */
  function Cursor(z: Zone, at: int, end: int, n: nat): int {
    if n == 0 then at
    else if Cursor(z, at, end, n - 1) < end then Step(z, Cursor(z, at, end, n - 1), end)
    else Cursor(z, at, end, n - 1)
  }

  /** From every instant of the stretch the next boundary lies strictly ahead. */
  ghost predicate Progresses(z: Zone, from: int, to: int) {
    forall t :: from <= t < to ==> Next(z, t) > t
  }

  ghost predicate Monotone(z: Zone) {
    forall s, t :: s <= t ==> Next(z, s) <= Next(z, t)
  }

  lemma {:induction false} CursorAdvances(z: Zone, at: int, end: int, n: nat)
    requires Progresses(z, at, end) && at <= end
    ensures at <= Cursor(z, at, end, n) <= end && (Cursor(z, at, end, n) == end || Cursor(z, at, end, n) >= at + n)
    decreases n
  {
    hide Next;
    if n > 0 {
      CursorAdvances(z, at, end, n - 1);
    }
  }

  lemma {:induction false} CursorStuck(z: Zone, at: int, end: int, t: int, n: nat)
    requires Monotone(z) && at <= t < end && Next(z, t) <= t
    ensures Cursor(z, at, end, n) <= t
    decreases n
  {
    hide Next;
    if n > 0 {
      CursorStuck(z, at, end, t, n - 1);
      assert Next(z, Cursor(z, at, end, n - 1)) <= Next(z, t);
    }
  }

  predicate Reached(z: Zone, at: int, n: nat) { Cursor(z, at, at + HOUR, n) >= at + HOUR }

  /** The loop over the hour that begins at `at` ends after some number of rounds. */
  ghost predicate Terminates(z: Zone, at: int) { exists n: nat :: Reached(z, at, n) }

  /**
    The code never checks that the next day begins after the cursor. For a zone whose boundaries do
    not go back, its loop ends if and only if that holds at every instant of the hour.
   */
  lemma SplitTerminatesIff(z: Zone, at: int)
    requires Monotone(z)
    ensures Terminates(z, at) <==> Progresses(z, at, at + HOUR)
  {
    hide Next, Cursor, Monotone;
    if Progresses(z, at, at + HOUR) {
      CursorAdvances(z, at, at + HOUR, HOUR);
      assert Reached(z, at, HOUR);
    } else {
      var t :| at <= t < at + HOUR && Next(z, t) <= t;
      forall n: nat ensures !Reached(z, at, n) {
        CursorStuck(z, at, at + HOUR, t, n);
      }
    }
  }

  /** A day whose midnight is skipped, its start placed an hour early: the loop stays at 23:00 for ever. */
  lemma {:induction false} SkippedMidnightNeverEnds(n: nat)
    ensures var z := Zone(d => if d == 1 then 23 * HOUR else d * 24 * HOUR,
                          d => if d == 0 then 23 * HOUR else (d + 1) * 24 * HOUR, t => t / (24 * HOUR));
            Cursor(z, 23 * HOUR, 24 * HOUR, n) == 23 * HOUR
  {
    if n > 0 {
      SkippedMidnightNeverEnds(n - 1);
    }
  }

  // ----- the stretches between midnights

  datatype Stretch = Stretch(day: int, duration: int)

  function Stretches(z: Zone, cursor: int, end: int): seq<Stretch>
    requires Progresses(z, cursor, end)
    decreases end - cursor
  {
    if cursor >= end then []
    else
      var segmentEnd := Step(z, cursor, end);
      assert segmentEnd > cursor by { assert Next(z, cursor) > cursor; }
      [Stretch(z.dayOf(cursor), segmentEnd - cursor)] + Stretches(z, segmentEnd, end)
  }

  function Length(s: seq<Stretch>): int {
    if s == [] then 0 else s[0].duration + Length(s[1..])
  }

  /** The stretches tile the time from `cursor` to `end`, each of them non-empty. */
  lemma {:induction false} StretchesTile(z: Zone, cursor: int, end: int)
    requires Progresses(z, cursor, end) && cursor <= end
    ensures Length(Stretches(z, cursor, end)) == end - cursor
    ensures forall i :: 0 <= i < |Stretches(z, cursor, end)| ==> Stretches(z, cursor, end)[i].duration > 0
    ensures cursor < end ==> Stretches(z, cursor, end) != []
    decreases end - cursor
  {
    if cursor < end {
      assert Next(z, cursor) > cursor;
      hide Next;
      StretchesTile(z, Step(z, cursor, end), end);
      assert Stretches(z, cursor, end)[1..] == Stretches(z, Step(z, cursor, end), end);
    }
  }

  // ----- apportioning by largest remainder

  function Share(productive: nat, s: Stretch): int { productive * s.duration }

  function Floor(share: int): int { share / HOUR }

  function Remainder(share: int): int { share % HOUR }

  function Sum(s: seq<int>): int {
    if s == [] then 0 else Sum(s[..|s| - 1]) + s[|s| - 1]
  }

  /** Earlier in the order of handing out extras: the larger remainder, then the earlier segment. */
  predicate Beats(rem: seq<int>, i: nat, j: nat)
    requires i < |rem| && j < |rem|
  {
    rem[i] > rem[j] || (rem[i] == rem[j] && i < j)
  }

  /** Stable insertion by falling remainder. */
  function Place(rem: seq<int>, order: seq<nat>, x: nat): (r: seq<nat>)
    requires x < |rem| && forall i :: 0 <= i < |order| ==> order[i] < |rem|
    ensures |r| == |order| + 1
    ensures forall i :: 0 <= i < |r| ==> r[i] < |rem|
  {
    if order == [] || rem[order[|order| - 1]] >= rem[x] then order + [x]
    else Place(rem, order[..|order| - 1], x) + [order[|order| - 1]]
  }

  function Ordering(rem: seq<int>, n: nat): (r: seq<nat>)
    requires n <= |rem|
    ensures |r| == n
    ensures forall i :: 0 <= i < |r| ==> r[i] < |rem|
  {
    if n == 0 then [] else Place(rem, Ordering(rem, n - 1), n - 1)
  }

  ghost predicate SortedBy(rem: seq<int>, order: seq<nat>) {
    && (forall i :: 0 <= i < |order| ==> order[i] < |rem|)
    && (forall i, j :: 0 <= i < j < |order| ==> Beats(rem, order[i], order[j]))
  }

  lemma {:induction false} PlaceMembers(rem: seq<int>, order: seq<nat>, x: nat)
    requires x < |rem| && forall i :: 0 <= i < |order| ==> order[i] < |rem|
    ensures forall y :: y in Place(rem, order, x) <==> y in order || y == x
    decreases |order|
  {
    if order != [] && !(rem[order[|order| - 1]] >= rem[x]) {
      PlaceMembers(rem, order[..|order| - 1], x);
      assert order == order[..|order| - 1] + [order[|order| - 1]];
    }
  }

  lemma {:induction false} PlaceKeeps(rem: seq<int>, order: seq<nat>, x: nat)
    requires SortedBy(rem, order) && x < |rem| && forall i :: 0 <= i < |order| ==> order[i] < x
    ensures SortedBy(rem, Place(rem, order, x))
    decreases |order|
  {
    if order != [] && !(rem[order[|order| - 1]] >= rem[x]) {
      var n := |order| - 1;
      PlaceKeeps(rem, order[..n], x);
      PlaceMembers(rem, order[..n], x);
      BeatenByAll(rem, order);
      SortedAppend(rem, Place(rem, order[..n], x), order[n]);
    } else if order != [] {
      AllBeatNewcomer(rem, order, x);
      SortedAppend(rem, order, x);
    }
  }

  lemma BeatenByAll(rem: seq<int>, order: seq<nat>)
    requires SortedBy(rem, order) && order != []
    ensures AllBeat(rem, order[..|order| - 1], order[|order| - 1])
  {
    hide Beats;
  }

  ghost predicate AllBeat(rem: seq<int>, order: seq<nat>, x: nat) {
    x < |rem| && forall y :: y in order ==> y < |rem| && Beats(rem, y, x)
  }

  lemma AllBeatNewcomer(rem: seq<int>, order: seq<nat>, x: nat)
    requires SortedBy(rem, order) && order != [] && x < |rem| && forall i :: 0 <= i < |order| ==> order[i] < x
    requires rem[order[|order| - 1]] >= rem[x]
    ensures AllBeat(rem, order, x)
  {
    forall y | y in order ensures Beats(rem, y, x) {
      var i :| 0 <= i < |order| && order[i] == y;
      assert i < |order| - 1 ==> Beats(rem, order[i], order[|order| - 1]);
    }
  }

  lemma SortedAppend(rem: seq<int>, order: seq<nat>, x: nat)
    requires SortedBy(rem, order) && AllBeat(rem, order, x)
    ensures SortedBy(rem, order + [x])
  {
    hide Beats;
    var more := order + [x];
    forall i, j | 0 <= i < j < |more| ensures more[i] < |rem| && more[j] < |rem| && Beats(rem, more[i], more[j]) {
      if j == |order| {
        assert more[i] in order;
      }
    }
  }

  lemma {:induction false} OrderingFacts(rem: seq<int>, n: nat)
    requires n <= |rem|
    ensures SortedBy(rem, Ordering(rem, n))
    ensures forall y: nat :: y in Ordering(rem, n) <==> y < n
    decreases n
  {
    if n > 0 {
      OrderingFacts(rem, n - 1);
      var o := Ordering(rem, n - 1);
      forall i | 0 <= i < |o| ensures o[i] < n - 1 {
        assert o[i] in o;
      }
      PlaceKeeps(rem, o, n - 1);
      PlaceMembers(rem, o, n - 1);
    }
  }

  function Shares(productive: nat, s: seq<Stretch>): (r: seq<int>)
    ensures |r| == |s| && forall i :: 0 <= i < |s| ==> r[i] == Share(productive, s[i])
  {
    seq(|s|, i requires 0 <= i < |s| => Share(productive, s[i]))
  }

  function Floors(shares: seq<int>): (r: seq<int>)
    ensures |r| == |shares| && forall i :: 0 <= i < |shares| ==> r[i] == Floor(shares[i])
  {
    seq(|shares|, i requires 0 <= i < |shares| => Floor(shares[i]))
  }

  function Remainders(shares: seq<int>): (r: seq<int>)
    ensures |r| == |shares| && forall i :: 0 <= i < |shares| ==> r[i] == Remainder(shares[i])
  {
    seq(|shares|, i requires 0 <= i < |shares| => Remainder(shares[i]))
  }

  /** One more for each of the first `extras` positions of the order. */
  function Bumped(floors: seq<int>, order: seq<nat>, extras: nat): (r: seq<int>)
    requires extras <= |order|
    ensures |r| == |floors|
    ensures forall i :: 0 <= i < |floors| ==> r[i] == floors[i] + (if i in order[..extras] then 1 else 0)
  {
    seq(|floors|, i requires 0 <= i < |floors| => floors[i] + (if i in order[..extras] then 1 else 0))
  }

  lemma {:induction false} SumAppend(s: seq<int>, x: int)
    ensures Sum(s + [x]) == Sum(s) + x
  {
    assert (s + [x])[..|s|] == s;
  }

  lemma {:induction false} SumUpdate(s: seq<int>, i: nat, x: int)
    requires i < |s|
    ensures Sum(s[i := x]) == Sum(s) - s[i] + x
    decreases |s|
  {
    var n := |s| - 1;
    if i < n {
      SumUpdate(s[..n], i, x);
      assert s[i := x][..n] == s[..n][i := x];
    } else {
      assert s[i := x][..n] == s[..n];
    }
  }

  /** Shares are whole minutes times the hour plus remainders, each remainder less than an hour. */
  lemma {:induction false} FloorsAndRemainders(shares: seq<int>)
    ensures HOUR * Sum(Floors(shares)) + Sum(Remainders(shares)) == Sum(shares)
    ensures 0 <= Sum(Remainders(shares)) && (shares != [] ==> Sum(Remainders(shares)) < HOUR * |shares|)
    decreases |shares|
  {
    if shares != [] {
      var n := |shares| - 1;
      FloorsAndRemainders(shares[..n]);
      assert Floors(shares)[..n] == Floors(shares[..n]) && Remainders(shares)[..n] == Remainders(shares[..n]);
    }
  }

  lemma {:induction false} SharesAddUp(productive: nat, s: seq<Stretch>)
    ensures Sum(Shares(productive, s)) == productive * Length(s)
    decreases |s|
  {
    if s != [] {
      var n := |s| - 1;
      SharesAddUp(productive, s[..n]);
      LengthAppend(s[..n], s[n]);
      assert s == s[..n] + [s[n]] && Shares(productive, s)[..n] == Shares(productive, s[..n]);
      Distribute(productive, Length(s[..n]), s[n].duration);
    }
  }

  lemma Distribute(p: int, a: int, b: int)
    ensures p * (a + b) == p * a + p * b
  {}

  lemma {:induction false} LengthAppend(s: seq<Stretch>, x: Stretch)
    ensures Length(s + [x]) == Length(s) + x.duration
    decreases |s|
  {
    if s == [] {
      assert (s + [x])[1..] == [];
    } else {
      assert (s + [x])[1..] == s[1..] + [x];
      LengthAppend(s[1..], x);
    }
  }

  lemma {:induction false} BumpedSum(floors: seq<int>, rem: seq<int>, order: seq<nat>, extras: nat)
    requires |rem| == |floors| && SortedBy(rem, order) && extras <= |order|
    ensures Sum(Bumped(floors, order, extras)) == Sum(floors) + extras
    decreases extras
  {
    if extras == 0 {
      assert Bumped(floors, order, 0) == floors;
    } else {
      BumpedSum(floors, rem, order, extras - 1);
      BumpOne(floors, rem, order, extras - 1);
    }
  }

  /** Going one place further down the order adds one to exactly that segment. */
  lemma BumpOne(floors: seq<int>, rem: seq<int>, order: seq<nat>, n: nat)
    requires |rem| == |floors| && SortedBy(rem, order) && n < |order|
    ensures order[n] !in order[..n]
    ensures var b := Bumped(floors, order, n);
            Bumped(floors, order, n + 1) == b[order[n] := b[order[n]] + 1]
    ensures Sum(Bumped(floors, order, n + 1)) == Sum(Bumped(floors, order, n)) + 1
  {
    var b, c := Bumped(floors, order, n), Bumped(floors, order, n + 1);
    assert order[..n + 1] == order[..n] + [order[n]];
    forall i | 0 <= i < n ensures order[i] != order[n] {
      assert Beats(rem, order[i], order[n]);
    }
    assert c == b[order[n] := b[order[n]] + 1];
    SumUpdate(b, order[n], b[order[n]] + 1);
  }

  /** The minutes of each segment: its floor, and one more for the largest remainders until nothing is left over. */
  function Apportion(productive: nat, s: seq<Stretch>): (r: seq<int>)
    requires Length(s) == HOUR && s != []
    ensures |r| == |s|
  {
    var shares := Shares(productive, s);
    LeftoverBounds(productive, s);
    Bumped(Floors(shares), Ordering(Remainders(shares), |s|), Leftover(productive, s))
  }

  function Leftover(productive: nat, s: seq<Stretch>): int {
    productive - Sum(Floors(Shares(productive, s)))
  }

  lemma LeftoverBounds(productive: nat, s: seq<Stretch>)
    requires Length(s) == HOUR && s != []
    ensures 0 <= Leftover(productive, s) < |s|
    ensures HOUR * Leftover(productive, s) == Sum(Remainders(Shares(productive, s)))
  {
    SharesAddUp(productive, s);
    FloorsAndRemainders(Shares(productive, s));
  }

  /** An extra never goes to a segment whose share was whole. */
  lemma {:induction false} ExtrasHaveRemainders(rem: seq<int>, order: seq<nat>, extras: nat)
    requires SortedBy(rem, order) && |order| == |rem| && extras <= |order|
    requires forall i :: 0 <= i < |rem| ==> 0 <= rem[i] < HOUR
    requires forall y: nat :: y in order <==> y < |rem|
    requires Sum(rem) == HOUR * extras
    ensures forall i :: 0 <= i < extras ==> rem[order[i]] > 0
  {
    if k :| 0 <= k < extras && rem[order[k]] == 0 {
      forall i: nat | i < |rem| && i !in order[..k] ensures rem[i] == 0 {
        assert i in order;
        var j :| 0 <= j < |order| && order[j] == i;
        assert forall m :: 0 <= m < k ==> order[..k][m] == order[m];
        assert j > k ==> Beats(rem, order[k], order[j]);
      }
      SumOfFew(rem, order[..k]);
    }
  }

  lemma {:induction false} SumOfFew(rem: seq<int>, few: seq<nat>)
    requires forall i :: 0 <= i < |rem| ==> 0 <= rem[i] < HOUR
    requires forall i :: 0 <= i < |rem| && i !in few ==> rem[i] == 0
    ensures Sum(rem) <= HOUR * |few| && (few != [] ==> Sum(rem) < HOUR * |few|)
    decreases |few|
  {
    if few == [] {
      SumOfZeros(rem);
    } else {
      var n := |few| - 1;
      var x := few[n];
      assert forall i :: i in few <==> i in few[..n] || i == x;
      if x < |rem| {
        SumOfFew(rem[x := 0], few[..n]);
        SumUpdate(rem, x, 0);
      } else {
        SumOfFew(rem, few[..n]);
      }
    }
  }

  lemma {:induction false} SumOfZeros(s: seq<int>)
    requires forall i :: 0 <= i < |s| ==> s[i] == 0
    ensures Sum(s) == 0
    decreases |s|
  {
    if s != [] {
      SumOfZeros(s[..|s| - 1]);
    }
  }

  /**
    Exact largest-remainder apportionment: the segments' minutes add up to the hour's, each is the
    floor or the ceiling of its share, and whoever is rounded up has a remainder at least as large
    as (and comes before, on a tie) whoever is not.
   */
  lemma LargestRemainder(productive: nat, s: seq<Stretch>)
    requires Length(s) == HOUR && s != []
    ensures var r, shares := Apportion(productive, s), Shares(productive, s);
            && Sum(r) == productive
            && (forall i :: 0 <= i < |s| ==>
                  r[i] == Floor(shares[i]) || (r[i] == Floor(shares[i]) + 1 && Remainder(shares[i]) > 0))
            && (forall i, j :: 0 <= i < |s| && 0 <= j < |s| && r[i] > Floor(shares[i]) && r[j] == Floor(shares[j])
                  ==> Beats(Remainders(shares), i, j))
  {
    hide Ordering, Sum, Shares, Floor, Remainder, Beats, Length;
    var shares := Shares(productive, s);
    var rem, floors, extras := Remainders(shares), Floors(shares), Leftover(productive, s);
    var order := Ordering(rem, |s|);
    LeftoverBounds(productive, s);
    OrderingFacts(rem, |s|);
    BumpedSum(floors, rem, order, extras);
    RemainderRange(shares);
    ExtrasHaveRemainders(rem, order, extras);
    var r := Apportion(productive, s);
    assert r == Bumped(floors, order, extras);
    forall i | 0 <= i < |s| && r[i] > floors[i] ensures i in order[..extras] && rem[i] > 0 {
      var k :| 0 <= k < extras && order[..extras][k] == i;
      assert order[k] == i;
    }
    forall i, j | 0 <= i < |s| && 0 <= j < |s| && r[i] > floors[i] && r[j] == floors[j] ensures Beats(rem, i, j) {
      ExtraBeats(rem, order, extras, i, j);
    }
  }

  lemma RemainderRange(shares: seq<int>)
    ensures forall i :: 0 <= i < |shares| ==> 0 <= Remainders(shares)[i] < HOUR
  {}

  lemma ExtraBeats(rem: seq<int>, order: seq<nat>, extras: nat, i: nat, j: nat)
    requires SortedBy(rem, order) && extras <= |order| && i in order[..extras] && j !in order[..extras] && j in order
    ensures i < |rem| && j < |rem| && Beats(rem, i, j)
  {
    hide Beats;
    var k :| 0 <= k < extras && order[..extras][k] == i;
    var l :| 0 <= l < |order| && order[l] == j;
    assert forall m :: 0 <= m < extras ==> order[..extras][m] == order[m];
  }

  // ----- the method

  function Zipped(s: seq<Stretch>, minutes: seq<int>): (r: seq<Segment>)
    requires |minutes| == |s|
    ensures |r| == |s| && forall i :: 0 <= i < |s| ==> r[i] == Segment(s[i].day, s[i].duration, minutes[i])
  {
    seq(|s|, i requires 0 <= i < |s| => Segment(s[i].day, s[i].duration, minutes[i]))
  }

  function Segments(z: Zone, at: int, productive: nat): (r: seq<Segment>)
    requires Progresses(z, at, at + HOUR)
    ensures |r| == |Stretches(z, at, at + HOUR)|
  {
    StretchesTile(z, at, at + HOUR);
    Zipped(Stretches(z, at, at + HOUR), Apportion(productive, Stretches(z, at, at + HOUR)))
  }

  datatype Piece = Piece(day: int, duration: int, productive: int, remainder: int)

  function PieceOf(s: Stretch, productive: nat): Piece {
    Piece(s.day, s.duration, Floor(Share(productive, s)), Remainder(Share(productive, s)))
  }

  method SplitCalendarHour(z: Zone, at: int, productive: nat) returns (segments: seq<Segment>)
    requires Progresses(z, at, at + HOUR)
    ensures segments == Segments(z, at, productive)
  {
    hide Apportion, Length;
    var end := at + HOUR;
    ghost var all := Stretches(z, at, end);
    StretchesTile(z, at, end);
    var pieces := CutAndShare(z, at, productive);
    var given := 0;
    for i := 0 to |pieces|
      invariant given == Sum(Floors(Shares(productive, all))[..i])
    {
      given := given + pieces[i].productive;
      assert Floors(Shares(productive, all))[..i + 1] == Floors(Shares(productive, all))[..i] + [pieces[i].productive];
      SumAppend(Floors(Shares(productive, all))[..i], pieces[i].productive);
    }
    assert Floors(Shares(productive, all))[..|pieces|] == Floors(Shares(productive, all));
    var remaining := productive - given;
    LeftoverBounds(productive, all);
    var minutes := HandOut(pieces, remaining);
    SharesOfPieces(all, pieces, productive);
    ApportionIs(productive, all);
    segments := seq(|pieces|, i requires 0 <= i < |pieces| && |minutes| == |pieces| => Segment(pieces[i].day, pieces[i].duration, minutes[i]));
    assert segments == Zipped(all, minutes);
  }

  lemma ApportionIs(productive: nat, s: seq<Stretch>)
    requires Length(s) == HOUR && s != []
    ensures 0 <= Leftover(productive, s) <= |s|
    ensures var shares := Shares(productive, s);
            Apportion(productive, s) == Bumped(Floors(shares), Ordering(Remainders(shares), |s|), Leftover(productive, s))
  {
    LeftoverBounds(productive, s);
  }

  lemma SharesOfPieces(s: seq<Stretch>, pieces: seq<Piece>, productive: nat)
    requires |pieces| == |s| && forall i :: 0 <= i < |s| ==> pieces[i] == PieceOf(s[i], productive)
    ensures FloorsOf(pieces) == Floors(Shares(productive, s)) && RemaindersOf(pieces) == Remainders(Shares(productive, s))
  {}

  /** The cursor loop: one piece for each stretch, with the floor of its share. */
  method CutAndShare(z: Zone, at: int, productive: nat) returns (pieces: seq<Piece>)
    requires Progresses(z, at, at + HOUR)
    ensures var all := Stretches(z, at, at + HOUR);
            |pieces| == |all| && forall i :: 0 <= i < |all| ==> pieces[i] == PieceOf(all[i], productive)
  {
    hide Share, Floor, Remainder;
    var end, cursor := at + HOUR, at;
    pieces := [];
    while cursor < end
      invariant at <= cursor <= end
      invariant |pieces| + |Stretches(z, cursor, end)| == |Stretches(z, at, end)|
      invariant Stretches(z, at, end)[|pieces|..] == Stretches(z, cursor, end)
      invariant forall i :: 0 <= i < |pieces| ==> pieces[i] == PieceOf(Stretches(z, at, end)[i], productive)
      decreases end - cursor
    {
      assert Next(z, cursor) > cursor;
      ghost var rest := Stretches(z, cursor, end);
      var nextDay := z.end(z.dayOf(cursor));
      var segmentEnd := if nextDay < end then nextDay else end;
      var s := Stretch(z.dayOf(cursor), segmentEnd - cursor);
      assert rest[0] == s && rest[1..] == Stretches(z, segmentEnd, end);
      pieces := pieces + [Piece(s.day, s.duration, Floor(Share(productive, s)), Remainder(Share(productive, s)))];
      cursor := segmentEnd;
    }
  }

  /** One extra minute each for the first `remaining` pieces by falling remainder, round and round. */
  method HandOut(pieces: seq<Piece>, remaining: nat) returns (minutes: seq<int>)
    requires remaining <= |pieces|
    ensures minutes == Bumped(FloorsOf(pieces), Ordering(RemaindersOf(pieces), |pieces|), remaining)
  {
    hide Ordering, Beats, SortedBy, Sum;
    var rem := RemaindersOf(pieces);
    minutes := FloorsOf(pieces);
    ghost var floors := minutes;
    var order := Ordering(rem, |pieces|);
    OrderingFacts(rem, |pieces|);
    assert minutes == Bumped(floors, order, 0);
    for index := 0 to remaining
      invariant minutes == Bumped(floors, order, index)
    {
      BumpOne(floors, rem, order, index);
      var target := order[Wrapped(index, |order|)];
      minutes := minutes[target := minutes[target] + 1];
    }
  }

  function Wrapped(index: nat, n: nat): (r: nat)
    requires index < n
    ensures r == index
  {
    index % n
  }

  function FloorsOf(pieces: seq<Piece>): (r: seq<int>)
    ensures |r| == |pieces| && forall i :: 0 <= i < |pieces| ==> r[i] == pieces[i].productive
  {
    seq(|pieces|, i requires 0 <= i < |pieces| => pieces[i].productive)
  }

  function RemaindersOf(pieces: seq<Piece>): (r: seq<int>)
    ensures |r| == |pieces| && forall i :: 0 <= i < |pieces| ==> r[i] == pieces[i].remainder
  {
    seq(|pieces|, i requires 0 <= i < |pieces| => pieces[i].remainder)
  }
}
