/** Local days that tile time, and how the stretches of an hour fall on them. */
module Calendar {
  import opened Common
  import opened HourSplit

  predicate Holds(z: Zone, d: int, t: int) { z.start(d) <= t < z.start(d + 1) }

  predicate Follows(z: Zone, d: int) { z.start(d) < z.end(d) == z.start(d + 1) }

  /** Days follow each other without gaps: an instant falls on the day whose bounds hold it. */
  ghost predicate Proper(z: Zone) {
    (forall t :: Holds(z, z.dayOf(t), t)) && (forall d :: Follows(z, d))
  }

  lemma {:induction false} StartsIncrease(z: Zone, d: int, e: int)
    requires Proper(z) && d <= e
    ensures z.start(d) <= z.start(e) && (d < e ==> z.start(d + 1) <= z.start(e))
    decreases e - d
  {
    if d < e {
      assert Follows(z, d);
      StartsIncrease(z, d + 1, e);
    }
  }

  lemma DayIsUnique(z: Zone, t: int, d: int)
    requires Proper(z)
    ensures z.dayOf(t) == d <==> Holds(z, d, t)
  {
    var e := z.dayOf(t);
    assert Holds(z, e, t);
    if d < e {
      StartsIncrease(z, d, e);
    } else if e < d {
      StartsIncrease(z, e, d);
    }
  }

  lemma ProperProgresses(z: Zone, from: int, to: int)
    requires Proper(z)
    ensures Progresses(z, from, to)
  {
    forall t | from <= t < to ensures Next(z, t) > t {
      assert Holds(z, z.dayOf(t), t) && Follows(z, z.dayOf(t));
    }
  }

  /** How much of `lo .. hi` lies in `from .. to`. */
  function Overlap(lo: int, hi: int, from: int, to: int): int {
    Max(Min(to, hi) - Max(from, lo), 0)
  }

  function OnDay(z: Zone, lo: int, hi: int, d: int): int {
    Overlap(lo, hi, z.start(d), z.start(d + 1))
  }

  /** The first stretch is the cursor's day's whole overlap; what follows lies on later days. */
  lemma StretchesStep(z: Zone, cursor: int, end: int)
    requires Proper(z) && Progresses(z, cursor, end) && cursor < end
    ensures var e, d0 := Step(z, cursor, end), z.dayOf(cursor);
            && cursor < e <= end && Progresses(z, e, end)
            && Stretches(z, cursor, end) == [Stretch(d0, e - cursor)] + Stretches(z, e, end)
            && OnDay(z, cursor, end, d0) == e - cursor
            && (forall d :: d > d0 ==> OnDay(z, e, end, d) == OnDay(z, cursor, end, d))
            && (forall d :: d < d0 ==> OnDay(z, cursor, end, d) == 0)
            && (if e < end then z.dayOf(e) == d0 + 1 else Stretches(z, e, end) == [])
  {
    var e, d0 := Step(z, cursor, end), z.dayOf(cursor);
    assert Holds(z, d0, cursor) && Follows(z, d0);
    assert Next(z, cursor) > cursor;
    FirstOverlap(z, cursor, end);
    if e < end {
      assert Follows(z, d0 + 1);
      DayIsUnique(z, e, d0 + 1);
    }
    hide OnDay;
    forall d ensures d > d0 ==> OnDay(z, e, end, d) == OnDay(z, cursor, end, d)
             ensures d < d0 ==> OnDay(z, cursor, end, d) == 0
    {
      OtherOverlaps(z, cursor, end, d);
    }
  }

  /** Each stretch is its day's whole overlap with the hour, and days come in order. */
  lemma {:induction false} StretchesAreOverlaps(z: Zone, cursor: int, end: int)
    requires Proper(z) && Progresses(z, cursor, end)
    ensures var s := Stretches(z, cursor, end);
            && (forall i :: 0 <= i < |s| ==> s[i].duration == OnDay(z, cursor, end, s[i].day) && s[i].day >= z.dayOf(cursor))
            && (forall i, j :: 0 <= i < j < |s| ==> s[i].day < s[j].day)
    decreases end - cursor
  {
    if cursor < end {
      StretchesStep(z, cursor, end);
      hide OnDay, Stretches, Step, Proper, Progresses;
      var e := Step(z, cursor, end);
      StretchesAreOverlaps(z, e, end);
      var s, rest := Stretches(z, cursor, end), Stretches(z, e, end);
      assert forall i :: 0 < i < |s| ==> s[i] == rest[i - 1];
    }
  }

  /** No day the hour overlaps is missed. */
  lemma {:induction false} StretchOf(z: Zone, cursor: int, end: int, d: int) returns (i: nat)
    requires Proper(z) && Progresses(z, cursor, end) && OnDay(z, cursor, end, d) > 0
    ensures i < |Stretches(z, cursor, end)| && Stretches(z, cursor, end)[i].day == d
    decreases end - cursor
  {
    if cursor >= end {
      NoOverlap(z, cursor, end, d);
      assert false;
    }
    StretchesStep(z, cursor, end);
    hide OnDay, Stretches, Step, Proper, Progresses;
    i := 0;
    if d != z.dayOf(cursor) {
      var rest := StretchOf(z, Step(z, cursor, end), end, d);
      i := rest + 1;
    }
  }

  lemma FirstOverlap(z: Zone, cursor: int, end: int)
    requires Holds(z, z.dayOf(cursor), cursor) && Follows(z, z.dayOf(cursor)) && cursor < end
    ensures OnDay(z, cursor, end, z.dayOf(cursor)) == Step(z, cursor, end) - cursor
  {}

  lemma OtherOverlaps(z: Zone, cursor: int, end: int, d: int)
    requires Proper(z) && cursor < end
    ensures d > z.dayOf(cursor) ==> OnDay(z, Step(z, cursor, end), end, d) == OnDay(z, cursor, end, d)
    ensures d < z.dayOf(cursor) ==> OnDay(z, cursor, end, d) == 0
  {
    var d0 := z.dayOf(cursor);
    assert Holds(z, d0, cursor) && Follows(z, d0);
    if d > d0 {
      StartsIncrease(z, d0, d);
    } else if d < d0 {
      StartsIncrease(z, d, d0);
    }
  }

  lemma NoOverlap(z: Zone, lo: int, hi: int, d: int)
    requires hi <= lo
    ensures OnDay(z, lo, hi, d) == 0
  {}
}
