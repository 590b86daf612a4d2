/** Sequences with the same elements, and the elements of a set in rising order. */
module Reorder {

  lemma TakenOut<T>(s: seq<T>, i: nat)
    requires i < |s|
    ensures multiset(s) == multiset(s[..i] + s[i + 1..]) + multiset{s[i]}
  {
    assert s == s[..i] + [s[i]] + s[i + 1..];
  }

  lemma LastTakenOut<T>(s: seq<T>)
    requires s != []
    ensures multiset(s) == multiset(s[..|s| - 1]) + multiset{s[|s| - 1]}
  {
    assert s == s[..|s| - 1] + [s[|s| - 1]];
  }

  /** Where the last element of one sequence sits in a rearrangement of it. */
  lemma LastIsSomewhere<T>(a: seq<T>, b: seq<T>) returns (i: nat)
    requires multiset(a) == multiset(b) && a != []
    ensures i < |b| && b[i] == a[|a| - 1]
    ensures multiset(a[..|a| - 1]) == multiset(b[..i] + b[i + 1..])
  {
    var x := a[|a| - 1];
    LastTakenOut(a);
    assert x in multiset(b);
    i :| 0 <= i < |b| && b[i] == x;
    TakenOut(b, i);
    SameRest(multiset(a[..|a| - 1]), multiset(b[..i] + b[i + 1..]), x);
  }

  lemma SameRest<T>(a: multiset<T>, b: multiset<T>, x: T)
    requires a + multiset{x} == b + multiset{x}
    ensures a == b
  {
    assert a == a + multiset{x} - multiset{x} && b == b + multiset{x} - multiset{x};
  }

  lemma NothingRearranged<T>(b: seq<T>)
    requires multiset(b) == multiset{}
    ensures b == []
  {
    assert |multiset(b)| == |b|;
  }

  predicate IsLeast(m: int, s: set<int>) { m in s && forall x :: x in s ==> m <= x }

  lemma Inhabited<T>(s: set<T>) returns (m: T)
    requires s != {}
    ensures m in s
  {
    if forall x :: x !in s {
      Uninhabited(s);
    }
    m :| m in s;
  }

  lemma Uninhabited<T>(s: set<T>)
    requires forall x :: x !in s
    ensures s == {}
  {
    var none: set<T> := {};
    assert forall x :: x in s <==> x in none;
    assert s == none;
  }

  lemma {:induction false} LeastExists(s: set<int>)
    requires s != {}
    ensures exists m :: IsLeast(m, s)
    decreases |s|
  {
    var a := Inhabited(s);
    var others := s - {a};
    assert s == others + {a};
    if others == {} {
      assert IsLeast(a, s);
    } else {
      LeastExists(others);
      var rest :| IsLeast(rest, others);
      assert IsLeast(if a < rest then a else rest, s);
    }
  }

  ghost function Least(s: set<int>): (m: int)
    requires s != {}
    ensures IsLeast(m, s)
  {
    LeastExists(s);
    var m :| IsLeast(m, s);
    m
  }

  ghost function Ascending(s: set<int>): seq<int> {
    if s == {} then [] else [Least(s)] + Ascending(s - {Least(s)})
  }

  ghost predicate Rising(s: seq<int>) { forall i, j :: 0 <= i < j < |s| ==> s[i] < s[j] }

  lemma {:induction false} AscendingRises(s: set<int>)
    ensures Rising(Ascending(s))
    ensures forall x :: x in Ascending(s) <==> x in s
  {
    if s != {} {
      var m := Least(s);
      var rest := Ascending(s - {m});
      AscendingRises(s - {m});
      assert Ascending(s) == [m] + rest;
      hide Ascending;
      Prepended(m, rest);
      assert forall x :: x in [m] + rest <==> x == m || x in rest;
    }
  }

  lemma Prepended(m: int, rest: seq<int>)
    requires Rising(rest) && forall x :: x in rest ==> m < x
    ensures Rising([m] + rest)
  {
    assert forall i :: 0 <= i < |rest| ==> rest[i] in rest;
  }

  /** Sorting the keys of a map. */
  method SortKeys(keys: set<int>) returns (sorted: seq<int>)
    ensures sorted == Ascending(keys)
  {
    sorted := [];
    var rest := keys;
    while rest != {}
      invariant Ascending(keys) == sorted + Ascending(rest)
      decreases |rest|
    {
      LeastExists(rest);
      var m :| m in rest && IsLeast(m, rest);
      LeastIsUnique(m, rest);
      hide IsLeast;
      sorted, rest := sorted + [m], rest - {m};
    }
  }

  lemma LeastIsUnique(m: int, s: set<int>)
    requires IsLeast(m, s)
    ensures Least(s) == m
  {}
}
