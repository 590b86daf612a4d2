/** Amounts booked under keys: the balances of all keys add up to everything that was booked. */
module Ledger {
  import opened Common

  datatype Posting = Posting(key: int, amount: real)

  function Balance(p: seq<Posting>, key: int): real {
    if p == [] then 0.0
    else Balance(p[..|p| - 1], key) + if p[|p| - 1].key == key then p[|p| - 1].amount else 0.0
  }

  function Booked(p: seq<Posting>): real {
    if p == [] then 0.0 else Booked(p[..|p| - 1]) + p[|p| - 1].amount
  }

  function Balances(p: seq<Posting>, keys: seq<int>): real {
    if keys == [] then 0.0 else Balances(p, keys[..|keys| - 1]) + Balance(p, keys[|keys| - 1])
  }

  lemma {:induction false} Concat(p: seq<Posting>, q: seq<Posting>, key: int)
    ensures Balance(p + q, key) == Balance(p, key) + Balance(q, key)
    ensures Booked(p + q) == Booked(p) + Booked(q)
    decreases |q|
  {
    if q == [] {
      assert p + q == p;
    } else {
      var n := |q| - 1;
      Concat(p, q[..n], key);
      assert (p + q)[..|p + q| - 1] == p + q[..n];
    }
  }

  lemma {:induction false} OneMore(p: seq<Posting>, x: Posting, keys: seq<int>)
    requires Distinct(keys)
    ensures Balances(p + [x], keys) == Balances(p, keys) + if x.key in keys then x.amount else 0.0
    decreases |keys|
  {
    if keys != [] {
      var n := |keys| - 1;
      OneMore(p, x, keys[..n]);
      assert (p + [x])[..|p|] == p;
      assert keys == keys[..n] + [keys[n]];
    }
  }

  lemma {:induction false} NothingIsBooked(keys: seq<int>)
    ensures Balances([], keys) == 0.0
    decreases |keys|
  {
    if keys != [] {
      NothingIsBooked(keys[..|keys| - 1]);
    }
  }

  lemma {:induction false} NothingIsLost(p: seq<Posting>, keys: seq<int>)
    requires Distinct(keys) && forall i :: 0 <= i < |p| ==> p[i].key in keys
    ensures Balances(p, keys) == Booked(p)
    decreases |p|
  {
    if p == [] {
      NothingIsBooked(keys);
    } else {
      var n := |p| - 1;
      NothingIsLost(p[..n], keys);
      OneMore(p[..n], p[n], keys);
      assert p == p[..n] + [p[n]];
    }
  }
}
