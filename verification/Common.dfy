/** What several engines share. */
module Common {

  /** Go's zero time, from which instants are counted. */
  const ZERO_TIME: int := 0

  datatype Option<+T> = None | Some(value: T)

  ghost predicate Distinct<T>(s: seq<T>) { forall i, j :: 0 <= i < j < |s| ==> s[i] != s[j] }

  function Min(a: int, b: int): int { if a < b then a else b }

  function Max(a: int, b: int): int { if a > b then a else b }

  function SumOver<T>(rows: seq<T>, f: T -> real): real {
    if rows == [] then 0.0 else SumOver(rows[..|rows| - 1], f) + f(rows[|rows| - 1])
  }
}
