/** Sums of an integer weight over a sequence, and how they move when one element changes. */
module Sums {

  function Sum<T>(weight: T -> int, s: seq<T>): int {
    if s == [] then 0 else weight(s[0]) + Sum(weight, s[1..])
  }

  lemma {:induction false} SumUpdate<T>(weight: T -> int, s: seq<T>, i: nat, x: T)
    requires i < |s|
    ensures Sum(weight, s[i := x]) == Sum(weight, s) - weight(s[i]) + weight(x)
    decreases |s|
  {
    if i == 0 {
      assert s[i := x][1..] == s[1..];
    } else {
      SumUpdate(weight, s[1..], i - 1, x);
      assert s[i := x][1..] == s[1..][i - 1 := x];
    }
  }

  lemma {:induction false} SumMonotone<T>(lower: T -> int, upper: T -> int, s: seq<T>)
    requires forall i: nat | i < |s| :: lower(s[i]) <= upper(s[i])
    ensures Sum(lower, s) <= Sum(upper, s)
    decreases |s|
  {
    if s != [] {
      SumMonotone(lower, upper, s[1..]);
    }
  }

  /** A weight bounded by a constant on every element sums to at most that constant times the length. */
  lemma {:induction false} SumAtMost<T>(weight: T -> int, s: seq<T>, bound: int)
    requires forall i: nat | i < |s| :: weight(s[i]) <= bound
    ensures Sum(weight, s) <= bound * |s|
    decreases |s|
  {
    if s != [] {
      SumAtMost(weight, s[1..], bound);
    }
  }

  lemma {:induction false} SumConstant<T>(weight: T -> int, s: seq<T>, value: int)
    requires forall i: nat | i < |s| :: weight(s[i]) == value
    ensures Sum(weight, s) == value * |s|
    decreases |s|
  {
    if s != [] {
      SumConstant(weight, s[1..], value);
    }
  }

  /** A weight that is never negative and positive somewhere has a positive sum. */
  lemma {:induction false} SumPositive<T>(weight: T -> int, s: seq<T>, i: nat)
    requires i < |s| && weight(s[i]) > 0
    requires forall j: nat | j < |s| :: weight(s[j]) >= 0
    ensures Sum(weight, s) > 0
    decreases |s|
  {
    if i == 0 {
      SumNonNegative(weight, s[1..]);
    } else {
      SumPositive(weight, s[1..], i - 1);
    }
  }

  lemma {:induction false} SumNonNegative<T>(weight: T -> int, s: seq<T>)
    requires forall j: nat | j < |s| :: weight(s[j]) >= 0
    ensures Sum(weight, s) >= 0
    decreases |s|
  {
    if s != [] {
      SumNonNegative(weight, s[1..]);
    }
  }
}
