/** Sums of integer sequences: the only arithmetic the counting arguments need. */
module Sums {
  function Sum(xs: seq<int>): int {
    if xs == [] then 0 else xs[0] + Sum(xs[1..])
  }

  /** Replacing one summand shifts the sum by the difference. */
  lemma {:induction false} SumUpdate(xs: seq<int>, k: nat, x: int)
    requires k < |xs|
    ensures Sum(xs[k := x]) == Sum(xs) - xs[k] + x
  {
    if k == 0 {
      assert xs[k := x][1..] == xs[1..];
    } else {
      SumUpdate(xs[1..], k - 1, x);
      assert xs[k := x][1..] == xs[1..][k - 1 := x];
    }
  }

  lemma {:induction false} SumAtMost(xs: seq<int>, hi: int)
    requires forall k :: 0 <= k < |xs| ==> xs[k] <= hi
    ensures Sum(xs) <= hi * |xs|
  {
    if xs != [] {
      SumAtMost(xs[1..], hi);
      assert hi * |xs| == hi + hi * |xs[1..]|;
    }
  }

  lemma {:induction false} SumAtLeast(xs: seq<int>, lo: int)
    requires forall k :: 0 <= k < |xs| ==> lo <= xs[k]
    ensures lo * |xs| <= Sum(xs)
  {
    if xs != [] {
      SumAtLeast(xs[1..], lo);
      assert lo * |xs| == lo + lo * |xs[1..]|;
    }
  }

  /** No positive summand and one negative summand: the sum is negative. */
  lemma {:induction false} SumNegative(xs: seq<int>, k: nat)
    requires k < |xs| && xs[k] < 0
    requires forall j :: 0 <= j < |xs| ==> xs[j] <= 0
    ensures Sum(xs) < 0
  {
    SumUpdate(xs, k, 0);
    SumAtMost(xs[k := 0], 0);
  }

  /** No negative summand and one positive summand: the sum is positive. */
  lemma {:induction false} SumPositive(xs: seq<int>, k: nat)
    requires k < |xs| && xs[k] > 0
    requires forall j :: 0 <= j < |xs| ==> xs[j] >= 0
    ensures Sum(xs) > 0
  {
    SumUpdate(xs, k, 0);
    SumAtLeast(xs[k := 0], 0);
  }
}
