/** Sums over sequences, used as termination measures and as head counts. */
module Totals {
  function Total<T>(xs: seq<T>, weight: T -> nat): nat {
    if xs == [] then 0 else weight(xs[0]) + Total(xs[1..], weight)
  }

  lemma {:induction false} TotalUpdate<T>(xs: seq<T>, i: nat, x: T, weight: T -> nat)
    requires i < |xs|
    ensures Total(xs[i := x], weight) + weight(xs[i]) == Total(xs, weight) + weight(x)
  {
    if i == 0 {
      assert xs[i := x][1..] == xs[1..];
    } else {
      assert xs[i := x][1..] == xs[1..][i - 1 := x];
      TotalUpdate(xs[1..], i - 1, x, weight);
    }
  }

  /** Two sequences of one length whose weights differ by at most `slack` at each place. */
  lemma {:induction false} TotalGrowth<T>(xs: seq<T>, ys: seq<T>, weight: T -> nat, slack: nat)
    requires |xs| == |ys|
    requires forall i | 0 <= i < |xs| :: weight(ys[i]) <= weight(xs[i]) + slack
    ensures Total(ys, weight) <= Total(xs, weight) + slack * |xs|
  {
    if xs == [] {
    } else {
      assert weight(ys[0]) <= weight(xs[0]) + slack;
      TotalGrowth(xs[1..], ys[1..], weight, slack);
    }
  }
}
