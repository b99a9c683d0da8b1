/** Sums of a natural-number weight over a sequence. The protocol modules count
    threads and measure remaining work with them. */
module Sums {

  function Sum<T>(xs: seq<T>, f: T -> nat): nat {
    if xs == [] then 0 else f(xs[0]) + Sum(xs[1..], f)
  }

  lemma {:induction false} SumUpdate<T>(xs: seq<T>, i: nat, x: T, f: T -> nat)
    requires i < |xs|
    ensures Sum(xs[i := x], f) + f(xs[i]) == Sum(xs, f) + f(x)
  {
    if i == 0 {
      assert xs[0 := x][1..] == xs[1..];
    } else {
      SumUpdate(xs[1..], i - 1, x, f);
      assert xs[i := x][1..] == xs[1..][i - 1 := x];
    }
  }

  lemma {:induction false} SumElement<T>(xs: seq<T>, i: nat, f: T -> nat)
    requires i < |xs|
    ensures f(xs[i]) <= Sum(xs, f)
  {
    if i > 0 {
      SumElement(xs[1..], i - 1, f);
    }
  }

  /** A positive sum has a positive summand. */
  lemma {:induction false} SumPositive<T>(xs: seq<T>, f: T -> nat) returns (i: nat)
    requires Sum(xs, f) > 0
    ensures i < |xs| && f(xs[i]) > 0
  {
    if f(xs[0]) > 0 {
      i := 0;
    } else {
      i := SumPositive(xs[1..], f);
      i := i + 1;
    }
  }

  /** Pointwise comparison with a fixed slack per element. */
  lemma {:induction false} SumCompare<T>(xs: seq<T>, ys: seq<T>, f: T -> nat, g: T -> nat, slack: nat)
    requires |xs| == |ys|
    requires forall i :: 0 <= i < |xs| ==> f(xs[i]) <= g(ys[i]) + slack
    ensures Sum(xs, f) <= Sum(ys, g) + slack * |xs|
  {
    if xs != [] {
      assert f(xs[0]) <= g(ys[0]) + slack;
      forall i | 0 <= i < |xs| - 1
        ensures f(xs[1..][i]) <= g(ys[1..][i]) + slack
      {
        assert xs[1..][i] == xs[i + 1] && ys[1..][i] == ys[i + 1];
      }
      SumCompare(xs[1..], ys[1..], f, g, slack);
      assert slack * |xs| == slack * (|xs| - 1) + slack;
    }
  }

  lemma {:induction false} SumConstant<T>(xs: seq<T>, f: T -> nat, k: nat)
    requires forall i :: 0 <= i < |xs| ==> f(xs[i]) == k
    ensures Sum(xs, f) == k * |xs|
  {
    if xs != [] {
      assert f(xs[0]) == k;
      forall i | 0 <= i < |xs| - 1
        ensures f(xs[1..][i]) == k
      {
        assert xs[1..][i] == xs[i + 1];
      }
      SumConstant(xs[1..], f, k);
      assert k * |xs| == k * (|xs| - 1) + k;
    }
  }

  lemma {:induction false} SumSplit<T>(xs: seq<T>, ys: seq<T>, f: T -> nat)
    ensures Sum(xs + ys, f) == Sum(xs, f) + Sum(ys, f)
  {
    if xs == [] {
      assert xs + ys == ys;
    } else {
      assert (xs + ys)[1..] == xs[1..] + ys;
      SumSplit(xs[1..], ys, f);
    }
  }
}
