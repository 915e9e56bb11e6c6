/** Sums over sequences of integers, and how they change when one entry does. */
module Sums {

  function Flag(b: bool): nat { if b then 1 else 0 }

  function Sum(v: seq<int>): int {
    if v == [] then 0 else Sum(v[..|v| - 1]) + v[|v| - 1]
  }

  lemma {:induction false} SumUpdate(v: seq<int>, i: nat, x: int)
    requires i < |v|
    ensures Sum(v[i := x]) == Sum(v) - v[i] + x
    decreases |v|
  {
    var n := |v| - 1;
    if i < n {
      assert v[i := x][..n] == v[..n][i := x];
      SumUpdate(v[..n], i, x);
    } else {
      assert v[i := x][..n] == v[..n];
    }
  }

  lemma {:induction false} SumBound(v: seq<int>, m: int)
    requires forall i | 0 <= i < |v| :: v[i] <= m
    ensures Sum(v) <= |v| * m
    decreases |v|
  {
    if v != [] {
      SumBound(v[..|v| - 1], m);
      assert |v| * m == (|v| - 1) * m + m;
    }
  }

  /** Values that add up to the most they could are all at the bound. */
  lemma SumFull(v: seq<int>, m: int, i: nat)
    requires forall j | 0 <= j < |v| :: v[j] <= m
    requires Sum(v) == |v| * m && i < |v|
    ensures v[i] == m
  {
    SumUpdate(v, i, m);
    SumBound(v[i := m], m);
  }

  lemma {:induction false} SumZero(v: seq<int>)
    requires forall i | 0 <= i < |v| :: v[i] == 0
    ensures Sum(v) == 0
    decreases |v|
  {
    if v != [] {
      SumZero(v[..|v| - 1]);
    }
  }

  lemma {:induction false} SumMonotone(v: seq<int>, w: seq<int>)
    requires |v| == |w| && forall i | 0 <= i < |v| :: v[i] <= w[i]
    ensures Sum(v) <= Sum(w)
    decreases |v|
  {
    if v != [] {
      SumMonotone(v[..|v| - 1], w[..|w| - 1]);
    }
  }

  /** Two sequences with the same sum, one nowhere above the other, are equal. */
  lemma SumTight(v: seq<int>, w: seq<int>, i: nat)
    requires |v| == |w| && Sum(v) == Sum(w) && i < |v|
    requires forall j | 0 <= j < |v| :: v[j] <= w[j]
    ensures v[i] == w[i]
  {
    SumUpdate(v, i, w[i]);
    SumMonotone(v[i := w[i]], w);
  }

  lemma {:induction false} SumsDiffer(v: seq<int>, w: seq<int>) returns (i: nat)
    requires |v| == |w| && Sum(v) != Sum(w)
    ensures i < |v| && v[i] != w[i]
    decreases |v|
  {
    i := |v| - 1;
    if v[i] == w[i] {
      i := SumsDiffer(v[..i], w[..i]);
    }
  }
}
