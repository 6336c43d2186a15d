/** Products and bounds of reals, and sums of sequences of them. */
module RealSums {

  function Max(a: real, b: real): real { if a >= b then a else b }
  function Min(a: real, b: real): real { if a <= b then a else b }
  function Times(x: real, y: real): real { x * y }

  lemma TimesKeepsOrder(x: real, y: real, factor: real)
    requires x <= y && factor >= 0.0
    ensures x * factor <= y * factor && factor * x <= factor * y
  {
    assert (y - x) * factor >= 0.0;
  }

  lemma TimesKeepsStrictOrder(x: real, y: real, factor: real)
    requires x < y && factor > 0.0
    ensures x * factor < y * factor && factor * x < factor * y
  {
    assert (y - x) * factor > 0.0;
  }

  lemma AtMostByProduct(x: real, y: real, factor: real)
    requires factor > 0.0 && x * factor <= y * factor
    ensures x <= y
  {
    if y < x { TimesKeepsStrictOrder(y, x, factor); }
  }

  lemma QuotientTimes(x: real, y: real)
    requires y > 0.0
    ensures x / y * y == x
    ensures x > 0.0 ==> x / y > 0.0
  {
    if x > 0.0 && x / y <= 0.0 { TimesKeepsOrder(x / y, 0.0, y); }
  }

  /** A positive factor can be taken off either side of a comparison. */
  lemma LessByProduct(x: real, y: real, factor: real)
    requires factor > 0.0 && x * factor < y * factor
    ensures x < y
  {
    if y <= x { TimesKeepsOrder(y, x, factor); }
  }

  ghost function Sum(values: seq<real>): real {
    if values == [] then 0.0 else Sum(values[..|values| - 1]) + values[|values| - 1]
  }

  lemma SumNext(values: seq<real>, i: nat)
    requires i < |values|
    ensures Sum(values[..i + 1]) == Sum(values[..i]) + values[i]
  {
    assert values[..i + 1][..i] == values[..i];
  }

  method SumOf(values: seq<real>) returns (sum: real)
    ensures sum == Sum(values)
  {
    sum := 0.0;
    var i := 0;
    while i < |values|
      invariant i <= |values| && sum == Sum(values[..i])
    {
      SumNext(values, i);
      sum := sum + values[i];
      i := i + 1;
    }
    assert values[..i] == values;
  }

  lemma {:induction false} SumAtMost(a: seq<real>, b: seq<real>)
    requires |a| == |b| && forall i :: 0 <= i < |a| ==> a[i] <= b[i]
    ensures Sum(a) <= Sum(b)
  {
    if a != [] { SumAtMost(a[..|a| - 1], b[..|b| - 1]); }
  }

  lemma {:induction false} SumBelow(a: seq<real>, b: seq<real>, k: nat)
    requires |a| == |b| && k < |a| && forall i :: 0 <= i < |a| ==> a[i] <= b[i]
    requires a[k] < b[k]
    ensures Sum(a) < Sum(b)
  {
    if k < |a| - 1 {
      SumBelow(a[..|a| - 1], b[..|b| - 1], k);
    } else {
      SumAtMost(a[..|a| - 1], b[..|b| - 1]);
    }
  }

  lemma {:induction false} SumPositive(a: seq<real>, k: nat)
    requires k < |a| && a[k] > 0.0 && forall i :: 0 <= i < |a| ==> a[i] >= 0.0
    ensures Sum(a) > 0.0
  {
    var zeros := seq(|a|, _ => 0.0);
    SumOfZeros(zeros);
    SumBelow(zeros, a, k);
  }

  lemma {:induction false} SumOfZeros(a: seq<real>)
    requires forall i :: 0 <= i < |a| ==> a[i] == 0.0
    ensures Sum(a) == 0.0
  {
    if a != [] { SumOfZeros(a[..|a| - 1]); }
  }

  /** A sum of `b[i] + c[i] * scale` splits. */
  lemma {:induction false} SumCombines(a: seq<real>, b: seq<real>, c: seq<real>, scale: real)
    requires |a| == |b| == |c| && forall i :: 0 <= i < |a| ==> a[i] == b[i] + c[i] * scale
    ensures Sum(a) == Sum(b) + Sum(c) * scale
  {
    if a != [] {
      var n := |a| - 1;
      SumCombines(a[..n], b[..n], c[..n], scale);
      assert (Sum(c[..n]) + c[n]) * scale == Sum(c[..n]) * scale + c[n] * scale;
    }
  }

  lemma {:induction false} SumUpdate(a: seq<real>, k: nat, x: real)
    requires k < |a|
    ensures Sum(a[k := x]) == Sum(a) - a[k] + x
  {
    var n := |a| - 1;
    if k < n {
      SumUpdate(a[..n], k, x);
      assert a[k := x][..n] == a[..n][k := x];
    } else {
      assert a[k := x][..n] == a[..n];
    }
  }
}
