/** Numeric helpers shared by the peak-picking modules: option values, sums and
    means of intensity lists, ppm tolerances, and the two scanning loops
    (running maximum, nearest value) that several source methods repeat. */
module Common {

  datatype Option<T> = None | Some(value: T)

  function Abs(x: real): real
  {
    if x < 0.0 then -x else x
  }

  /** The relative mass tolerance `(value/1e6)*ppm` used throughout the source. */
  function PpmTolerance(value: real, ppm: real): real
  {
    (value / 1000000.0) * ppm
  }

  /** Upper end of a ppm window (`ppmAbove`). */
  function PpmAbove(value: real, ppm: real): real
  {
    value + PpmTolerance(value, ppm)
  }

  /** Lower end of a ppm window (`ppmBelow`). */
  function PpmBelow(value: real, ppm: real): real
  {
    value - PpmTolerance(value, ppm)
  }

  lemma PpmWindowContainsValue(value: real, ppm: real)
    requires value >= 0.0 && ppm >= 0.0
    ensures PpmBelow(value, ppm) <= value <= PpmAbove(value, ppm)
    ensures PpmAbove(value, ppm) - value == value - PpmBelow(value, ppm)
  {
    assert value / 1000000.0 >= 0.0;
  }

  /** Sum accumulated from the front, as the source's `for` loops add. */
  function Sum(s: seq<real>): real
  {
    if s == [] then 0.0 else Sum(s[..|s| - 1]) + s[|s| - 1]
  }

  /** `sum/size`, defined for non-empty lists only (the source yields NaN otherwise). */
  function Mean(s: seq<real>): real
    requires |s| > 0
  {
    Sum(s) / (|s| as real)
  }

  function Min(s: seq<real>): real
    requires |s| > 0
  {
    if |s| == 1 then s[0]
    else var m := Min(s[..|s| - 1]); if s[|s| - 1] < m then s[|s| - 1] else m
  }

  function Max(s: seq<real>): real
    requires |s| > 0
  {
    if |s| == 1 then s[0]
    else var m := Max(s[..|s| - 1]); if s[|s| - 1] > m then s[|s| - 1] else m
  }

  lemma {:induction false} MinMaxBound(s: seq<real>)
    requires |s| > 0
    ensures forall i :: 0 <= i < |s| ==> Min(s) <= s[i] <= Max(s)
    ensures Min(s) in s && Max(s) in s
  {
    if |s| > 1 {
      MinMaxBound(s[..|s| - 1]);
      assert forall i :: 0 <= i < |s| - 1 ==> s[i] == s[..|s| - 1][i];
    }
  }

  lemma {:induction false} SumBounds(s: seq<real>, lo: real, hi: real)
    requires forall i :: 0 <= i < |s| ==> lo <= s[i] <= hi
    ensures (|s| as real) * lo <= Sum(s) <= (|s| as real) * hi
  {
    if s != [] {
      var init := s[..|s| - 1];
      assert forall i :: 0 <= i < |init| ==> init[i] == s[i];
      SumBounds(init, lo, hi);
      assert (|s| as real) * lo == (|init| as real) * lo + lo;
      assert (|s| as real) * hi == (|init| as real) * hi + hi;
    }
  }

  /** A mean lies between the smallest and the largest element averaged. */
  lemma MeanBetweenMinMax(s: seq<real>)
    requires |s| > 0
    ensures Min(s) <= Mean(s) <= Max(s)
  {
    MinMaxBound(s);
    SumBounds(s, Min(s), Max(s));
    MeanOfBounds(s, Sum(s), Min(s), Max(s));
  }

  lemma MeanOfBounds(s: seq<real>, total: real, lo: real, hi: real)
    requires |s| > 0 && total == Sum(s)
    requires (|s| as real) * lo <= total <= (|s| as real) * hi
    ensures lo <= Mean(s) <= hi
  {
    DivideBounds(total, |s| as real, lo, hi);
  }

  lemma DivideBounds(total: real, n: real, lo: real, hi: real)
    requires n > 0.0 && n * lo <= total <= n * hi
    ensures lo <= total / n <= hi
  {
    assert total / n - lo == (total - n * lo) / n;
    assert hi - total / n == (n * hi - total) / n;
  }

  /** A square is never negative. */
  lemma Square(x: real)
    ensures x * x >= 0.0
  {
    if x < 0.0 {
      assert x * x == (-x) * (-x);
    }
  }

  lemma EmptyPrefix<T>(s: seq<T>)
    ensures [] + s == s
  {
  }

  lemma PrefixOfPrefix<T>(a: seq<T>, b: seq<T>, c: seq<T>)
    requires |a| <= |b| <= |c| && c[..|b|] == b && b[..|a|] == a
    ensures c[..|a|] == a
  {
    assert forall k :: 0 <= k < |a| ==> c[k] == c[..|b|][k] == b[k] == b[..|a|][k];
  }

  lemma PrefixAt<T>(a: seq<T>, c: seq<T>, k: nat)
    requires |a| <= |c| && c[..|a|] == a && k < |a|
    ensures c[k] == a[k]
  {
    assert c[..|a|][k] == c[k];
  }

  lemma LastOfCons<T>(x: T, s: seq<T>)
    requires s != []
    ensures ([x] + s)[|s|] == s[|s| - 1]
  {
  }

  lemma {:induction false} SumAppend(s: seq<real>, x: real)
    ensures Sum(s + [x]) == Sum(s) + x
  {
    assert (s + [x])[..|s + [x]| - 1] == s;
  }

  /** The state `(index, max)` of the loop "index := 0; max := 0; for k in [lo, hi):
      if s[k] > max then index, max := k, s[k]" after it has run over `[lo, hi)`.
      `Chromatogram.maxIntWithinTol` and the `Isobar` constructor both run it. */
  function RunningMax(s: seq<real>, lo: nat, hi: nat): (r: (nat, real))
    requires lo <= hi <= |s|
    decreases hi - lo
    ensures r.0 == 0 || lo <= r.0 < hi
  {
    if hi == lo then (0, 0.0)
    else
      var prev := RunningMax(s, lo, hi - 1);
      if s[hi - 1] > prev.1 then (hi - 1, s[hi - 1]) else prev
  }

  /** What the running maximum means: the first index holding a strictly greatest
      positive value, or index 0 with value 0 when nothing in the range exceeds 0. */
  lemma {:induction false} RunningMaxIsFirstMax(s: seq<real>, lo: nat, hi: nat)
    requires lo <= hi <= |s|
    decreases hi - lo
    ensures var (k, m) := RunningMax(s, lo, hi);
      && m >= 0.0
      && (forall j :: lo <= j < hi ==> s[j] <= m)
      && (m == 0.0 ==> k == 0)
      && (m > 0.0 ==> lo <= k < hi && s[k] == m && forall j :: lo <= j < k ==> s[j] < m)
  {
    if hi > lo {
      RunningMaxIsFirstMax(s, lo, hi - 1);
    }
  }

  /** Index found by the loop "idx := 0; d := |t - s[0]|; for c in [1, n): if |t - s[c]| < d
      then idx, d := c, |t - s[c]|" (`Chromatogram.search`). */
  function NearestIndex(s: seq<real>, t: real, n: nat): (k: nat)
    requires 0 < n <= |s|
    ensures k < n
  {
    if n == 1 then 0
    else
      var k := NearestIndex(s, t, n - 1);
      if Abs(t - s[n - 1]) < Abs(t - s[k]) then n - 1 else k
  }

  /** The nearest index is at least as close as every element, and strictly closer
      than every element before it (ties go to the first index). */
  lemma {:induction false} NearestIndexIsFirstNearest(s: seq<real>, t: real, n: nat)
    requires 0 < n <= |s|
    ensures forall j :: 0 <= j < n ==> Abs(t - s[NearestIndex(s, t, n)]) <= Abs(t - s[j])
    ensures forall j :: 0 <= j < NearestIndex(s, t, n) ==> Abs(t - s[NearestIndex(s, t, n)]) < Abs(t - s[j])
  {
    if n > 1 {
      NearestIndexIsFirstNearest(s, t, n - 1);
    }
  }

  /** The list read back to front. */
  function Reverse<T>(s: seq<T>): (r: seq<T>)
    ensures |r| == |s| && forall i :: 0 <= i < |s| ==> r[i] == s[|s| - 1 - i]
  {
    seq(|s|, i requires 0 <= i < |s| => s[|s| - 1 - i])
  }

  /** `List.indexOf` on a list of reals: the first index holding `x`, or -1. */
  function IndexOfValue(s: seq<real>, x: real): (r: int)
    ensures -1 <= r < |s|
    ensures r == -1 <==> x !in s
    ensures r >= 0 ==> s[r] == x && forall j :: 0 <= j < r ==> s[j] != x
  {
    if s == [] then -1
    else if s[0] == x then 0
    else var r := IndexOfValue(s[1..], x); if r == -1 then -1 else r + 1
  }

  /** Looking the nearest value up again by `indexOf` gives back the index the
      search stopped at: an earlier copy of the value would have been as near. */
  lemma NearestValueIndexOf(s: seq<real>, t: real)
    requires |s| > 0
    ensures IndexOfValue(s, s[NearestIndex(s, t, |s|)]) == NearestIndex(s, t, |s|)
  {
    NearestIndexIsFirstNearest(s, t, |s|);
  }
}
