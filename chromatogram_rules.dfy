/** The value-level rules a `Chromatogram` applies to its trace once it is built:
    naive local minima, the boundaries the isobars are cut at, the cutting itself,
    and the validity test with its in-place sort. */
module ChromatogramRules {
  import opened Common
  import opened LocalPeaks
  import opened TraceSpec

  function PointRTs(s: seq<Point>): (r: seq<real>)
    ensures |r| == |s| && forall i :: 0 <= i < |s| ==> r[i] == s[i].rt
  {
    seq(|s|, i requires 0 <= i < |s| => s[i].rt)
  }

  function PointIntensities(s: seq<Point>): (r: seq<real>)
    ensures |r| == |s| && forall i :: 0 <= i < |s| ==> r[i] == s[i].intensity
  {
    seq(|s|, i requires 0 <= i < |s| => s[i].intensity)
  }

  /** An interior index strictly below both neighbours. */
  predicate IsLocalMinimum(a: seq<real>, i: int)
  {
    0 < i < |a| - 1 && a[i - 1] > a[i] && a[i] < a[i + 1]
  }

  /** The indices below `n` that `findLocalMinima` collects, in the order it visits them. */
  function LocalMinima(a: seq<real>, n: nat): seq<int>
    requires n <= |a|
  {
    if n == 0 then [] else LocalMinima(a, n - 1) + (if IsLocalMinimum(a, n - 1) then [n - 1] else [])
  }

  /** Every neighbour strictly below the next. */
  predicate Ascending(b: seq<int>)
  {
    forall i :: 0 <= i < |b| - 1 ==> b[i] < b[i + 1]
  }

  /** The collected indices are exactly the local minima below `n`. */
  lemma {:induction false} LocalMinimaMembers(a: seq<real>, n: nat)
    requires n <= |a|
    ensures forall i :: i in LocalMinima(a, n) <==> 0 <= i < n && IsLocalMinimum(a, i)
  {
    if n > 0 {
      LocalMinimaMembers(a, n - 1);
    }
  }

  /** They are collected in ascending order. */
  lemma {:induction false} LocalMinimaAscending(a: seq<real>, n: nat)
    requires n <= |a|
    ensures Ascending(LocalMinima(a, n))
  {
    if n > 0 {
      LocalMinimaAscending(a, n - 1);
      var prev := LocalMinima(a, n - 1);
      if IsLocalMinimum(a, n - 1) {
        var r := prev + [n - 1];
        if |prev| > 0 {
          LocalMinimaMembers(a, n - 1);
          assert prev[|prev| - 1] in prev;
        }
        forall i | 0 <= i < |r| - 1
          ensures r[i] < r[i + 1]
        {
          if i < |prev| - 1 {
            assert r[i] == prev[i] && r[i + 1] == prev[i + 1];
          }
        }
      }
    }
  }

  /** The collected indices are exactly the local minima below `n`, in ascending order. */
  lemma LocalMinimaExact(a: seq<real>, n: nat)
    requires n <= |a|
    ensures forall i :: i in LocalMinima(a, n) <==> 0 <= i < n && IsLocalMinimum(a, i)
    ensures Ascending(LocalMinima(a, n))
  {
    LocalMinimaMembers(a, n);
    LocalMinimaAscending(a, n);
  }

  /** For each minimum RT reported by the smoother, the index of the nearest trace RT. */
  function NearestIndices(rts: seq<real>, minima: seq<real>): (r: seq<int>)
    requires |rts| > 0
    ensures |r| == |minima| && forall i :: 0 <= i < |minima| ==> 0 <= r[i] < |rts|
  {
    seq(|minima|, i requires 0 <= i < |minima| => NearestIndex(rts, minima[i], |rts|))
  }

  /** `pointsOfInflection` once the constructor has bracketed it with 0 and `n`: the
      smoother's minima for a trace of more than four points, the naive minima otherwise. */
  function Boundaries(trace: seq<Point>, smoothMinima: (seq<real>, seq<real>) -> seq<real>): (b: seq<int>)
    ensures |b| >= 2 && b[0] == 0 && b[|b| - 1] == |trace|
    ensures forall i :: 0 <= i < |b| ==> 0 <= b[i] <= |trace|
  {
    var n := |trace|;
    var rts := PointRTs(trace);
    var inner := if n > 4 then NearestIndices(rts, smoothMinima(rts, PointIntensities(trace)))
                 else LocalMinima(PointIntensities(trace), n);
    LocalMinimaExact(PointIntensities(trace), n);
    assert forall i :: 0 <= i < |inner| ==> inner[i] in inner;
    [0] + inner + [n]
  }

  /** The slices `[b[i], b[i+1])` the constructor copies into isobars; a pair of
      boundaries out of order yields an empty slice. */
  function Slices<T>(s: seq<T>, b: seq<int>): (r: seq<seq<T>>)
    requires |b| >= 1 && forall i :: 0 <= i < |b| ==> 0 <= b[i] <= |s|
    ensures |r| == |b| - 1
  {
    seq(|b| - 1, i requires 0 <= i < |b| - 1 => if b[i] <= b[i + 1] then s[b[i]..b[i + 1]] else [])
  }

  function Concat<T>(ss: seq<seq<T>>): seq<T>
  {
    if ss == [] then [] else Concat(ss[..|ss| - 1]) + ss[|ss| - 1]
  }

  /** Cut at ascending boundaries, the slices put back together give the stretch
      from the first boundary to the last. */
  lemma {:induction false} SlicesCover<T>(s: seq<T>, b: seq<int>)
    requires |b| >= 1 && forall i :: 0 <= i < |b| ==> 0 <= b[i] <= |s|
    requires forall i :: 0 <= i < |b| - 1 ==> b[i] <= b[i + 1]
    ensures b[0] <= b[|b| - 1]
    ensures Concat(Slices(s, b)) == s[b[0]..b[|b| - 1]]
  {
    if |b| > 1 {
      var init := b[..|b| - 1];
      SlicesCover(s, init);
      assert Slices(s, b)[..|b| - 2] == Slices(s, init);
      assert s[b[0]..b[|b| - 1]] == s[b[0]..b[|b| - 2]] + s[b[|b| - 2]..b[|b| - 1]];
    }
  }

  /** The isobars of a trace cut at boundaries that run strictly from 0 to its end
      are non-empty and together make up the whole trace, in order. */
  lemma IsobarsPartitionTrace<T>(s: seq<T>, b: seq<int>)
    requires |b| >= 2 && b[0] == 0 && b[|b| - 1] == |s| && Ascending(b)
    ensures forall i :: 0 <= i < |b| ==> 0 <= b[i] <= |s|
    ensures Concat(Slices(s, b)) == s
    ensures forall i :: 0 <= i < |b| - 1 ==> |Slices(s, b)[i]| > 0
  {
    AscendingBounded(b);
    SlicesCover(s, b);
  }

  /** Whether the constructor gets through cutting a trace of `n` points at
      boundaries `b`: it cuts only a smoothed trace (more than four points) with an
      inner boundary, and an isobar built on an empty slice fails on its entry 0. */
  predicate Cuttable(n: nat, b: seq<int>)
  {
    n > 4 && |b| > 2 ==> Ascending(b)
  }

  /** The lists the constructor hands to its isobars: one slice per pair of
      neighbouring boundaries when it cuts, the whole trace otherwise. */
  function Cut<T>(s: seq<T>, b: seq<int>): Option<seq<seq<T>>>
    requires |b| >= 1 && forall i :: 0 <= i < |b| ==> 0 <= b[i] <= |s|
  {
    if !Cuttable(|s|, b) then None
    else if |s| > 4 && |b| > 2 then Some(Slices(s, b))
    else Some([s])
  }

  /** On boundaries bracketed by 0 and the length of a non-empty trace, the cut fails
      exactly when two neighbouring boundaries are out of order or equal, and a cut
      that succeeds yields non-empty lists that make up the trace, in order. */
  lemma CutPartitions<T>(s: seq<T>, b: seq<int>)
    requires |s| > 0 && |b| >= 2 && b[0] == 0 && b[|b| - 1] == |s|
    requires forall i :: 0 <= i < |b| ==> 0 <= b[i] <= |s|
    ensures Cut(s, b).None? <==>
      |s| > 4 && |b| > 2 && exists i :: 0 <= i < |b| - 1 && b[i] >= b[i + 1]
    ensures Cut(s, b).Some? ==>
      && Concat(Cut(s, b).value) == s
      && forall i :: 0 <= i < |Cut(s, b).value| ==> |Cut(s, b).value[i]| > 0
  {
    if Cut(s, b).Some? && |s| > 4 && |b| > 2 {
      IsobarsPartitionTrace(s, b);
    } else if Cut(s, b).Some? {
      assert Concat([s]) == Concat([s][..0]) + s;
    }
  }

  lemma {:induction false} AscendingBounded(b: seq<int>)
    requires |b| >= 1 && Ascending(b)
    ensures forall i :: 0 <= i < |b| ==> b[0] <= b[i] <= b[|b| - 1]
  {
    if |b| > 1 {
      AscendingBounded(b[..|b| - 1]);
    }
  }

  /** `num / den > k` as Java evaluates it on doubles: a zero denominator gives an
      infinity of the numerator's sign (or NaN for 0/0, which compares false). */
  predicate RatioExceeds(num: real, den: real, k: real)
  {
    if den > 0.0 then num > k * den
    else if den < 0.0 then num < k * den
    else num > 0.0
  }

  /** Away from a zero denominator the test is the plain quotient comparison. */
  lemma RatioExceedsIsQuotient(num: real, den: real, k: real)
    requires den != 0.0
    ensures RatioExceeds(num, den, k) <==> num / den > k
  {
    assert num == (num / den) * den;
    if den > 0.0 {
      assert num / den > k ==> (num / den) * den > k * den;
      assert num > k * den ==> num / den > k;
    } else {
      assert num / den > k ==> (num / den) * den < k * den;
      assert num < k * den ==> num / den > k;
    }
  }

  /** `isValidStartingPoint` on the list as it stands before the call: more than five
      points, and, on the list sorted by descending intensity, a first-to-last
      intensity ratio above 5, a first intensity above five thresholds, and an RT
      difference from the first to the last entry below 0.5. */
  predicate ValidTrace(s: seq<LocalPeak>, threshold: real)
  {
    |s| > 5 &&
    var t := SortByIntensity(s);
    && RatioExceeds(t[0].intensity, t[|t| - 1].intensity, 5.0)
    && t[0].intensity > 5.0 * threshold
    && t[|t| - 1].rt - t[0].rt < 0.5
  }

  /** A list already in descending-intensity order is left as it is by the sort. */
  lemma {:induction false} SortedIsFixed(s: seq<LocalPeak>)
    requires SortedByIntensity(s)
    ensures SortByIntensity(s) == s
  {
    if s != [] {
      SortedIsFixed(s[1..]);
      assert s == [s[0]] + s[1..];
    }
  }

  /** A rearrangement of `s` into descending intensity starts at its greatest intensity. */
  lemma ArrangedFirstIsMax(s: seq<LocalPeak>, t: seq<LocalPeak>)
    requires |s| > 0 && multiset(t) == multiset(s) && SortedByIntensity(t)
    ensures |t| == |s| && t[0].intensity == Max(Intensities(s))
  {
    assert |t| == |multiset(t)| == |s|;
    MinMaxBound(Intensities(s));
    var hi :| 0 <= hi < |s| && Intensities(s)[hi] == Max(Intensities(s));
    assert s[hi] in multiset(t);
    var m :| 0 <= m < |t| && t[m] == s[hi];
    assert t[0].intensity >= t[m].intensity;
    assert t[0] in multiset(s);
    var i :| 0 <= i < |s| && s[i] == t[0];
    assert Intensities(s)[i] <= Max(Intensities(s));
  }

  /** ... and ends at its smallest. */
  lemma ArrangedLastIsMin(s: seq<LocalPeak>, t: seq<LocalPeak>)
    requires |s| > 0 && multiset(t) == multiset(s) && SortedByIntensity(t)
    ensures |t| == |s| && t[|t| - 1].intensity == Min(Intensities(s))
  {
    assert |t| == |multiset(t)| == |s|;
    MinMaxBound(Intensities(s));
    var lo :| 0 <= lo < |s| && Intensities(s)[lo] == Min(Intensities(s));
    assert s[lo] in multiset(t);
    var m :| 0 <= m < |t| && t[m] == s[lo];
    assert t[m].intensity >= t[|t| - 1].intensity;
    assert t[|t| - 1] in multiset(s);
    var i :| 0 <= i < |s| && s[i] == t[|t| - 1];
    assert Intensities(s)[i] >= Min(Intensities(s));
  }

  /** After the sort the first entry carries the greatest intensity. */
  lemma SortedFirstIsMax(s: seq<LocalPeak>)
    requires |s| > 0
    ensures SortByIntensity(s)[0].intensity == Max(Intensities(s))
  {
    SortByIntensityCorrect(s);
    ArrangedFirstIsMax(s, SortByIntensity(s));
  }

  /** After the sort the last entry carries the smallest intensity. */
  lemma SortedLastIsMin(s: seq<LocalPeak>)
    requires |s| > 0
    ensures SortByIntensity(s)[|s| - 1].intensity == Min(Intensities(s))
  {
    SortByIntensityCorrect(s);
    ArrangedLastIsMin(s, SortByIntensity(s));
  }

  /** The validity test compares the extreme intensities of the trace. */
  lemma ValidTraceUsesExtremes(s: seq<LocalPeak>, threshold: real)
    requires |s| > 5
    ensures var t := SortByIntensity(s);
      ValidTrace(s, threshold) <==>
        && RatioExceeds(Max(Intensities(s)), Min(Intensities(s)), 5.0)
        && Max(Intensities(s)) > 5.0 * threshold
        && t[|t| - 1].rt - t[0].rt < 0.5
  {
    SortedFirstIsMax(s);
    SortedLastIsMin(s);
  }

  /** The list as `isValidStartingPoint` leaves it: sorted by descending intensity
      when it has more than five points, untouched otherwise. */
  function CheckedTrace(s: seq<LocalPeak>): (r: seq<LocalPeak>)
    ensures multiset(r) == multiset(s) && |r| == |s|
    ensures |s| > 5 ==> SortedByIntensity(r)
  {
    if |s| > 5 then SortByIntensityCorrect(s); SortByIntensity(s) else s
  }

  /** Checking a list the check has already rearranged rearranges it no further and
      gives the same verdict. */
  lemma CheckedTraceIdempotent(s: seq<LocalPeak>, threshold: real)
    ensures CheckedTrace(CheckedTrace(s)) == CheckedTrace(s)
    ensures ValidTrace(CheckedTrace(s), threshold) == ValidTrace(s, threshold)
  {
    ValidityCheckIdempotent(s, threshold);
  }

  /** Running the test on the list the test has already sorted gives the same
      answer, and sorting it again changes nothing. */
  lemma ValidityCheckIdempotent(s: seq<LocalPeak>, threshold: real)
    ensures SortByIntensity(SortByIntensity(s)) == SortByIntensity(s)
    ensures ValidTrace(SortByIntensity(s), threshold) == ValidTrace(s, threshold)
  {
    SortByIntensityCorrect(s);
    SortedIsFixed(SortByIntensity(s));
  }
}
