/** The peak index of one file (`MzXMLFile` and the same steps in `Main`): every point
    of every MS1 spectrum as a peak, sorted by descending intensity, and the
    significant peaks above a mean + k·σ intensity threshold. */
module PeakIndex {
  import opened Common
  import opened Spectra
  import opened LocalPeaks

  /** The points of scan `j` in spectrum order, each carrying the scan's index and RT. */
  function ScanPoints(scan: Scan, j: int): (r: seq<Point>)
    requires WellFormed(scan)
    ensures |r| == |scan.mzs|
  {
    seq(|scan.mzs|, i requires 0 <= i < |scan.mzs| => Point(j, scan.intensities[i], scan.mzs[i], scan.rt))
  }

  /** The points of the first `n` scans, scan after scan: one per spectrum point. */
  function FlatPoints(scans: seq<Scan>, n: nat): (r: seq<Point>)
    requires AllWellFormed(scans) && n <= |scans|
    ensures |r| == TotalPoints(scans, n)
  {
    if n == 0 then [] else FlatPoints(scans, n - 1) + ScanPoints(scans[n - 1], n - 1)
  }

  function TotalPoints(scans: seq<Scan>, n: nat): nat
    requires n <= |scans|
  {
    if n == 0 then 0 else TotalPoints(scans, n - 1) + |scans[n - 1].mzs|
  }

  /** `p` carries the m/z and intensity of some point of `scan`'s spectrum. */
  predicate FromSpectrum(p: Point, scan: Scan)
    requires WellFormed(scan)
  {
    exists i :: 0 <= i < |scan.mzs| && p.mz == scan.mzs[i] && p.intensity == scan.intensities[i]
  }

  /** Every flattened point is taken from a spectrum point of its own scan and carries
      that scan's index and RT. */
  lemma {:induction false} FlatPointsShape(scans: seq<Scan>, n: nat)
    requires AllWellFormed(scans) && n <= |scans|
    ensures forall p :: p in FlatPoints(scans, n) ==>
      0 <= p.scan < n && p.rt == scans[p.scan].rt && FromSpectrum(p, scans[p.scan])
  {
    if n > 0 {
      FlatPointsShape(scans, n - 1);
      var before := FlatPoints(scans, n - 1);
      var last := ScanPoints(scans[n - 1], n - 1);
      assert FlatPoints(scans, n) == before + last;
      forall p: Point | p in before + last
        ensures 0 <= p.scan < n && p.rt == scans[p.scan].rt && FromSpectrum(p, scans[p.scan])
      {
        if p !in before {
          var k :| 0 <= k < |last| && last[k] == p;
          assert p.scan == n - 1 && p.mz == scans[n - 1].mzs[k] && p.intensity == scans[n - 1].intensities[k];
        }
      }
    }
  }

  /** `localPeakList`: a fresh, unflagged peak for every spectrum point, scan by scan
      and point by point, then the stable descending-intensity sort. */
  method LocalPeakList(scans: seq<Scan>) returns (peaks: seq<LocalPeak>, ghost flat: seq<LocalPeak>)
    requires AllWellFormed(scans)
    ensures Points(flat) == FlatPoints(scans, |scans|) && peaks == SortByIntensity(flat)
    ensures Distinct(flat) && forall p :: p in flat ==> fresh(p) && !p.isUsed && p.fragments == []
  {
    var built := [];
    var j := 0;
    while j < |scans|
      invariant 0 <= j <= |scans|
      invariant Points(built) == FlatPoints(scans, j)
      invariant Distinct(built) && forall p :: p in built ==> fresh(p) && !p.isUsed && p.fragments == []
    {
      var spectrum := scans[j];
      var i := 0;
      while i < |spectrum.intensities|
        invariant 0 <= i <= |spectrum.intensities|
        invariant Points(built) == FlatPoints(scans, j) + ScanPoints(spectrum, j)[..i]
        invariant Distinct(built) && forall p :: p in built ==> fresh(p) && !p.isUsed && p.fragments == []
      {
        var peak := new LocalPeak(j, spectrum.intensities[i], spectrum.mzs[i], spectrum.rt);
        AppendPoint(built, peak, FlatPoints(scans, j), ScanPoints(spectrum, j), i);
        built := built + [peak];
        i := i + 1;
      }
      assert ScanPoints(spectrum, j)[..i] == ScanPoints(spectrum, j);
      j := j + 1;
    }
    peaks := SortByIntensity(built);
    flat := built;
  }

  lemma AppendPoint(flat: seq<LocalPeak>, peak: LocalPeak, done: seq<Point>, row: seq<Point>, i: nat)
    requires i < |row| && Points(flat) == done + row[..i] && peak.Data() == row[i]
    ensures Points(flat + [peak]) == done + row[..i + 1]
  {
    assert row[..i + 1] == row[..i] + [row[i]];
  }

  /** The sorted list holds the same, pairwise distinct, peaks. */
  lemma {:induction false} SortedDistinct(s: seq<LocalPeak>)
    requires Distinct(s)
    ensures Distinct(SortByIntensity(s))
  {
    if s != [] {
      SortedDistinct(s[1..]);
      SortByIntensityCorrect(s[1..]);
      assert s[0] !in multiset(s[1..]);
      InsertDistinct(s[0], SortByIntensity(s[1..]));
    }
  }

  lemma {:induction false} InsertDistinct(x: LocalPeak, t: seq<LocalPeak>)
    requires Distinct(t) && x !in t
    ensures Distinct(InsertByIntensity(x, t))
  {
    if t == [] {
    } else if x.intensity >= t[0].intensity {
      DistinctCons(x, t);
    } else {
      var r := InsertByIntensity(x, t[1..]);
      InsertDistinct(x, t[1..]);
      InsertByIntensityPermutes(x, t[1..]);
      assert t[0] !in multiset(r);
      DistinctCons(t[0], r);
    }
  }

  lemma DistinctCons(x: LocalPeak, t: seq<LocalPeak>)
    requires Distinct(t) && x !in t
    ensures Distinct([x] + t)
  {
    var u := [x] + t;
    forall i, j | 0 <= i < j < |u|
      ensures u[i] != u[j]
    {
      assert u[j] == t[j - 1];
      if i > 0 {
        assert u[i] == t[i - 1];
      }
    }
  }

  /** `meanIntensity`: the running sum divided by the count. The source divides 0 by 0
      (NaN) on an empty list; the model asks for a non-empty one. */
  method MeanIntensity(list: seq<LocalPeak>) returns (mean: real)
    requires |list| > 0
    ensures mean == Mean(Intensities(list))
  {
    var sum := 0.0;
    var i := 0;
    while i < |list|
      invariant 0 <= i <= |list|
      invariant sum == Sum(Intensities(list)[..i])
    {
      SumAppend(Intensities(list)[..i], list[i].intensity);
      assert Intensities(list)[..i + 1] == Intensities(list)[..i] + [list[i].intensity];
      sum := sum + list[i].intensity;
      i := i + 1;
    }
    assert Intensities(list)[..i] == Intensities(list);
    mean := sum / (|list| as real);
  }

  /** The squared deviations from `mean`. */
  function SquaredDeviations(s: seq<real>, mean: real): (r: seq<real>)
    ensures |r| == |s| && forall i :: 0 <= i < |s| ==> r[i] == (s[i] - mean) * (s[i] - mean)
  {
    seq(|s|, i requires 0 <= i < |s| => (s[i] - mean) * (s[i] - mean))
  }

  /** The population variance about `mean`. */
  function Variance(s: seq<real>, mean: real): real
    requires |s| > 0
  {
    Mean(SquaredDeviations(s, mean))
  }

  /** A variance is never negative, and it is 0 about the mean of a list whose values
      are all equal. */
  lemma VarianceNonNegative(s: seq<real>, mean: real)
    requires |s| > 0
    ensures Variance(s, mean) >= 0.0
    ensures (forall i :: 0 <= i < |s| ==> s[i] == mean) ==> Variance(s, mean) == 0.0
  {
    var d := SquaredDeviations(s, mean);
    DeviationsNonNegative(s, mean);
    SumNonNegative(d);
    QuotientNonNegative(Sum(d), |d| as real);
    if forall i :: 0 <= i < |s| ==> s[i] == mean {
      assert forall i :: 0 <= i < |d| ==> d[i] == 0.0;
      SumBounds(d, 0.0, 0.0);
    }
  }

  lemma DeviationsNonNegative(s: seq<real>, mean: real)
    ensures forall i :: 0 <= i < |s| ==> 0.0 <= SquaredDeviations(s, mean)[i]
  {
    forall i | 0 <= i < |s|
      ensures 0.0 <= SquaredDeviations(s, mean)[i]
    {
      Square(s[i] - mean);
    }
  }

  lemma QuotientNonNegative(t: real, n: real)
    requires t >= 0.0 && n > 0.0
    ensures t / n >= 0.0
  {
  }

  lemma {:induction false} SumNonNegative(d: seq<real>)
    requires forall i :: 0 <= i < |d| ==> 0.0 <= d[i]
    ensures Sum(d) >= 0.0
  {
    if d != [] {
      SumNonNegative(d[..|d| - 1]);
    }
  }

  /** The accumulation of `intensityStandardDeviation` before its square root: the
      mean squared deviation from `mean`. */
  method IntensityVariance(list: seq<LocalPeak>, mean: real) returns (variance: real)
    requires |list| > 0
    ensures variance == Variance(Intensities(list), mean)
  {
    ghost var d := SquaredDeviations(Intensities(list), mean);
    var sum := 0.0;
    var i := 0;
    while i < |list|
      invariant 0 <= i <= |list|
      invariant sum == Sum(d[..i])
    {
      var x := (list[i].intensity - mean) * (list[i].intensity - mean);
      assert d[i] == x;
      SumAppend(d[..i], x);
      assert d[..i + 1] == d[..i] + [x];
      sum := sum + x;
      i := i + 1;
    }
    assert d[..i] == d;
    variance := sum / (|list| as real);
  }

  /** The stream filter: the peaks above the threshold, in order. */
  function Above(s: seq<LocalPeak>, threshold: real): seq<LocalPeak>
  {
    if s == [] then []
    else (if s[0].intensity > threshold then [s[0]] else []) + Above(s[1..], threshold)
  }

  /** The filter keeps exactly the peaks above the threshold. */
  lemma {:induction false} AboveMembers(s: seq<LocalPeak>, threshold: real)
    ensures forall p :: p in Above(s, threshold) <==> p in s && p.intensity > threshold
  {
    if s != [] {
      AboveMembers(s[1..], threshold);
    }
  }

  /** On a list in descending intensity, as the peak index is, the peaks above the
      threshold are a prefix of it, so their order is the list's own, and every peak
      after them is at or below the threshold. */
  lemma {:induction false} AboveIsPrefix(s: seq<LocalPeak>, threshold: real)
    requires SortedByIntensity(s)
    ensures var k := |Above(s, threshold)|;
      && k <= |s| && Above(s, threshold) == s[..k]
      && forall i :: k <= i < |s| ==> s[i].intensity <= threshold
  {
    if s != [] {
      assert SortedByIntensity(s[1..]);
      AboveIsPrefix(s[1..], threshold);
      if s[0].intensity <= threshold {
        NoneAbove(s[1..], threshold);
      }
    }
  }

  lemma {:induction false} NoneAbove(s: seq<LocalPeak>, threshold: real)
    requires forall i :: 0 <= i < |s| ==> s[i].intensity <= threshold
    ensures Above(s, threshold) == []
  {
    if s != [] {
      NoneAbove(s[1..], threshold);
    }
  }

  /** The significance threshold mean + k·σ, with `sqrt` standing for `Math.sqrt`. */
  function Threshold(intensities: seq<real>, k: real, sqrt: real -> real): real
    requires |intensities| > 0
  {
    var mean := Mean(intensities);
    mean + k * sqrt(Variance(intensities, mean))
  }

  /** With a square root that returns the non-negative root, the threshold is at least
      the mean, so every significant peak is above the mean intensity. */
  lemma ThresholdAboveMean(s: seq<LocalPeak>, k: real, sqrt: real -> real)
    requires |s| > 0 && k >= 0.0
    requires forall x :: x >= 0.0 ==> sqrt(x) >= 0.0
    ensures Threshold(Intensities(s), k, sqrt) >= Mean(Intensities(s))
    ensures forall p :: p in Above(s, Threshold(Intensities(s), k, sqrt)) ==> p.intensity > Mean(Intensities(s))
  {
    ThresholdAtLeastMean(Intensities(s), k, sqrt);
    AboveExceeds(s, Threshold(Intensities(s), k, sqrt), Mean(Intensities(s)));
  }

  /** Every peak the filter keeps exceeds any bound at or below the threshold. */
  lemma AboveExceeds(s: seq<LocalPeak>, threshold: real, bound: real)
    requires bound <= threshold
    ensures forall p :: p in Above(s, threshold) ==> p.intensity > bound
  {
    AboveMembers(s, threshold);
  }

  lemma ThresholdAtLeastMean(xs: seq<real>, k: real, sqrt: real -> real)
    requires |xs| > 0 && k >= 0.0
    requires forall x :: x >= 0.0 ==> sqrt(x) >= 0.0
    ensures Threshold(xs, k, sqrt) >= Mean(xs)
  {
    VarianceNonNegative(xs, Mean(xs));
    ScaledNonNegative(k, sqrt(Variance(xs, Mean(xs))));
  }

  lemma ThresholdFrom(xs: seq<real>, k: real, sqrt: real -> real, mean: real, variance: real)
    requires |xs| > 0 && mean == Mean(xs) && variance == Variance(xs, mean)
    ensures Threshold(xs, k, sqrt) == mean + k * sqrt(variance)
  {
  }

  lemma ScaledNonNegative(k: real, x: real)
    requires k >= 0.0 && x >= 0.0
    ensures k * x >= 0.0
  {
  }

  /** The peak-index steps of the file constructor (and of `Main`, with k = 2 where the
      file uses k = 5): build the sorted index, compute the mean and the threshold
      from it, and keep the peaks above the threshold. */
  method SignificantPeaks(scans: seq<Scan>, k: real, sqrt: real -> real)
    returns (peaks: seq<LocalPeak>, threshold: real, ghost all: seq<LocalPeak>)
    requires AllWellFormed(scans) && TotalPoints(scans, |scans|) > 0
    ensures Points(all) == FlatPoints(scans, |scans|) && Distinct(all)
    ensures threshold == Threshold(Intensities(SortByIntensity(all)), k, sqrt)
    ensures peaks == Above(SortByIntensity(all), threshold) && Distinct(peaks)
    ensures forall p :: p in all ==> fresh(p) && !p.isUsed && p.fragments == []
  {
    var sorted;
    sorted, all := LocalPeakList(scans);
    FlatPointsShape(scans, |scans|);
    var mean := MeanIntensity(sorted);
    var variance := IntensityVariance(sorted, mean);
    threshold := mean + k * sqrt(variance);
    ThresholdFrom(Intensities(sorted), k, sqrt, mean, variance);
    peaks := Above(sorted, threshold);
    SortedDistinct(all);
    AboveDistinct(sorted, threshold);
  }

  lemma {:induction false} AboveDistinct(s: seq<LocalPeak>, threshold: real)
    requires Distinct(s)
    ensures Distinct(Above(s, threshold))
  {
    if s != [] {
      AboveDistinct(s[1..], threshold);
      AboveMembers(s[1..], threshold);
      assert s[0] !in s[1..];
    }
  }
}
