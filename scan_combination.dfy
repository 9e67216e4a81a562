/** An MS1 scan together with the MS2 scans recorded after it (`ScanCombination`):
    its points become peaks, and the fragments of each MS2 scan are attached to the
    MS1 peak closest to the scan's precursor m/z, if that peak is within ppm. */
module ScanCombinations {
  import opened Common
  import opened Spectra
  import opened LocalPeaks
  import opened PeakIndex

  /** An MS2 scan: its spectrum (with its own RT) and the precursor m/z it targets. */
  datatype MS2Scan = MS2Scan(spectrum: Scan, precursorMZ: real)

  /** The distances `|mz_i - target|` of the stream in `findClosestMS1Peak`. */
  function Distances(mzs: seq<real>, target: real): (r: seq<real>)
    ensures |r| == |mzs| && forall i :: 0 <= i < |mzs| ==> r[i] == Abs(mzs[i] - target)
  {
    seq(|mzs|, i requires 0 <= i < |mzs| => Abs(mzs[i] - target))
  }

  /** `indexOf(Collections.min(d))`: the first position of a smallest value. */
  function FirstArgMin(d: seq<real>): (r: nat)
    requires |d| > 0
    ensures r < |d|
    ensures forall j :: 0 <= j < |d| ==> d[r] <= d[j]
    ensures forall j :: 0 <= j < r ==> d[j] > d[r]
  {
    if |d| == 1 then 0
    else
      var m := FirstArgMin(d[1..]);
      assert forall j :: 1 <= j < |d| ==> d[1..][j - 1] == d[j];
      if d[0] <= d[m + 1] then 0 else m + 1
  }

  /** `findClosestMS1Peak`: the first peak at the least m/z distance from `ms2MZ`,
      or -1 when even that distance is not below `(ms2MZ/1e6)*ppm`. An empty peak
      list makes `Collections.min` throw, which is `None` here. */
  function FindClosestMS1Peak(ms2MZ: real, mzs: seq<real>, ppm: int): (r: Option<int>)
    ensures r.None? <==> mzs == []
    ensures r.Some? ==> -1 <= r.value < |mzs|
    ensures r.Some? ==>
      (r.value == -1 <==> forall j :: 0 <= j < |mzs| ==> Abs(mzs[j] - ms2MZ) >= PpmTolerance(ms2MZ, ppm as real))
    ensures r.Some? && r.value >= 0 ==>
      && Abs(mzs[r.value] - ms2MZ) < PpmTolerance(ms2MZ, ppm as real)
      && (forall j :: 0 <= j < |mzs| ==> Abs(mzs[r.value] - ms2MZ) <= Abs(mzs[j] - ms2MZ))
      && (forall j :: 0 <= j < r.value ==> Abs(mzs[j] - ms2MZ) > Abs(mzs[r.value] - ms2MZ))
  {
    if mzs == [] then None
    else
      var distances := Distances(mzs, ms2MZ);
      var ppmTolerance := PpmTolerance(ms2MZ, ppm as real);
      var minIndex := FirstArgMin(distances);
      MinBelow(distances, minIndex, ppmTolerance);
      if distances[minIndex] < ppmTolerance then Some(minIndex) else Some(-1)
  }

  /** The least value is below a bound exactly when some value is. */
  lemma MinBelow(d: seq<real>, m: nat, bound: real)
    requires m < |d| && forall j :: 0 <= j < |d| ==> d[m] <= d[j]
    ensures d[m] < bound <==> exists j :: 0 <= j < |d| && d[j] < bound
  {
  }

  /** The fragments of one MS2 spectrum, in spectrum order, with the MS2 scan's RT. */
  function FragmentsOf(s: Scan): (r: seq<MS2Fragment>)
    requires WellFormed(s)
    ensures |r| == |s.mzs|
    ensures forall i :: 0 <= i < |s.mzs| ==> r[i] == MS2Fragment(s.intensities[i], s.mzs[i], s.rt)
  {
    seq(|s.mzs|, i requires 0 <= i < |s.mzs| => MS2Fragment(s.intensities[i], s.mzs[i], s.rt))
  }

  predicate ScansWellFormed(scans: seq<MS2Scan>)
  {
    forall t :: 0 <= t < |scans| ==> WellFormed(scans[t].spectrum)
  }

  /** Where MS2 scan `scan` goes among the MS1 peaks with m/z values `mzs`. */
  function Target(scan: MS2Scan, mzs: seq<real>, ppm: int): Option<int>
  {
    FindClosestMS1Peak(scan.precursorMZ, mzs, ppm)
  }

  /** One MS2 scan as `createLocalPeaks` places it: its fragments and its target. */
  datatype Placement = Placement(fragments: seq<MS2Fragment>, target: Option<int>)

  function Placements(scans: seq<MS2Scan>, mzs: seq<real>, ppm: int): (r: seq<Placement>)
    requires ScansWellFormed(scans)
    ensures |r| == |scans|
    ensures forall t :: 0 <= t < |scans| ==>
      r[t] == Placement(FragmentsOf(scans[t].spectrum), Target(scans[t], mzs, ppm))
  {
    seq(|scans|, t requires 0 <= t < |scans| && ScansWellFormed(scans) =>
      Placement(FragmentsOf(scans[t].spectrum), Target(scans[t], mzs, ppm)))
  }

  /** Every target is -1 or one of the first `n` peaks. */
  predicate Bounded(ps: seq<Placement>, n: nat)
  {
    forall t :: 0 <= t < |ps| && ps[t].target.Some? ==> -1 <= ps[t].target.value < n
  }

  /** The targets `findClosestMS1Peak` picks are peaks of the list, or -1. */
  lemma PlacementsBounded(scans: seq<MS2Scan>, mzs: seq<real>, ppm: int)
    requires ScansWellFormed(scans)
    ensures Bounded(Placements(scans, mzs, ppm), |mzs|)
  {
    var ps := Placements(scans, mzs, ppm);
    forall t | 0 <= t < |ps| && ps[t].target.Some?
      ensures -1 <= ps[t].target.value < |mzs|
    {
      assert ps[t].target == FindClosestMS1Peak(scans[t].precursorMZ, mzs, ppm);
    }
  }

  /** The fragments that peak `k` has collected after the placements `ps`, in order. */
  function Attached(ps: seq<Placement>, k: int): seq<MS2Fragment>
  {
    if ps == [] then []
    else
      var last := ps[|ps| - 1];
      Attached(ps[..|ps| - 1], k) + (if last.target == Some(k) then last.fragments else [])
  }

  /** The fragments that all of the first `n` peaks have collected, counted. */
  function AttachedCount(ps: seq<Placement>, n: nat): nat
  {
    if n == 0 then 0 else AttachedCount(ps, n - 1) + |Attached(ps, n - 1)|
  }

  /** The fragments of the MS2 scans that have a peak in tolerance, counted. */
  function KeptCount(ps: seq<Placement>): nat
  {
    if ps == [] then 0
    else
      var last := ps[|ps| - 1];
      KeptCount(ps[..|ps| - 1]) + (if last.target.Some? && last.target.value >= 0 then |last.fragments| else 0)
  }

  /** Every fragment a peak holds comes from an MS2 scan that has it as target. */
  lemma {:induction false} AttachedFromTarget(ps: seq<Placement>, k: int, f: MS2Fragment)
    requires f in Attached(ps, k)
    ensures exists t :: 0 <= t < |ps| && ps[t].target == Some(k) && f in ps[t].fragments
  {
    var init := ps[..|ps| - 1];
    if f in Attached(init, k) {
      AttachedFromTarget(init, k, f);
      var t :| 0 <= t < |init| && init[t].target == Some(k) && f in init[t].fragments;
      assert init[t] == ps[t];
    } else {
      assert ps[|ps| - 1].target == Some(k) && f in ps[|ps| - 1].fragments;
    }
  }

  /** What a scan of `size` fragments with target `t` adds to the count of the
      first `n` peaks. */
  function Gain(t: Option<int>, size: nat, n: nat): nat
  {
    if t.Some? && 0 <= t.value < n then size else 0
  }

  /** One more MS2 scan adds its fragments to the count of the first `n` peaks
      exactly when its target is one of them. */
  lemma {:induction false} AttachedCountStep(ps: seq<Placement>, n: nat)
    requires ps != []
    ensures AttachedCount(ps, n)
         == AttachedCount(ps[..|ps| - 1], n) + Gain(ps[|ps| - 1].target, |ps[|ps| - 1].fragments|, n)
  {
    if n > 0 {
      AttachedCountStep(ps, n - 1);
      var init, last := ps[..|ps| - 1], ps[|ps| - 1];
      var gain := if last.target == Some(n - 1) then |last.fragments| else 0;
      assert |Attached(ps, n - 1)| == |Attached(init, n - 1)| + gain;
      assert Gain(last.target, |last.fragments|, n) == Gain(last.target, |last.fragments|, n - 1) + gain;
    }
  }

  /** Each MS2 scan's fragments end up at exactly one MS1 peak or at none: over all
      the peaks, the fragments held add up to those of the scans with a target. */
  lemma {:induction false} AttachedCountIsKept(ps: seq<Placement>, n: nat)
    requires Bounded(ps, n)
    ensures AttachedCount(ps, n) == KeptCount(ps)
  {
    if ps == [] {
      EmptyAttachedCount(n);
    } else {
      var init := ps[..|ps| - 1];
      assert Bounded(init, n) by {
        assert forall t :: 0 <= t < |init| ==> init[t] == ps[t];
      }
      AttachedCountStep(ps, n);
      AttachedCountIsKept(init, n);
    }
  }

  lemma {:induction false} EmptyAttachedCount(n: nat)
    ensures AttachedCount([], n) == 0
  {
    if n > 0 {
      EmptyAttachedCount(n - 1);
    }
  }

  lemma AttachedStep(ps: seq<Placement>, t: nat, k: int)
    requires t < |ps|
    ensures Attached(ps[..t + 1], k) == Attached(ps[..t], k) + (if ps[t].target == Some(k) then ps[t].fragments else [])
  {
    assert ps[..t + 1][..t] == ps[..t];
  }

  class ScanCombination {
    const ms1Scan: Scan
    var ms2Scans: seq<MS2Scan>
    const ppm: int
    const orderedNumber: int

    /** An MS1 scan with no MS2 scans yet. */
    constructor (ms1scan: Scan, ppm: int, ms1ScanNum: int)
      ensures ms1Scan == ms1scan && this.ppm == ppm && orderedNumber == ms1ScanNum && ms2Scans == []
    {
      ms1Scan := ms1scan;
      ms2Scans := [];
      this.ppm := ppm;
      orderedNumber := ms1ScanNum;
    }

    /** `addMs2Scan`: appends one scan at the end. */
    method AddMs2Scan(ms2scan: MS2Scan)
      modifies this`ms2Scans
      ensures ms2Scans == old(ms2Scans) + [ms2scan]
    {
      ms2Scans := ms2Scans + [ms2scan];
    }

    /** `createLocalPeaks`: one new, unused peak per MS1 spectrum point, in spectrum
        order, with the ordered scan number and the MS1 RT; each peak holds the
        fragments of the MS2 scans it is the target of, in scan order. An empty MS1
        spectrum with MS2 scans to place throws, which is `None` here. */
    method CreateLocalPeaks() returns (r: Option<seq<LocalPeak>>)
      requires WellFormed(ms1Scan) && ScansWellFormed(ms2Scans)
      ensures r.None? <==> ms1Scan.mzs == [] && ms2Scans != []
      ensures r.Some? ==>
        && Points(r.value) == ScanPoints(ms1Scan, orderedNumber)
        && (forall k :: 0 <= k < |r.value| ==>
              && fresh(r.value[k]) && !r.value[k].isUsed
              && r.value[k].fragments == Attached(Placements(ms2Scans, ms1Scan.mzs, ppm), k))
    {
      var peakList := NewPeaks(ms1Scan, orderedNumber);
      var ok := PlaceAll(peakList, ms1Scan.mzs, ms2Scans, ppm);
      if !ok {
        return None;
      }
      return Some(peakList);
    }
  }

  /** The first loop of `createLocalPeaks`: a new peak per spectrum point. */
  method NewPeaks(scan: Scan, orderedNumber: int) returns (peakList: seq<LocalPeak>)
    requires WellFormed(scan)
    ensures Points(peakList) == ScanPoints(scan, orderedNumber) && MZs(peakList) == scan.mzs
    ensures Distinct(peakList)
    ensures forall k :: 0 <= k < |peakList| ==> fresh(peakList[k]) && !peakList[k].isUsed && peakList[k].fragments == []
  {
    peakList := [];
    var i := 0;
    while i < |scan.intensities|
      invariant 0 <= i <= |scan.intensities|
      invariant |peakList| == i && Distinct(peakList)
      invariant forall k :: 0 <= k < i ==>
        && peakList[k].Data() == Point(orderedNumber, scan.intensities[k], scan.mzs[k], scan.rt)
        && fresh(peakList[k]) && !peakList[k].isUsed && peakList[k].fragments == []
    {
      var p := new LocalPeak(orderedNumber, scan.intensities[i], scan.mzs[i], scan.rt);
      peakList := peakList + [p];
      i := i + 1;
    }
  }

  /** The MS2 loop of `createLocalPeaks`: every scan's fragments go to its target
      peak; `false` when an MS2 scan meets an empty peak list. */
  method PlaceAll(peakList: seq<LocalPeak>, ghost mzs: seq<real>, scans: seq<MS2Scan>, ppm: int) returns (ok: bool)
    requires ScansWellFormed(scans) && Distinct(peakList) && MZs(peakList) == mzs
    requires forall k :: 0 <= k < |peakList| ==> peakList[k].fragments == []
    modifies peakList`fragments
    ensures ok <==> mzs != [] || scans == []
    ensures ok ==> forall k :: 0 <= k < |peakList| ==> peakList[k].fragments == Attached(Placements(scans, mzs, ppm), k)
  {
    ghost var ps := Placements(scans, mzs, ppm);
    var t := 0;
    while t < |scans|
      invariant 0 <= t <= |scans|
      invariant t > 0 ==> mzs != []
      invariant forall k :: 0 <= k < |peakList| ==> peakList[k].fragments == Attached(ps[..t], k)
    {
      var placed := PlaceScan(peakList, mzs, scans[t], ppm);
      if !placed {
        return false;
      }
      forall k | 0 <= k < |peakList|
        ensures peakList[k].fragments == Attached(ps[..t + 1], k)
      {
        AttachedStep(ps, t, k);
      }
      t := t + 1;
    }
    assert ps[..t] == ps;
    return true;
  }

  /** One pass of the MS2 loop of `createLocalPeaks`: the scan's fragments go to its
      target peak, if it has one, and nowhere else; `false` when the peak list is
      empty and `Collections.min` throws. */
  method PlaceScan(peakList: seq<LocalPeak>, ghost mzs: seq<real>, scan: MS2Scan, ppm: int)
    returns (ok: bool)
    requires WellFormed(scan.spectrum) && Distinct(peakList) && MZs(peakList) == mzs
    modifies peakList`fragments
    ensures ok <==> mzs != []
    ensures ok ==> forall k :: 0 <= k < |peakList| ==>
      peakList[k].fragments
        == old(peakList[k].fragments) + (if Target(scan, mzs, ppm) == Some(k) then FragmentsOf(scan.spectrum) else [])
  {
    var closestMS1Peak := FindClosestMS1Peak(scan.precursorMZ, MZs(peakList), ppm);
    if closestMS1Peak.None? {
      return false;
    }
    if closestMS1Peak.value != -1 {
      AttachFragments(peakList[closestMS1Peak.value], scan.spectrum);
    }
    return true;
  }

  /** The inner loop of `createLocalPeaks`: the fragments of one MS2 spectrum are
      appended, in order, to one peak. */
  method AttachFragments(peak: LocalPeak, spectrum: Scan)
    requires WellFormed(spectrum)
    modifies peak`fragments
    ensures peak.fragments == old(peak.fragments) + FragmentsOf(spectrum)
  {
    var i := 0;
    while i < |spectrum.mzs|
      invariant 0 <= i <= |spectrum.mzs|
      invariant peak.fragments == old(peak.fragments) + FragmentsOf(spectrum)[..i]
    {
      peak.AddFragment(MS2Fragment(spectrum.intensities[i], spectrum.mzs[i], spectrum.rt));
      assert FragmentsOf(spectrum)[..i + 1] == FragmentsOf(spectrum)[..i] + [FragmentsOf(spectrum)[i]];
      i := i + 1;
    }
    assert FragmentsOf(spectrum)[..i] == FragmentsOf(spectrum);
  }
}
