/** MS1 scans as the peak picker sees them: a retention time and a spectrum of
    parallel m/z and intensity arrays, plus the ppm window lookup that the mzXML
    reader's spectrum offers (`findMzIdxsWithinPpm`). */
module Spectra {
  import opened Common

  datatype Scan = Scan(rt: real, mzs: seq<real>, intensities: seq<real>)

  /** The reader always hands out spectra whose two arrays have one entry per point. */
  predicate WellFormed(s: Scan)
  {
    |s.mzs| == |s.intensities|
  }

  predicate AllWellFormed(scans: seq<Scan>)
  {
    forall j :: 0 <= j < |scans| ==> WellFormed(scans[j])
  }

  /** The closed window `centre ± (centre/1e6)*ppm`. */
  predicate InWindow(x: real, centre: real, ppm: real)
  {
    PpmBelow(centre, ppm) <= x <= PpmAbove(centre, ppm)
  }

  /** First index at or after `from` whose m/z lies in the window (`|mzs|` if none). */
  function FirstInWindow(mzs: seq<real>, centre: real, ppm: real, from: nat): (r: nat)
    requires from <= |mzs|
    decreases |mzs| - from
    ensures from <= r <= |mzs|
    ensures r < |mzs| ==> InWindow(mzs[r], centre, ppm)
    ensures forall j :: from <= j < r ==> !InWindow(mzs[j], centre, ppm)
  {
    if from == |mzs| || InWindow(mzs[from], centre, ppm) then from
    else FirstInWindow(mzs, centre, ppm, from + 1)
  }

  /** Last index below `upto` whose m/z lies in the window, if any. */
  function LastInWindow(mzs: seq<real>, centre: real, ppm: real, upto: nat): (r: Option<nat>)
    requires upto <= |mzs|
    ensures r.Some? ==> r.value < upto && InWindow(mzs[r.value], centre, ppm)
    ensures r.Some? ==> forall j :: r.value < j < upto ==> !InWindow(mzs[j], centre, ppm)
    ensures r.None? ==> forall j :: 0 <= j < upto ==> !InWindow(mzs[j], centre, ppm)
  {
    if upto == 0 then None
    else if InWindow(mzs[upto - 1], centre, ppm) then Some(upto - 1)
    else LastInWindow(mzs, centre, ppm, upto - 1)
  }

  /** `findMzIdxsWithinPpm`: the first and the last index whose m/z lies in the
      window, or nothing (`null`) when no m/z does. */
  function WindowIndices(mzs: seq<real>, centre: real, ppm: real): (r: Option<(nat, nat)>)
    ensures r.None? <==> forall j :: 0 <= j < |mzs| ==> !InWindow(mzs[j], centre, ppm)
    ensures r.Some? ==> var (lo, hi) := r.value;
      && lo <= hi < |mzs|
      && InWindow(mzs[lo], centre, ppm) && InWindow(mzs[hi], centre, ppm)
      && (forall j :: 0 <= j < lo ==> !InWindow(mzs[j], centre, ppm))
      && (forall j :: hi < j < |mzs| ==> !InWindow(mzs[j], centre, ppm))
  {
    var lo := FirstInWindow(mzs, centre, ppm, 0);
    if lo == |mzs| then None
    else
      var hi := LastInWindow(mzs, centre, ppm, |mzs|);
      Some((lo, hi.value))
  }

  /** On an ascending m/z array (as spectra are stored) the two indices bracket
      exactly the points inside the window. */
  lemma WindowIndicesOnSorted(mzs: seq<real>, centre: real, ppm: real)
    requires forall i, j :: 0 <= i < j < |mzs| ==> mzs[i] <= mzs[j]
    requires WindowIndices(mzs, centre, ppm).Some?
    ensures var (lo, hi) := WindowIndices(mzs, centre, ppm).value;
      forall j :: 0 <= j < |mzs| ==> (InWindow(mzs[j], centre, ppm) <==> lo <= j <= hi)
  {
    var (lo, hi) := WindowIndices(mzs, centre, ppm).value;
    forall j | lo <= j <= hi && 0 <= j < |mzs|
      ensures InWindow(mzs[j], centre, ppm)
    {
      assert mzs[lo] <= mzs[j] <= mzs[hi];
    }
  }
}
