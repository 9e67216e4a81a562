/** One isobar of a chromatogram: a stretch of its trace together with the apex of
    that stretch. */
module Isobars {
  import opened Common
  import opened LocalPeaks

  class Isobar {
    /** The list handed in, shared with the caller rather than copied. */
    const pairs: PeakList
    const meanMZ: real
    const tolerance: real
    const threshold: real
    const maxIntensityIndex: nat
    const maxIntensityRT: real
    const maxIntensity: real
    const inCluster: bool

    /** Scans the list once for the first strictly greatest intensity above 0 (index 0
        when none exceeds 0) and reads the apex intensity and RT from that entry.
        An empty list has no entry 0 to read, so the source fails on it. */
    constructor (scanPairs: PeakList, mz: real, tol: real, thresh: real, cluster: bool)
      requires |scanPairs.items| > 0
      ensures pairs == scanPairs
      ensures meanMZ == mz && tolerance == tol && threshold == thresh && inCluster == cluster
      ensures maxIntensityIndex == RunningMax(Intensities(scanPairs.items), 0, |scanPairs.items|).0
      ensures maxIntensityIndex < |scanPairs.items|
      ensures maxIntensity == scanPairs.items[maxIntensityIndex].intensity
      ensures maxIntensityRT == scanPairs.items[maxIntensityIndex].rt
    {
      var s := scanPairs.items;
      var index: nat := 0;
      var maxInt := 0.0;
      var i := 0;
      while i < |s|
        invariant 0 <= i <= |s|
        invariant (index, maxInt) == RunningMax(Intensities(s), 0, i)
      {
        if s[i].intensity > maxInt {
          index := i;
          maxInt := s[i].intensity;
        }
        i := i + 1;
      }
      pairs := scanPairs;
      meanMZ := mz;
      tolerance := tol;
      threshold := thresh;
      maxIntensityIndex := index;
      maxIntensityRT := s[index].rt;
      maxIntensity := s[index].intensity;
      inCluster := cluster;
    }
  }

  /** The apex fields agree with the list the isobar holds, as its constructor
      leaves them. */
  predicate ApexRead(b: Isobar)
    reads b, b.pairs
  {
    var s := b.pairs.items;
    && b.maxIntensityIndex == RunningMax(Intensities(s), 0, |s|).0
    && b.maxIntensityIndex < |s|
    && b.maxIntensity == s[b.maxIntensityIndex].intensity
    && b.maxIntensityRT == s[b.maxIntensityIndex].rt
  }

  /** What the apex index means, stated on the intensities of the list: when some
      entry is positive, the apex is the first entry holding the greatest intensity;
      otherwise it is entry 0. */
  lemma ApexIsFirstGreatest(s: seq<LocalPeak>)
    requires |s| > 0
    ensures var k := RunningMax(Intensities(s), 0, |s|).0;
      && k < |s|
      && ((exists j :: 0 <= j < |s| && s[j].intensity > 0.0) ==>
            && s[k].intensity > 0.0
            && (forall j :: 0 <= j < |s| ==> s[j].intensity <= s[k].intensity)
            && (forall j :: 0 <= j < k ==> s[j].intensity < s[k].intensity))
      && ((forall j :: 0 <= j < |s| ==> s[j].intensity <= 0.0) ==> k == 0)
  {
    RunningMaxIsFirstMax(Intensities(s), 0, |s|);
  }
}
