/** MS2 fragment clusters after alignment: a fragment cluster shifted by the offset
    between its peak cluster and the aligned cluster (`AlignedFragmentCluster`), and
    a group of such shifted clusters with its mean position
    (`ClusteredAlignedFragmentCluster`). */
module Fragments {
  import opened Common

  /** An MS2 fragment of a peak cluster; a plain record in the source. */
  datatype LCMS2Fragment = LCMS2Fragment(intensity: real, mz: real, rt: real)

  /** A cluster of fragments with its median m/z and RT. The medians come from a
      statistics library and are taken as given. */
  datatype LCMS2Cluster = LCMS2Cluster(fragments: seq<LCMS2Fragment>, medianMZ: real, medianRT: real)

  datatype AlignedFragmentCluster = AlignedFragmentCluster(alignedMZ: real, alignedRT: real, fragmentCluster: LCMS2Cluster)

  /** The constructor: keep the cluster and shift its position back by the offsets. */
  function Align(c: LCMS2Cluster, rtDifference: real, mzDifference: real): (a: AlignedFragmentCluster)
    ensures a.fragmentCluster == c
    ensures a.alignedMZ + mzDifference == c.medianMZ && a.alignedRT + rtDifference == c.medianRT
  {
    AlignedFragmentCluster(c.medianMZ - mzDifference, c.medianRT - rtDifference, c)
  }

  /** Two clusters shifted by the same offsets keep their order and their distance
      apart in both m/z and RT. */
  lemma AlignKeepsSpacing(c: LCMS2Cluster, d: LCMS2Cluster, rtDifference: real, mzDifference: real)
    ensures var (a, b) := (Align(c, rtDifference, mzDifference), Align(d, rtDifference, mzDifference));
      && a.alignedMZ - b.alignedMZ == c.medianMZ - d.medianMZ
      && a.alignedRT - b.alignedRT == c.medianRT - d.medianRT
      && (a.alignedMZ <= b.alignedMZ <==> c.medianMZ <= d.medianMZ)
  {
  }

  /** `getPoint`: the coordinates the fragment clustering sees, m/z and a constant 0. */
  function GetPoint(a: AlignedFragmentCluster): (p: seq<real>)
    ensures p == [a.alignedMZ, 0.0]
  {
    [a.alignedMZ, 0.0]
  }

  function SquaredDistance(p: seq<real>, q: seq<real>): real
    requires |p| == 2 && |q| == 2
  {
    (p[0] - q[0]) * (p[0] - q[0]) + (p[1] - q[1]) * (p[1] - q[1])
  }

  /** Clustering on these points is clustering on aligned m/z alone: the RT plays no
      part in the distance. */
  lemma PointsDifferInMZOnly(a: AlignedFragmentCluster, b: AlignedFragmentCluster)
    ensures SquaredDistance(GetPoint(a), GetPoint(b)) == (a.alignedMZ - b.alignedMZ) * (a.alignedMZ - b.alignedMZ)
    ensures a.alignedMZ == b.alignedMZ ==> GetPoint(a) == GetPoint(b)
  {
  }

  datatype ClusteredAlignedFragmentCluster = ClusteredAlignedFragmentCluster(
    alignedFragmentClusters: seq<AlignedFragmentCluster>, meanMZ: real, meanRT: real)

  function AlignedMZs(s: seq<AlignedFragmentCluster>): (r: seq<real>)
    ensures |r| == |s| && forall i :: 0 <= i < |s| ==> r[i] == s[i].alignedMZ
  {
    seq(|s|, i requires 0 <= i < |s| => s[i].alignedMZ)
  }

  function AlignedRTs(s: seq<AlignedFragmentCluster>): (r: seq<real>)
    ensures |r| == |s| && forall i :: 0 <= i < |s| ==> r[i] == s[i].alignedRT
  {
    seq(|s|, i requires 0 <= i < |s| => s[i].alignedRT)
  }

  /** The constructor on the points of one cluster of the fragment clustering: copy
      them and average their aligned m/z and RT. An empty cluster has no average
      (`getAsDouble` fails), which is `None` here. */
  function Group(points: seq<AlignedFragmentCluster>): (r: Option<ClusteredAlignedFragmentCluster>)
    ensures r.None? <==> points == []
    ensures r.Some? ==> r.value.alignedFragmentClusters == points
    ensures r.Some? ==> r.value.meanMZ == Mean(AlignedMZs(points)) && r.value.meanRT == Mean(AlignedRTs(points))
  {
    if points == [] then None
    else Some(ClusteredAlignedFragmentCluster(points, Mean(AlignedMZs(points)), Mean(AlignedRTs(points))))
  }

  /** The mean position of a group lies between the smallest and largest aligned
      m/z and RT of its members. */
  lemma GroupMeansBounded(points: seq<AlignedFragmentCluster>)
    requires points != []
    ensures var g := Group(points).value;
      && Min(AlignedMZs(points)) <= g.meanMZ <= Max(AlignedMZs(points))
      && Min(AlignedRTs(points)) <= g.meanRT <= Max(AlignedRTs(points))
  {
    MeanBetweenMinMax(AlignedMZs(points));
    MeanBetweenMinMax(AlignedRTs(points));
  }
}
