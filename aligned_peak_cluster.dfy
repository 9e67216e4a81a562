/** Cross-sample alignment (`AlignedPeakCluster`): starting from one peak cluster,
    take from each further file the first cluster within a ppm and RT tolerance of
    the running consensus, re-evaluate the consensus as the medians of the members,
    and settle the charge as the members' single most frequent charge. */
module AlignedPeakClusters {
  import opened Common
  import opened Chromatograms
  import opened PeakClusters
  import opened Adducts

  /** What alignment reads of a peak cluster: the mean m/z and the starting-point RT
      of its chromatogram 0 (not of its starting chromatogram). */
  datatype Anchor = Anchor(mz: real, rt: real)

  function AnchorOf(c: PeakCluster): Anchor
    requires |c.chromatograms| > 0
    reads c`chromatograms, c.chromatograms`meanMZ
  {
    Anchor(c.chromatograms[0].meanMZ, c.chromatograms[0].startingPointRT)
  }

  /** `checkPeakInTolerance`: the anchor lies strictly inside the ppm window around
      the consensus m/z and strictly within `RTWindow` of the consensus RT. */
  function CheckPeakInTolerance(a: Anchor, rollingMZ: real, rollingRT: real, ppm: real, RTWindow: real): (r: bool)
    ensures r <==> PpmBelow(rollingMZ, ppm) < a.mz < PpmAbove(rollingMZ, ppm) && -RTWindow < a.rt - rollingRT < RTWindow
  {
    var mzTolerance := (rollingMZ / 1000000.0) * ppm;
    if Abs(a.mz - rollingMZ) < mzTolerance then Abs(a.rt - rollingRT) < RTWindow
    else false
  }

  /** `euclideanDistance` before its square root. */
  function SquaredDistance(rollingMZ: real, rollingRT: real, sampleMZ: real, sampleRT: real): (d: real)
    ensures d >= 0.0
  {
    var a := rollingMZ - sampleMZ;
    var b := rollingRT - sampleRT;
    Square(a);
    Square(b);
    a * a + b * b
  }

  /** The distance is symmetric, and zero between equal positions. */
  lemma SquaredDistanceMetric(mz1: real, rt1: real, mz2: real, rt2: real)
    ensures SquaredDistance(mz1, rt1, mz2, rt2) == SquaredDistance(mz2, rt2, mz1, rt1)
    ensures SquaredDistance(mz1, rt1, mz1, rt1) == 0.0
  {
    var a, b := mz1 - mz2, rt1 - rt2;
    assert SquaredDistance(mz1, rt1, mz2, rt2) == a * a + b * b;
    assert SquaredDistance(mz2, rt2, mz1, rt1) == (mz2 - mz1) * (mz2 - mz1) + (rt2 - rt1) * (rt2 - rt1);
    assert (mz2 - mz1) * (mz2 - mz1) == a * a;
    assert (rt2 - rt1) * (rt2 - rt1) == b * b;
  }

  /** The index of the first anchor of a file in tolerance of the consensus, or -1. */
  function FirstInTolerance(fa: seq<Anchor>, mz: real, rt: real, ppm: real, RTWindow: real): (r: int)
    ensures -1 <= r < |fa|
    ensures r >= 0 ==> CheckPeakInTolerance(fa[r], mz, rt, ppm, RTWindow)
    ensures r >= 0 ==> forall j :: 0 <= j < r ==> !CheckPeakInTolerance(fa[j], mz, rt, ppm, RTWindow)
    ensures r == -1 <==> forall j :: 0 <= j < |fa| ==> !CheckPeakInTolerance(fa[j], mz, rt, ppm, RTWindow)
  {
    if fa == [] then -1
    else if CheckPeakInTolerance(fa[0], mz, rt, ppm, RTWindow) then 0
    else
      var r := FirstInTolerance(fa[1..], mz, rt, ppm, RTWindow);
      assert forall j :: 1 <= j < |fa| ==> fa[1..][j - 1] == fa[j];
      if r == -1 then -1 else r + 1
  }

  /** The running state of `alignPeaks`: the clusters taken so far with their
      anchors, and the consensus m/z and RT. */
  datatype Consensus<T> = Consensus(members: seq<T>, anchors: seq<Anchor>, mz: real, rt: real)

  function MZs(anchors: seq<Anchor>): (r: seq<real>)
    ensures |r| == |anchors| && forall i :: 0 <= i < |anchors| ==> r[i] == anchors[i].mz
  {
    seq(|anchors|, i requires 0 <= i < |anchors| => anchors[i].mz)
  }

  function RTs(anchors: seq<Anchor>): (r: seq<real>)
    ensures |r| == |anchors| && forall i :: 0 <= i < |anchors| ==> r[i] == anchors[i].rt
  {
    seq(|anchors|, i requires 0 <= i < |anchors| => anchors[i].rt)
  }

  /** One file of `alignPeaks`: the clusters in tolerance of the consensus are
      collected in file order and the first of them joins the members (the
      `indexOf(min)` over a one-element `Arrays.asList` of a `double[]` is always 0);
      the consensus becomes the medians of the members' anchors. A file with no
      cluster in tolerance changes nothing. */
  function Admit<T>(s: Consensus<T>, file: seq<T>, fa: seq<Anchor>, ppm: real, RTWindow: real,
                    median: seq<real> -> real): (r: Consensus<T>)
    requires |file| == |fa|
    ensures 0 <= |r.members| - |s.members| == |r.anchors| - |s.anchors| <= 1
    ensures r.members[..|s.members|] == s.members && r.anchors[..|s.anchors|] == s.anchors
    ensures |r.members| == |s.members| + 1 <==>
      exists j :: 0 <= j < |fa| && CheckPeakInTolerance(fa[j], s.mz, s.rt, ppm, RTWindow)
    ensures |r.members| == |s.members| + 1 ==>
      exists j :: && 0 <= j < |fa| && CheckPeakInTolerance(fa[j], s.mz, s.rt, ppm, RTWindow)
                  && (forall l :: 0 <= l < j ==> !CheckPeakInTolerance(fa[l], s.mz, s.rt, ppm, RTWindow))
                  && r.members[|s.members|] == file[j] && r.anchors[|s.anchors|] == fa[j]
                  && r.mz == median(MZs(r.anchors)) && r.rt == median(RTs(r.anchors))
    ensures |r.members| == |s.members| ==> r == s
  {
    var k := FirstInTolerance(fa, s.mz, s.rt, ppm, RTWindow);
    if k < 0 then s
    else
      var anchors := s.anchors + [fa[k]];
      Consensus(s.members + [file[k]], anchors, median(MZs(anchors)), median(RTs(anchors)))
  }

  /** The files and their anchors line up cluster by cluster. */
  predicate Matching<T>(files: seq<seq<T>>, fas: seq<seq<Anchor>>)
  {
    |files| == |fas| && forall i :: 0 <= i < |files| ==> |files[i]| == |fas[i]|
  }

  /** The loop of `alignPeaks` over the files, in order. */
  function AlignAll<T>(s: Consensus<T>, files: seq<seq<T>>, fas: seq<seq<Anchor>>, ppm: real, RTWindow: real,
                       median: seq<real> -> real): Consensus<T>
    requires Matching(files, fas)
    decreases |files|
  {
    if files == [] then s
    else AlignAll(Admit(s, files[0], fas[0], ppm, RTWindow, median), files[1..], fas[1..], ppm, RTWindow, median)
  }

  lemma AlignAllStep<T>(s: Consensus<T>, files: seq<seq<T>>, fas: seq<seq<Anchor>>, i: nat,
                        ppm: real, RTWindow: real, median: seq<real> -> real)
    requires Matching(files, fas) && i < |files|
    ensures Matching(files[i..], fas[i..]) && Matching(files[i + 1..], fas[i + 1..])
    ensures AlignAll(s, files[i..], fas[i..], ppm, RTWindow, median)
         == AlignAll(Admit(s, files[i], fas[i], ppm, RTWindow, median), files[i + 1..], fas[i + 1..], ppm, RTWindow, median)
  {
    assert files[i..][1..] == files[i + 1..] && fas[i..][1..] == fas[i + 1..];
  }

  /** What `Admit` does once the first cluster in tolerance, `first`, is known. */
  lemma AdmitFirst<T>(s: Consensus<T>, file: seq<T>, fa: seq<Anchor>, first: int, c: T, a: Anchor,
                      ppm: real, RTWindow: real, median: seq<real> -> real)
    requires |file| == |fa| && first == FirstInTolerance(fa, s.mz, s.rt, ppm, RTWindow)
    requires first >= 0 ==> first < |file| && c == file[first] && a == fa[first]
    ensures first < 0 ==> Admit(s, file, fa, ppm, RTWindow, median) == s
    ensures first >= 0 ==>
      Admit(s, file, fa, ppm, RTWindow, median) == Consensus(s.members + [c], s.anchors + [a], median(MZs(s.anchors + [a])), median(RTs(s.anchors + [a])))
  {
  }

  /** `m`, with anchor `a`, is a cluster of one of the files, with its anchor there. */
  ghost predicate Origin<T>(files: seq<seq<T>>, fas: seq<seq<Anchor>>, m: T, a: Anchor)
    requires Matching(files, fas)
  {
    exists f, j :: 0 <= f < |files| && 0 <= j < |files[f]| && files[f][j] == m && fas[f][j] == a
  }

  /** Alignment keeps the members it started with, in front, adds at most one
      cluster per file, and every cluster it adds comes from one of the files with
      the anchor it has there. */
  lemma {:induction false} AlignAllShape<T>(s: Consensus<T>, files: seq<seq<T>>, fas: seq<seq<Anchor>>,
                                            ppm: real, RTWindow: real, median: seq<real> -> real)
    requires Matching(files, fas) && |s.members| == |s.anchors|
    decreases |files|
    ensures var r := AlignAll(s, files, fas, ppm, RTWindow, median);
      && |r.members| == |r.anchors|
      && |s.members| <= |r.members| <= |s.members| + |files|
      && r.members[..|s.members|] == s.members && r.anchors[..|s.anchors|] == s.anchors
      && forall k :: |s.members| <= k < |r.members| ==> Origin(files, fas, r.members[k], r.anchors[k])
  {
    if files != [] {
      var s' := Admit(s, files[0], fas[0], ppm, RTWindow, median);
      var rest, restAnchors := files[1..], fas[1..];
      assert forall i :: 1 <= i < |files| ==> rest[i - 1] == files[i] && restAnchors[i - 1] == fas[i];
      AlignAllShape(s', rest, restAnchors, ppm, RTWindow, median);
      var r := AlignAll(s', rest, restAnchors, ppm, RTWindow, median);
      PrefixOfPrefix(s.members, s'.members, r.members);
      PrefixOfPrefix(s.anchors, s'.anchors, r.anchors);
      forall k | |s.members| <= k < |r.members|
        ensures Origin(files, fas, r.members[k], r.anchors[k])
      {
        if k < |s'.members| {
          var j := FirstInTolerance(fas[0], s.mz, s.rt, ppm, RTWindow);
          PrefixAt(s'.members, r.members, k);
          PrefixAt(s'.anchors, r.anchors, k);
          assert files[0][j] == r.members[k] && fas[0][j] == r.anchors[k];
        } else {
          OriginShift(files, fas, r.members[k], r.anchors[k]);
        }
      }
    }
  }

  lemma OriginShift<T>(files: seq<seq<T>>, fas: seq<seq<Anchor>>, m: T, a: Anchor)
    requires Matching(files, fas) && files != [] && Matching(files[1..], fas[1..])
    requires Origin(files[1..], fas[1..], m, a)
    ensures Origin(files, fas, m, a)
  {
    var f, j :| 0 <= f < |files[1..]| && 0 <= j < |files[1..][f]| && files[1..][f][j] == m && fas[1..][f][j] == a;
    assert files[f + 1][j] == m && fas[f + 1][j] == a;
  }

  /** The number of times `v` occurs in `s`. */
  function Count(s: seq<int>, v: int): (n: nat)
    ensures n <= |s|
    ensures n > 0 <==> v in s
  {
    if s == [] then 0 else (if s[0] == v then 1 else 0) + Count(s[1..], v)
  }

  /** `v` is a most frequent value of `s` (`StatUtils.mode` returns them all). */
  predicate IsMode(s: seq<int>, v: int)
  {
    v in s && forall w :: w in s ==> Count(s, w) <= Count(s, v)
  }

  /** The mode computation of `checkPossibleCharges`: a most frequent value, and
      whether it is the only one. An empty list has none (`chargeModes[0]` fails). */
  method UniqueMode(s: seq<int>) returns (unique: bool, mode: int)
    ensures |s| > 0 ==> IsMode(s, mode)
    ensures unique <==> IsMode(s, mode) && forall v :: IsMode(s, v) ==> v == mode
  {
    if |s| == 0 {
      return false, 0;
    }
    mode := s[0];
    var best := Count(s, s[0]);
    unique := true;
    ghost var at := 0;
    var i := 1;
    while i < |s|
      invariant 1 <= i <= |s|
      invariant 0 <= at < |s| && mode == s[at] && best == Count(s, mode)
      invariant AtMost(s, i, best)
      invariant unique <==> Unrivalled(s, i, best, mode)
    {
      var c := Count(s, s[i]);
      if c > best {
        AtMostStep(s, i, best, c);
        UnrivalledStart(s, i, best, c);
        mode, best, unique, at := s[i], c, true, i;
      } else {
        AtMostStep(s, i, best, best);
        UnrivalledStep(s, i, best, mode);
        if c == best && s[i] != mode {
          unique := false;
        }
      }
      i := i + 1;
    }
    forall w | w in s
      ensures Count(s, w) <= best
    {
      var j :| 0 <= j < |s| && s[j] == w;
    }
    assert IsMode(s, mode);
    if !unique {
      var j :| 0 <= j < |s| && Count(s, s[j]) == best && s[j] != mode;
      assert IsMode(s, s[j]);
    }
  }

  /** `s` has exactly one most frequent value. */
  ghost predicate HasUniqueMode(s: seq<int>)
  {
    exists m :: IsMode(s, m) && forall v :: IsMode(s, v) ==> v == m
  }

  /** What `UniqueMode` reports is whether the mode is unique. */
  lemma UniqueModeExists(s: seq<int>, unique: bool, mode: int)
    requires |s| > 0 ==> IsMode(s, mode)
    requires unique <==> IsMode(s, mode) && forall v :: IsMode(s, v) ==> v == mode
    ensures unique <==> HasUniqueMode(s)
  {
  }

  /** The mode step of `checkPossibleCharges` on the members' charges. */
  method ChargeMode(cs: seq<PeakCluster>) returns (ok: bool, mode: int)
    ensures ok <==> HasUniqueMode(Charges(cs))
    ensures ok ==> IsMode(Charges(cs), mode)
  {
    var unique;
    unique, mode := UniqueMode(Charges(cs));
    UniqueModeExists(Charges(cs), unique, mode);
    ok := unique;
  }

  /** No value among the first `i` of `s` occurs more than `best` times. */
  predicate AtMost(s: seq<int>, i: nat, best: nat)
    requires i <= |s|
  {
    forall j :: 0 <= j < i ==> Count(s, s[j]) <= best
  }

  /** Among the first `i` of `s`, only `mode` occurs `best` times. */
  predicate Unrivalled(s: seq<int>, i: nat, best: nat, mode: int)
    requires i <= |s|
  {
    forall j :: 0 <= j < i && Count(s, s[j]) == best ==> s[j] == mode
  }

  lemma AtMostStep(s: seq<int>, i: nat, best: nat, best': nat)
    requires i < |s| && AtMost(s, i, best) && best <= best' && Count(s, s[i]) <= best'
    ensures AtMost(s, i + 1, best')
  {
  }

  lemma UnrivalledStart(s: seq<int>, i: nat, best: nat, c: nat)
    requires i < |s| && AtMost(s, i, best) && best < c && c == Count(s, s[i])
    ensures Unrivalled(s, i + 1, c, s[i])
  {
  }

  lemma UnrivalledStep(s: seq<int>, i: nat, best: nat, mode: int)
    requires i < |s| && Count(s, s[i]) <= best
    ensures Unrivalled(s, i + 1, best, mode) <==> Unrivalled(s, i, best, mode) && (Count(s, s[i]) == best ==> s[i] == mode)
  {
  }

  /** The charges of a list of peak clusters. */
  function Charges(cs: seq<PeakCluster>): (r: seq<int>)
    reads cs
    ensures |r| == |cs| && forall i :: 0 <= i < |cs| ==> r[i] == cs[i].charge
  {
    seq(|cs|, i requires 0 <= i < |cs| reads cs => cs[i].charge)
  }

  /** Every peak cluster of every file. */
  ghost function Clusters(files: seq<seq<PeakCluster>>): set<PeakCluster>
  {
    set f, c | f in files && c in f :: c
  }

  /** The chromatograms of every cluster of one file. */
  ghost function Traces(file: seq<PeakCluster>): set<Chromatogram>
    reads file`chromatograms
  {
    set c, x | c in file && x in c.chromatograms :: x
  }

  /** The chromatograms of every cluster of every file. */
  ghost function AllTraces(files: seq<seq<PeakCluster>>): set<Chromatogram>
    reads Clusters(files)`chromatograms
  {
    set f, c, x | f in files && c in f && x in c.chromatograms :: x
  }

  /** Every cluster of every file has a chromatogram 0, as every built cluster does. */
  predicate Anchorable(files: seq<seq<PeakCluster>>)
    reads Clusters(files)`chromatograms
  {
    forall f, c :: f in files && c in f ==> |c.chromatograms| > 0
  }

  /** `a` is the anchor of `c`. */
  predicate AnchoredAs(c: PeakCluster, a: Anchor)
    reads c`chromatograms, c.chromatograms`meanMZ
  {
    |c.chromatograms| > 0 && a == AnchorOf(c)
  }

  /** `fas` holds the anchors of `files`, cluster by cluster. */
  predicate AnchorSnapshot(files: seq<seq<PeakCluster>>, fas: seq<seq<Anchor>>)
    reads Clusters(files)`chromatograms, AllTraces(files)`meanMZ
  {
    && Matching(files, fas)
    && forall i, j {:trigger AnchoredAs(files[i][j], fas[i][j])} :: 0 <= i < |files| && 0 <= j < |files[i]| ==>
         files[i] in files && files[i][j] in files[i] && (TracesOf(files, i, j); AnchoredAs(files[i][j], fas[i][j]))
  }

  /** The chromatograms of a cluster of a file are among those of all files. */
  lemma TracesOf(files: seq<seq<PeakCluster>>, i: nat, j: nat)
    requires i < |files| && j < |files[i]|
    ensures forall x :: x in files[i][j].chromatograms ==> x in AllTraces(files)
  {
    forall x | x in files[i][j].chromatograms
      ensures x in AllTraces(files)
    {
      assert files[i] in files && files[i][j] in files[i];
    }
  }

  /** The frames of the first cluster and of the rest of a file lie in the file's. */
  lemma FileFrames(file: seq<PeakCluster>)
    requires file != []
    ensures forall x :: x in file[0].chromatograms ==> x in Traces(file)
    ensures Traces(file[1..]) <= Traces(file)
  {
    forall x | x in Traces(file[1..])
      ensures x in Traces(file)
    {
      var c :| c in file[1..] && x in c.chromatograms;
      assert c in file;
    }
  }

  /** The frames of the first file and of the rest of the files lie in those of all. */
  lemma FilesFrames(files: seq<seq<PeakCluster>>)
    requires files != []
    ensures forall c :: c in files[0] ==> c in Clusters(files)
    ensures Traces(files[0]) <= AllTraces(files)
    ensures Clusters(files[1..]) <= Clusters(files) && AllTraces(files[1..]) <= AllTraces(files)
  {
    assert files[0] in files;
    forall x | x in AllTraces(files[1..])
      ensures x in AllTraces(files)
    {
      var f, c :| f in files[1..] && c in f && x in c.chromatograms;
      assert f in files;
    }
    forall c | c in Clusters(files[1..])
      ensures c in Clusters(files)
    {
      var f :| f in files[1..] && c in f;
      assert f in files;
    }
  }

  lemma AnchorAt(files: seq<seq<PeakCluster>>, fas: seq<seq<Anchor>>, i: nat, j: nat)
    requires AnchorSnapshot(files, fas) && i < |files| && j < |files[i]|
    ensures |files[i][j].chromatograms| > 0 && fas[i][j] == AnchorOf(files[i][j])
  {
    assert AnchoredAs(files[i][j], fas[i][j]);
  }

  /** The anchors of the clusters of one file. */
  function FileAnchors(file: seq<PeakCluster>): (r: seq<Anchor>)
    requires forall c :: c in file ==> |c.chromatograms| > 0
    reads file`chromatograms, Traces(file)`meanMZ
    ensures |r| == |file|
    ensures forall j {:trigger AnchoredAs(file[j], r[j])} :: 0 <= j < |file| ==> AnchoredAs(file[j], r[j])
  {
    if file == [] then []
    else
      FileFrames(file);
      var rest := FileAnchors(file[1..]);
      var r := [AnchorOf(file[0])] + rest;
      assert forall j :: 1 <= j < |file| ==> file[1..][j - 1] == file[j] && r[j] == rest[j - 1];
      r
  }

  /** The anchors of every cluster of every file. */
  function AnchorsOf(files: seq<seq<PeakCluster>>): (r: seq<seq<Anchor>>)
    requires Anchorable(files)
    reads Clusters(files)`chromatograms, AllTraces(files)`meanMZ
    ensures AnchorSnapshot(files, r)
  {
    if files == [] then []
    else
      FilesFrames(files);
      var first := FileAnchors(files[0]);
      var rest := AnchorsOf(files[1..]);
      var r := [first] + rest;
      assert forall i :: 1 <= i < |files| ==> files[1..][i - 1] == files[i] && r[i] == rest[i - 1];
      r
  }

  class AlignedPeakCluster {
    var possibleClusters: seq<PeakCluster>
    var adducts: seq<Adduct>
    var medianMZ: real
    var medianRT: real
    var charge: int
    const ppm: real
    const RTWindow: real

    /** The field assignments of the source constructor; its closing
        `checkPossibleCharges` is `CheckPossibleCharges` below. */
    constructor (inputClusters: seq<PeakCluster>, mz: real, RT: real, mzPpm: real, RTTolerance: real)
      ensures possibleClusters == inputClusters && medianMZ == mz && medianRT == RT
      ensures ppm == mzPpm && RTWindow == RTTolerance && adducts == []
    {
      possibleClusters := inputClusters;
      medianMZ := mz;
      medianRT := RT;
      ppm := mzPpm;
      RTWindow := RTTolerance;
      adducts := [];
      charge := 0;
    }

    /** `checkPossibleCharges`: the charge becomes the single most frequent member
        charge; `false` stands for the exception thrown when there are several. */
    method CheckPossibleCharges() returns (ok: bool)
      modifies this`charge
      ensures ok <==> HasUniqueMode(Charges(possibleClusters))
      ensures ok ==> IsMode(Charges(possibleClusters), charge)
    {
      var mode;
      ok, mode := ChargeMode(possibleClusters);
      if ok {
        charge := mode;
      }
    }

    /** `findAdducts`: the adducts strictly inside the ppm window around the
        consensus m/z, in list order, up to the first one above the window. */
    method FindAdducts(list: seq<Adduct>)
      modifies this`adducts
      ensures adducts == Windowed(list, PpmBelow(medianMZ, ppm), PpmAbove(medianMZ, ppm))
    {
      adducts := CollectInWindow(list, medianMZ - (medianMZ / 1000000.0) * ppm, medianMZ + (medianMZ / 1000000.0) * ppm);
    }

    /** `setPossibleClusters`: replaces the members and nothing else; in particular
        the charge is not recomputed. */
    method SetPossibleClusters(clusters: seq<PeakCluster>)
      modifies this`possibleClusters
      ensures possibleClusters == clusters && charge == old(charge)
    {
      possibleClusters := clusters;
    }
  }

  /** `alignPeaks`: flag the starting cluster, seed the consensus with its anchor,
      run through the files (`AlignAll`), flag every member and build the aligned
      cluster, which fails when the members' charge has several modes. */
  method AlignPeaks(files: seq<seq<PeakCluster>>, startingPoint: PeakCluster, ppm: real, RTWindow: real,
                    median: seq<real> -> real)
    returns (r: Option<AlignedPeakCluster>)
    requires Anchorable(files) && |startingPoint.chromatograms| > 0
    modifies startingPoint`inAlignedCluster, Clusters(files)`inAlignedCluster
    ensures var a := old(AnchorOf(startingPoint));
      var s := AlignAll(Consensus([startingPoint], [a], a.mz, a.rt), files, old(AnchorsOf(files)), ppm, RTWindow, median);
      && startingPoint.inAlignedCluster
      && (forall c :: c in s.members ==> c.inAlignedCluster)
      && (forall c :: c in Clusters(files) && c != startingPoint && c !in s.members ==>
            c.inAlignedCluster == old(c.inAlignedCluster))
      && (r.Some? <==> HasUniqueMode(Charges(s.members)))
      && (r.Some? ==>
            && fresh(r.value)
            && r.value.possibleClusters == s.members && r.value.medianMZ == s.mz && r.value.medianRT == s.rt
            && r.value.ppm == ppm && r.value.RTWindow == RTWindow && r.value.adducts == []
            && IsMode(Charges(s.members), r.value.charge))
  {
    ghost var a0 := AnchorOf(startingPoint);
    ghost var fas := AnchorsOf(files);
    ghost var s0 := Consensus([startingPoint], [a0], a0.mz, a0.rt);
    var clustersToAdd, medianMZ, medianRT := Gather(files, fas, startingPoint, ppm, RTWindow, median);
    MembersDrawn(s0, files, fas, ppm, RTWindow, median);
    startingPoint.SetInAlignedCluster();
    FlagAll(clustersToAdd, startingPoint, Clusters(files));
    var aligned := new AlignedPeakCluster(clustersToAdd, medianMZ, medianRT, ppm, RTWindow);
    var ok := aligned.CheckPossibleCharges();
    if !ok {
      return None;
    }
    return Some(aligned);
  }

  /** The members of an alignment started from `s0` are its own or clusters of the files. */
  lemma MembersDrawn(s0: Consensus<PeakCluster>, files: seq<seq<PeakCluster>>, fas: seq<seq<Anchor>>,
                        ppm: real, RTWindow: real, median: seq<real> -> real)
    requires Matching(files, fas) && |s0.members| == |s0.anchors| == 1
    ensures forall c :: c in AlignAll(s0, files, fas, ppm, RTWindow, median).members ==>
      c == s0.members[0] || c in Clusters(files)
  {
    var s := AlignAll(s0, files, fas, ppm, RTWindow, median);
    AlignAllShape(s0, files, fas, ppm, RTWindow, median);
    forall c | c in s.members
      ensures c == s0.members[0] || c in Clusters(files)
    {
      var k :| 0 <= k < |s.members| && s.members[k] == c;
      if k == 0 {
        PrefixAt(s0.members, s.members, 0);
      } else {
        var f, j :| 0 <= f < |files| && 0 <= j < |files[f]| && files[f][j] == s.members[k] && fas[f][j] == s.anchors[k];
        assert files[f] in files && c in files[f];
      }
    }
  }

  /** The consensus loop of `alignPeaks`, which only reads: the members, starting
      with `startingPoint`, and the final medians are those of `AlignAll`. */
  method Gather(files: seq<seq<PeakCluster>>, ghost fas: seq<seq<Anchor>>, startingPoint: PeakCluster,
                ppm: real, RTWindow: real, median: seq<real> -> real)
    returns (clustersToAdd: seq<PeakCluster>, medianMZ: real, medianRT: real)
    requires AnchorSnapshot(files, fas) && |startingPoint.chromatograms| > 0
    ensures var a := AnchorOf(startingPoint);
      var s := AlignAll(Consensus([startingPoint], [a], a.mz, a.rt), files, fas, ppm, RTWindow, median);
      clustersToAdd == s.members && medianMZ == s.mz && medianRT == s.rt
  {
    ghost var a0 := AnchorOf(startingPoint);
    ghost var s0 := Consensus([startingPoint], [a0], a0.mz, a0.rt);
    medianMZ := startingPoint.chromatograms[0].meanMZ;
    medianRT := startingPoint.chromatograms[0].startingPointRT;
    clustersToAdd := [startingPoint];
    var anchorsAdded := [AnchorOf(startingPoint)];
    ghost var goal := AlignAll(s0, files, fas, ppm, RTWindow, median);
    var i := 0;
    while i < |files|
      invariant 0 <= i <= |files| && AnchorSnapshot(files, fas)
      invariant AlignAll(Consensus(clustersToAdd, anchorsAdded, medianMZ, medianRT), files[i..], fas[i..], ppm, RTWindow, median) == goal
    {
      var potential, first := Candidates(files, fas, i, medianMZ, medianRT, ppm, RTWindow);
      ghost var current := Consensus(clustersToAdd, anchorsAdded, medianMZ, medianRT);
      AlignAllStep(current, files, fas, i, ppm, RTWindow, median);
      if |potential| > 0 {
        AdmitFirst(current, files[i], fas[i], first, potential[0], AnchorOf(potential[0]), ppm, RTWindow, median);
        clustersToAdd := clustersToAdd + [potential[0]];
        anchorsAdded := anchorsAdded + [AnchorOf(potential[0])];
        medianMZ := median(MZs(anchorsAdded));
        medianRT := median(RTs(anchorsAdded));
      } else {
        AdmitFirst(current, files[i], fas[i], first, startingPoint, a0, ppm, RTWindow, median);
      }
      i := i + 1;
    }
  }

  /** The flagging loop of `alignPeaks`: every member ends up flagged, and no other
      cluster's flag changes. */
  method FlagAll(cs: seq<PeakCluster>, ghost start: PeakCluster, ghost pool: set<PeakCluster>)
    requires forall c :: c in cs ==> c == start || c in pool
    modifies start`inAlignedCluster, pool`inAlignedCluster
    ensures forall c :: c in cs ==> c.inAlignedCluster
    ensures start.inAlignedCluster == (old(start.inAlignedCluster) || start in cs)
    ensures forall c :: c in pool ==> c.inAlignedCluster == (old(c.inAlignedCluster) || c in cs)
  {
    var k := 0;
    while k < |cs|
      invariant 0 <= k <= |cs|
      invariant forall l :: 0 <= l < k ==> cs[l].inAlignedCluster
      invariant start.inAlignedCluster == (old(start.inAlignedCluster) || start in cs[..k])
      invariant forall c :: c in pool ==> c.inAlignedCluster == (old(c.inAlignedCluster) || c in cs[..k])
    {
      cs[k].SetInAlignedCluster();
      assert cs[..k + 1] == cs[..k] + [cs[k]];
      k := k + 1;
    }
    assert cs[..k] == cs;
  }

  /** The clusters of a file whose anchors are in tolerance of the consensus, in file order. */
  function InTolerance<T>(file: seq<T>, fa: seq<Anchor>, mz: real, rt: real, ppm: real, RTWindow: real): seq<T>
    requires |file| == |fa|
  {
    if file == [] then []
    else InTolerance(file[..|file| - 1], fa[..|fa| - 1], mz, rt, ppm, RTWindow)
         + (if CheckPeakInTolerance(fa[|fa| - 1], mz, rt, ppm, RTWindow) then [file[|file| - 1]] else [])
  }

  /** The inner loop of `alignPeaks` over one file: the clusters in tolerance of the
      consensus, in file order; the first of them is the one at `first`. */
  method Candidates(files: seq<seq<PeakCluster>>, ghost fas: seq<seq<Anchor>>, i: nat, mz: real, rt: real,
                    ppm: real, RTWindow: real)
    returns (potential: seq<PeakCluster>, ghost first: int)
    requires AnchorSnapshot(files, fas) && i < |files|
    ensures AnchorSnapshot(files, fas)
    ensures |fas[i]| == |files[i]| && potential == InTolerance(files[i], fas[i], mz, rt, ppm, RTWindow)
    ensures first == FirstInTolerance(fas[i], mz, rt, ppm, RTWindow)
    ensures |potential| > 0 <==> first >= 0
    ensures |potential| > 0 ==> potential[0] == files[i][first]
    ensures |potential| > 0 ==> |potential[0].chromatograms| > 0 && fas[i][first] == AnchorOf(potential[0])
  {
    potential := [];
    first := -1;
    var file := files[i];
    var j := 0;
    while j < |file|
      invariant 0 <= j <= |file|
      invariant |potential| > 0 <==> first >= 0
      invariant potential == InTolerance(file[..j], fas[i][..j], mz, rt, ppm, RTWindow)
      invariant first < 0 ==> forall l :: 0 <= l < j ==> !CheckPeakInTolerance(fas[i][l], mz, rt, ppm, RTWindow)
      invariant first >= 0 ==>
        && first < j && potential[0] == file[first]
        && CheckPeakInTolerance(fas[i][first], mz, rt, ppm, RTWindow)
        && forall l :: 0 <= l < first ==> !CheckPeakInTolerance(fas[i][l], mz, rt, ppm, RTWindow)
    {
      AnchorAt(files, fas, i, j);
      assert file[..j + 1][..j] == file[..j] && fas[i][..j + 1][..j] == fas[i][..j];
      if CheckPeakInTolerance(AnchorOf(file[j]), mz, rt, ppm, RTWindow) {
        if first < 0 {
          first := j;
        }
        potential := potential + [file[j]];
      }
      j := j + 1;
    }
    assert file[..j] == file && fas[i][..j] == fas[i];
    var k := FirstInTolerance(fas[i], mz, rt, ppm, RTWindow);
    if first >= 0 {
      assert !(k < first) && !(first < k);
      AnchorAt(files, fas, i, first);
    }
  }
}
