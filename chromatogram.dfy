/** A chromatogram: the trace of one m/z value across consecutive scans, grown
    downward and upward from a seed peak, cut into isobars, and judged valid or not. */
module Chromatograms {
  import opened Common
  import opened Spectra
  import opened LocalPeaks
  import opened Isobars
  import opened TraceSpec
  import opened ChromatogramRules

  class Chromatogram {
    /** `intensityScanPairs`: the whole trace in scan order. */
    const trace: PeakList
    /** `intensityScanPairsBelow`: the points found walking down, nearest scan first. */
    const below: PeakList
    var pointsOfInflection: seq<int>
    var isobars: seq<Isobar>
    var meanMZ: real
    const tolerance: real
    const threshold: real
    var startingPointIndex: int
    const startingPointRT: real
    const startingPointIntensity: real
    var inCluster: bool

    /** The field set-up at the head of the source constructor, before any walk. */
    constructor (seed: LocalPeak, tol: real, thresh: real)
      ensures fresh(trace) && fresh(below) && trace != below
      ensures trace.items == [] && below.items == [] && pointsOfInflection == [] && isobars == []
      ensures startingPointRT == seed.rt && startingPointIntensity == seed.intensity
      ensures tolerance == tol && threshold == thresh && !inCluster && meanMZ == seed.mz
    {
      startingPointRT := seed.rt;
      startingPointIntensity := seed.intensity;
      trace := new PeakList();
      below := new PeakList();
      pointsOfInflection := [];
      isobars := [];
      tolerance := tol;
      threshold := thresh;
      inCluster := false;
      meanMZ := seed.mz;
      startingPointIndex := 0;
    }

    /** The whole source constructor: set up the fields, trace the peak around the
        seed, choose the boundaries and cut the isobars. `None` stands for the
        constructor throwing (a walk's failed lookup, or an isobar on an empty slice).
        `smoothMinima` is the Savitzky-Golay smoother's report of minimum RTs. */
    static method Build(scans: seq<Scan>, seed: LocalPeak, tol: real, thresh: real, peaks: PeakList,
                        smoothMinima: (seq<real>, seq<real>) -> seq<real>)
      returns (r: Option<Chromatogram>)
      requires AllWellFormed(scans) && 0 <= seed.scanNumber < |scans| && Distinct(peaks.items)
      modifies peaks.items
      ensures peaks.items == old(peaks.items)
      ensures var t := TracePeak(scans, seed.Data(), tol, thresh, Points(peaks.items), old(Flags(peaks.items)));
        var b := Boundaries(Layout(t, seed.Data()), smoothMinima);
        && Flags(peaks.items) == t.flags
        && (r.Some? <==> t.ok && Cuttable(|Layout(t, seed.Data())|, b))
        && (r.Some? ==> var c := r.value;
              && fresh(c) && fresh(c.trace) && Points(c.trace.items) == Layout(t, seed.Data())
              && c.trace.items[|t.below|] == seed && c.startingPointIndex == |t.below|
              && c.meanMZ == t.meanMZ && c.pointsOfInflection == b
              && c.tolerance == tol && c.threshold == thresh && !c.inCluster
              && c.startingPointRT == seed.rt && c.startingPointIntensity == seed.intensity
              && |c.isobars| == |Cut(c.trace.items, b).value|
              && forall k :: 0 <= k < |c.isobars| ==>
                   IsobarOf(c.isobars[k], Cut(c.trace.items, b).value[k], c.meanMZ, tol, thresh, false))
    {
      var c := new Chromatogram(seed, tol, thresh);
      var ok := c.Construct(scans, seed, peaks, smoothMinima);
      if !ok {
        return None;
      }
      return Some(c);
    }

    /** Everything the source constructor does after setting up the fields. */
    method Construct(scans: seq<Scan>, seed: LocalPeak, peaks: PeakList,
                     smoothMinima: (seq<real>, seq<real>) -> seq<real>) returns (ok: bool)
      requires AllWellFormed(scans) && 0 <= seed.scanNumber < |scans|
      requires Distinct(peaks.items) && peaks != trace && peaks != below
      requires trace != below && trace.items == [] && below.items == [] && meanMZ == seed.mz
      requires pointsOfInflection == []
      modifies this`meanMZ, this`startingPointIndex, this`pointsOfInflection, this`isobars, trace, below, peaks.items
      ensures peaks.items == old(peaks.items)
      ensures var t := TracePeak(scans, seed.Data(), tolerance, threshold, Points(peaks.items), old(Flags(peaks.items)));
        var b := Boundaries(Layout(t, seed.Data()), smoothMinima);
        && Flags(peaks.items) == t.flags
        && (ok <==> t.ok && Cuttable(|Layout(t, seed.Data())|, b))
        && (ok ==> && Points(trace.items) == Layout(t, seed.Data())
                   && trace.items[|t.below|] == seed && startingPointIndex == |t.below|
                   && meanMZ == t.meanMZ && pointsOfInflection == b
                   && |isobars| == |Cut(trace.items, b).value|
                   && forall k :: 0 <= k < |isobars| ==>
                        IsobarOf(isobars[k], Cut(trace.items, b).value[k], meanMZ, tolerance, threshold, inCluster))
    {
      ok := Trace(scans, seed, peaks);
      if ok {
        ghost var layout := Points(trace.items);
        ok := Partition(smoothMinima);
        assert |trace.items| == |layout|;
      }
    }

    /** The tail of the source constructor, once the trace is laid out: choose the
        boundaries and cut the isobars. */
    method Partition(smoothMinima: (seq<real>, seq<real>) -> seq<real>) returns (ok: bool)
      requires |trace.items| > 0 && pointsOfInflection == []
      modifies this`pointsOfInflection, this`isobars
      ensures var b := Boundaries(Points(trace.items), smoothMinima);
        && pointsOfInflection == b
        && ok == Cuttable(|trace.items|, b)
        && (ok ==> && |isobars| == |Cut(trace.items, b).value|
                   && forall k :: 0 <= k < |isobars| ==>
                        IsobarOf(isobars[k], Cut(trace.items, b).value[k], meanMZ, tolerance, threshold, inCluster))
    {
      FindBoundaries(smoothMinima);
      ok := SliceIsobars();
    }

    /** `maxIntWithinTol`: a fresh, unflagged peak for the window apex of one scan.
        The source calls it only after checking that the window holds a point. */
    static method MaxIntWithinTol(scan: Scan, mean: real, tol: real, increment: int) returns (r: LocalPeak)
      requires WellFormed(scan) && WindowIndices(scan.mzs, mean, tol).Some?
      ensures fresh(r) && !r.isUsed && r.fragments == []
      ensures var (lo, hi) := WindowIndices(scan.mzs, mean, tol).value;
        r.Data() == MaxPoint(scan, lo, hi, increment)
    {
      var (lo, hi) := WindowIndices(scan.mzs, mean, tol).value;
      var inten := scan.intensities;
      var maxIndex: nat := 0;
      var maxIntensity := 0.0;
      var i := lo;
      while i <= hi
        invariant lo <= i <= hi + 1
        invariant (maxIndex, maxIntensity) == RunningMax(inten, lo, i)
      {
        if inten[i] > maxIntensity {
          maxIntensity := inten[i];
          maxIndex := i;
        }
        i := i + 1;
      }
      r := new LocalPeak(increment, maxIntensity, scan.mzs[maxIndex], scan.rt);
    }

    /** `search`: the element of `numbers` nearest `myNumber`, the first on ties. */
    static method Search(myNumber: real, numbers: seq<real>) returns (r: real)
      requires |numbers| > 0
      ensures r == numbers[NearestIndex(numbers, myNumber, |numbers|)]
      ensures r in numbers && forall j :: 0 <= j < |numbers| ==> Abs(myNumber - r) <= Abs(myNumber - numbers[j])
    {
      var idx := 0;
      var distance := Abs(myNumber - numbers[0]);
      var c := 1;
      while c < |numbers|
        invariant 1 <= c <= |numbers|
        invariant idx == NearestIndex(numbers, myNumber, c)
        invariant distance == Abs(myNumber - numbers[idx])
      {
        var cdistance := Abs(myNumber - numbers[c]);
        if cdistance < distance {
          idx := c;
          distance := cdistance;
        }
        c := c + 1;
      }
      r := numbers[idx];
      NearestIndexIsFirstNearest(numbers, myNumber, |numbers|);
    }

    /** `averageMZ`: the mean m/z of the whole trace, also stored as `meanMZ`. */
    method AverageMZ() returns (average: real)
      requires |trace.items| > 0
      modifies this`meanMZ
      ensures average == Mean(MZs(trace.items)) && meanMZ == average
    {
      var i := 0;
      var total := 0.0;
      while i < |trace.items|
        invariant 0 <= i <= |trace.items|
        invariant total == Sum(MZs(trace.items)[..i])
      {
        assert MZs(trace.items)[..i + 1][..i] == MZs(trace.items)[..i];
        total := total + trace.items[i].mz;
        i := i + 1;
      }
      assert MZs(trace.items)[..i] == MZs(trace.items);
      average := total / (i as real);
      meanMZ := average;
    }

    /** `averageMZBelow`: the mean m/z of the below list only, also stored as `meanMZ`. */
    method AverageMZBelow() returns (average: real)
      requires |below.items| > 0
      modifies this`meanMZ
      ensures average == Mean(MZs(below.items)) && meanMZ == average
    {
      var i := 0;
      var total := 0.0;
      while i < |below.items|
        invariant 0 <= i <= |below.items|
        invariant total == Sum(MZs(below.items)[..i])
      {
        assert MZs(below.items)[..i + 1][..i] == MZs(below.items)[..i];
        total := total + below.items[i].mz;
        i := i + 1;
      }
      assert MZs(below.items)[..i] == MZs(below.items);
      average := total / (i as real);
      meanMZ := average;
    }

    /** `createPeakAbove`: one step of the upward walk. The walk's expected outcome `w` is
        passed along so that the contract can name it; it is fixed by the requires. */
    method CreatePeakAbove(scans: seq<Scan>, average: real, toler: real, increment: nat, peaks: PeakList,
                          ghost sofar: seq<real>, ghost data: seq<Point>, ghost flags: seq<bool>, ghost w: Walked)
      returns (status: WalkEnd)
      requires AllWellFormed(scans) && increment < |scans|
      requires Distinct(peaks.items) && peaks != trace && meanMZ == average
      requires sofar == MZs(trace.items) && data == Points(peaks.items) && flags == Flags(peaks.items)
      requires w == Walk(true, scans, sofar, average, toler, threshold, increment, data, flags)
      modifies this`meanMZ, trace, peaks.items
      decreases |scans| - increment, 1
      ensures peaks.items == old(peaks.items)
      ensures status == w.end && Flags(peaks.items) == w.flags && meanMZ == w.centre
      ensures Extends(trace.items, old(trace.items), w.accepted)
    {
      ghost var before := trace.items;
      var tempPeak, tempInt := TakeApex(scans, average, toler, threshold, increment, peaks, trace);
      if tempPeak == null {
        WalkNone(true, scans, sofar, average, toler, threshold, increment, data, flags);
        return Stopped;
      }
      if tempInt == -1 {
        WalkUnindexed(true, scans, sofar, average, toler, threshold, increment, data, flags, tempPeak.Data());
        return NotIndexed;
      }
      if increment < |scans| - 2 {
        status := ContinueAbove(scans, average, toler, increment, peaks, sofar, data, flags, w, before, tempPeak, tempInt);
      } else {
        WalkLast(true, scans, sofar, average, toler, threshold, increment, data, flags, tempPeak.Data(), tempInt);
        status := ReachedEnd;
      }
    }

    /** The tail of `createPeakAbove` once the apex `tempPeak` was appended and flagged at
        `tempInt`: recompute the mean and walk on from the next scan. */
    method ContinueAbove(scans: seq<Scan>, average: real, toler: real, increment: nat, peaks: PeakList,
                          ghost sofar: seq<real>, ghost data: seq<Point>, ghost flags: seq<bool>, ghost w: Walked,
                          ghost before: seq<LocalPeak>, tempPeak: LocalPeak, tempInt: int)
      returns (status: WalkEnd)
      requires AllWellFormed(scans) && increment < |scans| && increment < |scans| - 2
      requires Distinct(peaks.items) && peaks != trace
      requires sofar == MZs(before) && trace.items == before + [tempPeak]
      requires data == Points(peaks.items) && |flags| == |data|
      requires Candidate(scans[increment], average, toler, threshold, increment) == Some(tempPeak.Data())
      requires tempInt == Lookup(data, flags, tempPeak.Data()) && tempInt >= 0
      requires Flags(peaks.items) == flags[tempInt := true]
      requires w == Walk(true, scans, sofar, average, toler, threshold, increment, data, flags)
      modifies this`meanMZ, trace, peaks.items
      decreases |scans| - increment, 0
      ensures peaks.items == old(peaks.items)
      ensures status == w.end && Flags(peaks.items) == w.flags && meanMZ == w.centre
      ensures Extends(trace.items, before, w.accepted)
    {
      ghost var p := tempPeak.Data();
      ghost var marked := Flags(peaks.items);
      label Flagged:
      var next := AverageMZ();
      FlagsKept@Flagged(peaks.items);
      MZsAppend(before, tempPeak);
      ghost var mid := trace.items;
      WalkNext(true, scans, sofar, average, toler, threshold, increment, data, flags, p, tempInt,
               next, increment + 1, marked);
      ghost var w' := Walk(true, scans, sofar + [p.mz], next, toler, threshold, increment + 1, data, marked);
      status := CreatePeakAbove(scans, next, toler, increment + 1, peaks, sofar + [p.mz], data, marked, w');
      ExtendsStep(before, tempPeak, mid, trace.items, w'.accepted);
    }

    /** `createPeakBelow`: one step of the downward walk. The walk's expected outcome `w` is
        passed along so that the contract can name it; it is fixed by the requires. */
    method CreatePeakBelow(scans: seq<Scan>, average: real, toler: real, increment: nat, peaks: PeakList,
                          ghost sofar: seq<real>, ghost data: seq<Point>, ghost flags: seq<bool>, ghost w: Walked)
      returns (status: WalkEnd)
      requires AllWellFormed(scans) && increment < |scans|
      requires Distinct(peaks.items) && peaks != below && meanMZ == average
      requires sofar == MZs(below.items) && data == Points(peaks.items) && flags == Flags(peaks.items)
      requires w == Walk(false, scans, sofar, average, toler, threshold, increment, data, flags)
      modifies this`meanMZ, below, peaks.items
      decreases increment, 1
      ensures peaks.items == old(peaks.items)
      ensures status == w.end && Flags(peaks.items) == w.flags && meanMZ == w.centre
      ensures Extends(below.items, old(below.items), w.accepted)
    {
      ghost var before := below.items;
      var tempPeak, tempInt := TakeApex(scans, average, toler, threshold, increment, peaks, below);
      if tempPeak == null {
        WalkNone(false, scans, sofar, average, toler, threshold, increment, data, flags);
        return Stopped;
      }
      if tempInt == -1 {
        WalkUnindexed(false, scans, sofar, average, toler, threshold, increment, data, flags, tempPeak.Data());
        return NotIndexed;
      }
      if increment > 1 {
        status := ContinueBelow(scans, average, toler, increment, peaks, sofar, data, flags, w, before, tempPeak, tempInt);
      } else {
        WalkLast(false, scans, sofar, average, toler, threshold, increment, data, flags, tempPeak.Data(), tempInt);
        status := ReachedEnd;
      }
    }

    /** The tail of `createPeakBelow` once the apex `tempPeak` was appended and flagged at
        `tempInt`: recompute the mean and walk on from the next scan. */
    method ContinueBelow(scans: seq<Scan>, average: real, toler: real, increment: nat, peaks: PeakList,
                          ghost sofar: seq<real>, ghost data: seq<Point>, ghost flags: seq<bool>, ghost w: Walked,
                          ghost before: seq<LocalPeak>, tempPeak: LocalPeak, tempInt: int)
      returns (status: WalkEnd)
      requires AllWellFormed(scans) && increment < |scans| && increment > 1
      requires Distinct(peaks.items) && peaks != below
      requires sofar == MZs(before) && below.items == before + [tempPeak]
      requires data == Points(peaks.items) && |flags| == |data|
      requires Candidate(scans[increment], average, toler, threshold, increment) == Some(tempPeak.Data())
      requires tempInt == Lookup(data, flags, tempPeak.Data()) && tempInt >= 0
      requires Flags(peaks.items) == flags[tempInt := true]
      requires w == Walk(false, scans, sofar, average, toler, threshold, increment, data, flags)
      modifies this`meanMZ, below, peaks.items
      decreases increment, 0
      ensures peaks.items == old(peaks.items)
      ensures status == w.end && Flags(peaks.items) == w.flags && meanMZ == w.centre
      ensures Extends(below.items, before, w.accepted)
    {
      ghost var p := tempPeak.Data();
      ghost var marked := Flags(peaks.items);
      label Flagged:
      var next := AverageMZBelow();
      FlagsKept@Flagged(peaks.items);
      MZsAppend(before, tempPeak);
      ghost var mid := below.items;
      WalkNext(false, scans, sofar, average, toler, threshold, increment, data, flags, p, tempInt,
               next, increment - 1, marked);
      ghost var w' := Walk(false, scans, sofar + [p.mz], next, toler, threshold, increment - 1, data, marked);
      status := CreatePeakBelow(scans, next, toler, increment - 1, peaks, sofar + [p.mz], data, marked, w');
      ExtendsStep(before, tempPeak, mid, below.items, w'.accepted);
    }

    /** The walks of the source constructor: walk down from the scan below the seed,
        copy the points found into the trace nearest-last, add the seed, walk up from
        the scan above it and note where the seed sits. Returns false where a walk
        fails on `get(-1)` (the constructor throws there). */
    method Trace(scans: seq<Scan>, seed: LocalPeak, peaks: PeakList) returns (ok: bool)
      requires AllWellFormed(scans) && 0 <= seed.scanNumber < |scans|
      requires Distinct(peaks.items) && peaks != trace && peaks != below
      requires trace != below && trace.items == [] && below.items == [] && meanMZ == seed.mz
      modifies this`meanMZ, this`startingPointIndex, trace, below, peaks.items
      ensures peaks.items == old(peaks.items)
      ensures var t := TracePeak(scans, seed.Data(), tolerance, threshold, Points(peaks.items), old(Flags(peaks.items)));
        && ok == t.ok && Flags(peaks.items) == t.flags
        && (ok ==> && Points(trace.items) == Layout(t, seed.Data())
                   && trace.items[|t.below|] == seed
                   && startingPointIndex == |t.below| && meanMZ == t.meanMZ)
    {
      ghost var data := Points(peaks.items);
      ghost var flags := Flags(peaks.items);
      ghost var wb := if seed.scanNumber > 0
                      then Walk(false, scans, [], seed.mz, tolerance, threshold, seed.scanNumber - 1, data, flags)
                      else Walked([], flags, Stopped, seed.mz);
      var status := WalkDown(scans, seed, peaks, data, flags, wb);
      if status == NotIndexed {
        TraceFailsBelow(scans, seed.Data(), tolerance, threshold, data, flags, wb);
        return false;
      }
      ok := TraceAbove(scans, seed, peaks, data, flags, wb);
    }

    /** The rest of `Trace` once the downward walk has not failed: lay out the trace,
        walk up and note where the seed sits. */
    method TraceAbove(scans: seq<Scan>, seed: LocalPeak, peaks: PeakList,
                      ghost data: seq<Point>, ghost flags: seq<bool>, ghost wb: Walked)
      returns (ok: bool)
      requires AllWellFormed(scans) && 0 <= seed.scanNumber < |scans|
      requires Distinct(peaks.items) && peaks != trace && peaks != below && trace != below && trace.items == []
      requires data == Points(peaks.items) && |flags| == |data|
      requires wb == if seed.scanNumber > 0
                     then Walk(false, scans, [], seed.mz, tolerance, threshold, seed.scanNumber - 1, data, flags)
                     else Walked([], flags, Stopped, seed.mz)
      requires wb.end != NotIndexed && Flags(peaks.items) == wb.flags && meanMZ == wb.centre
      requires Points(below.items) == wb.accepted
      modifies this`meanMZ, this`startingPointIndex, trace, peaks.items
      ensures peaks.items == old(peaks.items)
      ensures var t := TracePeak(scans, seed.Data(), tolerance, threshold, data, flags);
        && ok == t.ok && Flags(peaks.items) == t.flags
        && (ok ==> && Points(trace.items) == Layout(t, seed.Data())
                   && trace.items[|t.below|] == seed
                   && startingPointIndex == |t.below| && meanMZ == t.meanMZ)
    {
      LayOut(seed);
      ghost var mid := trace.items;
      ghost var start := MZs(mid);
      ghost var wa := if seed.scanNumber + 1 < |scans|
                      then Walk(true, scans, start, Mean(start), tolerance, threshold, seed.scanNumber + 1, data, wb.flags)
                      else Walked([], wb.flags, Stopped, wb.centre);
      var up := WalkUp(scans, seed, peaks, start, data, wb.flags, wa);
      TraceJoins(scans, seed.Data(), tolerance, threshold, data, flags, wb, start, wa);
      if up == NotIndexed {
        return false;
      }
      ExtendsPoints(trace.items, mid, wa.accepted);
      startingPointIndex := |below.items|;
      ok := true;
    }

    /** The layout step of the source constructor: the points found below the seed,
        nearest last, followed by the seed. */
    method LayOut(seed: LocalPeak)
      requires trace != below && trace.items == []
      modifies trace
      ensures trace.items == Reverse(below.items) + [seed]
      ensures Points(trace.items) == Reverse(Points(below.items)) + [seed.Data()]
      ensures MZs(trace.items) == PointMZs(Reverse(Points(below.items)) + [seed.Data()])
    {
      CopyReversed();
      trace.items := trace.items + [seed];
      PointsOfLayout(below.items, seed);
    }

    /** The downward half of `Trace`: the walk below the seed, when there is a scan below it. */
    method WalkDown(scans: seq<Scan>, seed: LocalPeak, peaks: PeakList,
                    ghost data: seq<Point>, ghost flags: seq<bool>, ghost wb: Walked)
      returns (status: WalkEnd)
      requires AllWellFormed(scans) && 0 <= seed.scanNumber < |scans|
      requires Distinct(peaks.items) && peaks != below && below.items == [] && meanMZ == seed.mz
      requires data == Points(peaks.items) && flags == Flags(peaks.items)
      requires wb == if seed.scanNumber > 0
                     then Walk(false, scans, [], seed.mz, tolerance, threshold, seed.scanNumber - 1, data, flags)
                     else Walked([], flags, Stopped, seed.mz)
      modifies this`meanMZ, below, peaks.items
      ensures peaks.items == old(peaks.items)
      ensures status == wb.end && Flags(peaks.items) == wb.flags && meanMZ == wb.centre
      ensures Points(below.items) == wb.accepted
    {
      if seed.scanNumber > 0 {
        status := CreatePeakBelow(scans, meanMZ, tolerance, seed.scanNumber - 1, peaks, [], data, flags, wb);
        assert below.items == below.items[0..];
      } else {
        status := Stopped;
      }
    }

    /** The upward half of `Trace`: the walk above the seed, centred on the mean m/z of
        the trace so far, when there is a scan above it. */
    method WalkUp(scans: seq<Scan>, seed: LocalPeak, peaks: PeakList,
                  ghost start: seq<real>, ghost data: seq<Point>, ghost flags: seq<bool>, ghost wa: Walked)
      returns (status: WalkEnd)
      requires AllWellFormed(scans) && 0 <= seed.scanNumber < |scans|
      requires Distinct(peaks.items) && peaks != trace && |trace.items| > 0
      requires start == MZs(trace.items) && data == Points(peaks.items) && flags == Flags(peaks.items)
      requires wa == if seed.scanNumber + 1 < |scans|
                     then Walk(true, scans, start, Mean(start), tolerance, threshold, seed.scanNumber + 1, data, flags)
                     else Walked([], flags, Stopped, meanMZ)
      modifies this`meanMZ, trace, peaks.items
      ensures peaks.items == old(peaks.items)
      ensures status == wa.end && Flags(peaks.items) == wa.flags && meanMZ == wa.centre
      ensures Extends(trace.items, old(trace.items), wa.accepted)
    {
      if seed.scanNumber + 1 < |scans| {
        ghost var marked := Flags(peaks.items);
        label Before:
        var average := AverageMZ();
        FlagsKept@Before(peaks.items);
        status := CreatePeakAbove(scans, average, tolerance, seed.scanNumber + 1, peaks, start, data, flags, wa);
      } else {
        status := Stopped;
        assert trace.items[|trace.items|..] == [];
      }
    }

    /** The copy loop of the constructor: the below list, last entry first, onto the trace. */
    method CopyReversed()
      requires trace != below
      modifies trace
      ensures trace.items == old(trace.items) + Reverse(below.items)
    {
      var i := |below.items|;
      while i > 0
        invariant 0 <= i <= |below.items|
        invariant trace.items == old(trace.items) + Reverse(below.items[i..])
      {
        trace.items := trace.items + [below.items[i - 1]];
        i := i - 1;
      }
    }

    /** The body shared by both walks up to the recursion: find the window apex of the
        scan, give up (`null`) when the window is empty or the apex is not above the
        threshold, otherwise append the apex to `list` and flag it in the global list. */
    static method TakeApex(scans: seq<Scan>, average: real, toler: real, thresh: real, increment: nat,
                           peaks: PeakList, list: PeakList)
      returns (tempPeak: LocalPeak?, tempInt: int)
      requires AllWellFormed(scans) && increment < |scans|
      requires Distinct(peaks.items) && peaks != list
      modifies list, peaks.items
      ensures peaks.items == old(peaks.items)
      ensures var c := Candidate(scans[increment], average, toler, thresh, increment);
        && (tempPeak == null <==> c.None?)
        && (tempPeak == null ==> list.items == old(list.items) && Flags(peaks.items) == old(Flags(peaks.items)))
        && (tempPeak != null ==>
              && tempPeak.Data() == c.value
              && list.items == old(list.items) + [tempPeak]
              && tempInt == Lookup(Points(peaks.items), old(Flags(peaks.items)), c.value)
              && Flags(peaks.items) == if tempInt < 0 then old(Flags(peaks.items))
                                       else old(Flags(peaks.items))[tempInt := true])
    {
      var scan := scans[increment];
      if WindowIndices(scan.mzs, average, toler).None? {
        return null, -1;
      }
      var apex := MaxIntWithinTol(scan, average, toler, increment);
      if apex.intensity <= thresh {
        return null, -1;
      }
      tempInt := FlagInGlobalList(apex, peaks);
      list.items := list.items + [apex];
      tempPeak := apex;
    }

    /** The flagging shared by both walks: look the fresh peak up in the global list,
        flag it (looking it up again flagged if the first lookup failed), and flag the
        entry found. Returns -1, where the source's `get(-1)` fails, when there is none. */
    static method FlagInGlobalList(tempPeak: LocalPeak, peaks: PeakList) returns (tempInt: int)
      requires Distinct(peaks.items) && !tempPeak.isUsed && tempPeak !in peaks.items
      modifies tempPeak`isUsed, peaks.items
      ensures tempPeak.isUsed
      ensures var k := Lookup(Points(peaks.items), old(Flags(peaks.items)), tempPeak.Data());
        && tempInt == k
        && Flags(peaks.items) == if k < 0 then old(Flags(peaks.items)) else old(Flags(peaks.items))[k := true]
    {
      tempInt := LookUpFresh(tempPeak, peaks);
      MarkEntry(peaks, tempInt);
    }

    /** The two `indexOf` calls of the flagging, and the flagging of the fresh peak. */
    static method LookUpFresh(tempPeak: LocalPeak, peaks: PeakList) returns (tempInt: int)
      requires !tempPeak.isUsed && tempPeak !in peaks.items
      modifies tempPeak`isUsed
      ensures tempPeak.isUsed
      ensures tempInt == Lookup(Points(peaks.items), Flags(peaks.items), tempPeak.Data())
    {
      IndexOfIsFirstMatch(peaks.items, tempPeak);
      tempInt := IndexOf(peaks.items, tempPeak);
      if tempInt == -1 {
        tempPeak.SetIsUsed();
        IndexOfIsFirstMatch(peaks.items, tempPeak);
        tempInt := IndexOf(peaks.items, tempPeak);
      }
      tempPeak.SetIsUsed();
    }

    /** Flags the entry found, if any; in a list without repeated objects no other
        entry changes. */
    static method MarkEntry(peaks: PeakList, k: int)
      requires Distinct(peaks.items) && -1 <= k < |peaks.items|
      modifies peaks.items`isUsed
      ensures Flags(peaks.items) == if k < 0 then old(Flags(peaks.items)) else old(Flags(peaks.items))[k := true]
    {
      if k != -1 {
        peaks.items[k].SetIsUsed();
        forall i | 0 <= i < |peaks.items|
          ensures Flags(peaks.items)[i] == old(Flags(peaks.items))[k := true][i]
        {
          if i != k {
            assert peaks.items[i] != peaks.items[k];
          }
        }
      }
    }

    /** `findLocalMinima`: replaces the boundaries by the naive local minima of the
        trace intensities. */
    method FindLocalMinima()
      modifies this`pointsOfInflection
      ensures pointsOfInflection == LocalMinima(Intensities(trace.items), |trace.items|)
    {
      pointsOfInflection := [];
      var a := Intensities(trace.items);
      var i := 1;
      while i < |a| - 1
        invariant |a| >= 2 ==> 1 <= i <= |a| - 1
        invariant |a| < 2 ==> i == 1
        invariant pointsOfInflection == LocalMinima(a, if |a| < 2 then |a| else i)
      {
        if a[i - 1] > a[i] && a[i] < a[i + 1] {
          pointsOfInflection := pointsOfInflection + [i];
        }
        i := i + 1;
      }
    }

    /** The index bookkeeping of `smoothToFindMinima`: for each minimum RT reported by
        the smoother, append the index of the nearest trace RT (looked up by value). */
    method SmoothToFindMinima(minima: seq<real>)
      requires |trace.items| > 0
      modifies this`pointsOfInflection
      ensures pointsOfInflection == old(pointsOfInflection) + NearestIndices(RTs(trace.items), minima)
    {
      var rts := RTs(trace.items);
      var i := 0;
      while i < |minima|
        invariant 0 <= i <= |minima|
        invariant pointsOfInflection == old(pointsOfInflection) + NearestIndices(rts, minima[..i])
      {
        var nearest := Search(minima[i], rts);
        NearestValueIndexOf(rts, minima[i]);
        pointsOfInflection := pointsOfInflection + [IndexOfValue(rts, nearest)];
        i := i + 1;
      }
      assert minima[..i] == minima;
    }

    /** The constructor's choice of boundaries: smoothed minima for a trace of more
        than four points, naive minima otherwise, bracketed by 0 and the trace length. */
    method FindBoundaries(smoothMinima: (seq<real>, seq<real>) -> seq<real>)
      requires |trace.items| > 0 && pointsOfInflection == []
      modifies this`pointsOfInflection
      ensures pointsOfInflection == Boundaries(Points(trace.items), smoothMinima)
    {
      PointsProjections(trace.items);
      if |trace.items| > 4 {
        SmoothToFindMinima(smoothMinima(RTs(trace.items), Intensities(trace.items)));
      } else {
        FindLocalMinima();
      }
      pointsOfInflection := [0] + pointsOfInflection + [|trace.items|];
    }

    /** The isobar loop at the end of the constructor: one isobar per slice between
        neighbouring boundaries of a smoothed trace, or a single isobar sharing the
        whole trace. Returns false where an isobar would be built on an empty slice. */
    method SliceIsobars() returns (ok: bool)
      requires |trace.items| > 0 && |pointsOfInflection| >= 2
      requires forall i :: 0 <= i < |pointsOfInflection| ==> 0 <= pointsOfInflection[i] <= |trace.items|
      modifies this`isobars
      ensures var cut := Cut(trace.items, pointsOfInflection);
        && ok == cut.Some?
        && (ok ==> && |isobars| == |cut.value|
                   && forall k :: 0 <= k < |isobars| ==>
                        IsobarOf(isobars[k], cut.value[k], meanMZ, tolerance, threshold, inCluster))
      ensures ok && !(|trace.items| > 4 && |pointsOfInflection| > 2) ==> isobars[0].pairs == trace
    {
      if |trace.items| > 4 && |pointsOfInflection| > 2 {
        ok := CutIsobars();
      } else {
        var isobar := new Isobar(trace, meanMZ, tolerance, threshold, inCluster);
        isobars := [isobar];
        ok := true;
      }
    }

    /** The cutting branch of the isobar loop, for a smoothed trace with an inner boundary. */
    method CutIsobars() returns (ok: bool)
      requires |pointsOfInflection| >= 1
      requires forall i :: 0 <= i < |pointsOfInflection| ==> 0 <= pointsOfInflection[i] <= |trace.items|
      modifies this`isobars
      ensures var b := pointsOfInflection;
        && ok == Ascending(b)
        && (ok ==> && |isobars| == |b| - 1
                   && forall k :: 0 <= k < |isobars| ==>
                        IsobarOf(isobars[k], Slices(trace.items, b)[k], meanMZ, tolerance, threshold, inCluster))
    {
      var b := pointsOfInflection;
      isobars := [];
      var i := 0;
      while i < |b| - 1
        invariant 0 <= i <= |b| - 1 && |isobars| == i
        invariant forall k :: 0 <= k < i ==> b[k] < b[k + 1]
        invariant forall k :: 0 <= k < i ==>
          IsobarOf(isobars[k], Slices(trace.items, b)[k], meanMZ, tolerance, threshold, inCluster)
      {
        var isobar := SliceIsobar(trace.items, b[i], b[i + 1], meanMZ, tolerance, threshold, inCluster);
        if isobar == null {
          return false;
        }
        isobars := isobars + [isobar];
        i := i + 1;
      }
      ok := true;
    }

    /** One pass of the isobar loop: copy the entries from `lo` up to (not including)
        `hi` into a new list and build an isobar on it; `null` where the list is empty. */
    static method SliceIsobar(s: seq<LocalPeak>, lo: int, hi: int, mz: real, tol: real, thresh: real, cluster: bool)
      returns (r: Isobar?)
      requires 0 <= lo <= |s| && 0 <= hi <= |s|
      ensures r == null <==> hi <= lo
      ensures r != null ==> fresh(r) && IsobarOf(r, s[lo..hi], mz, tol, thresh, cluster)
    {
      var pairs := new PeakList();
      var j := lo;
      while j < hi
        invariant j == lo || lo <= j <= hi
        invariant pairs.items == s[lo..j]
      {
        pairs.items := pairs.items + [s[j]];
        j := j + 1;
      }
      if |pairs.items| == 0 {
        return null;
      }
      r := new Isobar(pairs, mz, tol, thresh, cluster);
    }

    /** `setInCluster`. */
    method SetInCluster()
      modifies this`inCluster
      ensures inCluster
    {
      inCluster := true;
    }

    /** `isValidStartingPoint`: sorts the trace in place when it has more than five
        points and judges it on the sorted order. */
    method IsValidStartingPoint() returns (valid: bool)
      modifies trace
      ensures trace.items == CheckedTrace(old(trace.items))
      ensures valid == ValidTrace(old(trace.items), threshold)
    {
      if |trace.items| > 5 {
        trace.items := SortByIntensity(trace.items);
        var maxIntensity := trace.items[0].intensity;
        var minIntensity := trace.items[|trace.items| - 1].intensity;
        if RatioExceeds(maxIntensity, minIntensity, 5.0) {
          if maxIntensity > 5.0 * threshold {
            if trace.items[|trace.items| - 1].rt - trace.items[0].rt < 0.5 {
              return true;
            }
          }
        }
      }
      return false;
    }
  }

  /** `after` is `before` with peaks holding the points `added` appended. */
  predicate Extends(after: seq<LocalPeak>, before: seq<LocalPeak>, added: seq<Point>)
  {
    && |after| == |before| + |added|
    && after[..|before|] == before
    && Points(after[|before|..]) == added
  }

  /** An isobar holding `items`, built with the given parameters, whose apex fields
      agree with its list. */
  predicate IsobarOf(b: Isobar, items: seq<LocalPeak>, mz: real, tol: real, thresh: real, cluster: bool)
    reads b, b.pairs
  {
    && b.pairs.items == items && ApexRead(b)
    && b.meanMZ == mz && b.tolerance == tol && b.threshold == thresh && b.inCluster == cluster
  }

  /** The projections of a list of peaks agree with those of their data. */
  lemma PointsProjections(s: seq<LocalPeak>)
    ensures PointRTs(Points(s)) == RTs(s) && PointIntensities(Points(s)) == Intensities(s)
  {
  }

  /** Flags read in a later state agree with the flags read earlier when no peak's
      flag changed in between. */
  twostate lemma FlagsKept(s: seq<LocalPeak>)
    requires forall i :: 0 <= i < |s| ==> old(s[i].isUsed) == s[i].isUsed
    ensures Flags(s) == old(Flags(s))
  {
  }

  /** The trace laid out from the below list and the seed, in the terms the walks use. */
  lemma PointsOfLayout(below: seq<LocalPeak>, seed: LocalPeak)
    ensures Points(Reverse(below) + [seed]) == Reverse(Points(below)) + [seed.Data()]
    ensures MZs(Reverse(below) + [seed]) == PointMZs(Reverse(Points(below)) + [seed.Data()])
  {
  }

  /** What `Extends` says about the whole list. */
  lemma ExtendsPoints(after: seq<LocalPeak>, before: seq<LocalPeak>, added: seq<Point>)
    requires Extends(after, before, added)
    ensures Points(after) == Points(before) + added
    ensures forall i :: 0 <= i < |before| ==> after[i] == before[i]
  {
    assert after == after[..|before|] + after[|before|..];
  }

  lemma MZsAppend(s: seq<LocalPeak>, x: LocalPeak)
    ensures MZs(s + [x]) == MZs(s) + [x.mz]
  {
  }

  /** A list that grew by one peak and then by `rest` grew by both. */
  lemma ExtendsStep(before: seq<LocalPeak>, x: LocalPeak, mid: seq<LocalPeak>, after: seq<LocalPeak>, rest: seq<Point>)
    requires mid == before + [x] && Extends(after, mid, rest)
    ensures Extends(after, before, [x.Data()] + rest)
  {
    assert after[..|before|] == (before + [x])[..|before|];
    assert after[|before|..] == [x] + after[|before| + 1..];
  }
}
