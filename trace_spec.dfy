/** The chromatogram tracer stated on values: which point a scan contributes, how
    the upward and downward walks proceed from scan to scan, how they flag entries
    of the global peak list, and how the trace is laid out around its seed. The
    `Chromatogram` class is proved against these functions. */
module TraceSpec {
  import opened Common
  import opened Spectra
  import opened LocalPeaks

  /** `maxIntWithinTol`: the strictly-first greatest intensity over `[lo, hi]`,
      starting from index 0 and intensity 0, with the scan number and RT passed through. */
  function MaxPoint(scan: Scan, lo: nat, hi: nat, increment: int): Point
    requires WellFormed(scan) && lo <= hi < |scan.intensities|
  {
    var (k, m) := RunningMax(scan.intensities, lo, hi + 1);
    Point(increment, m, scan.mzs[k], scan.rt)
  }

  lemma MaxPointIsApex(scan: Scan, lo: nat, hi: nat, increment: int)
    requires WellFormed(scan) && lo <= hi < |scan.intensities|
    ensures var p := MaxPoint(scan, lo, hi, increment);
      && p.scan == increment && p.rt == scan.rt && p.intensity >= 0.0
      && (forall j :: lo <= j <= hi ==> scan.intensities[j] <= p.intensity)
      && (p.intensity == 0.0 ==> p.mz == scan.mzs[0])
      && (p.intensity > 0.0 ==>
            exists k :: && lo <= k <= hi && scan.intensities[k] == p.intensity && scan.mzs[k] == p.mz
                        && forall j :: lo <= j < k ==> scan.intensities[j] < p.intensity)
  {
    RunningMaxIsFirstMax(scan.intensities, lo, hi + 1);
  }

  /** The point a scan contributes to a walk centred on `centre`: the apex of the
      ppm window, provided the window holds any point and the apex exceeds `thresh`. */
  function Candidate(scan: Scan, centre: real, tol: real, thresh: real, increment: int): Option<Point>
    requires WellFormed(scan)
  {
    match WindowIndices(scan.mzs, centre, tol)
    case None => None
    case Some((lo, hi)) =>
      var p := MaxPoint(scan, lo, hi, increment);
      if p.intensity > thresh then Some(p) else None
  }

  /** The entry of the global list that an accepted point flags: the first unflagged
      equal entry, else (after the point itself was flagged) the first flagged one. */
  function Lookup(data: seq<Point>, flags: seq<bool>, p: Point): (k: int)
    requires |flags| == |data|
    ensures -1 <= k < |data|
    ensures k >= 0 ==> data[k] == p
    ensures k == -1 <==> forall j :: 0 <= j < |data| ==> data[j] != p
  {
    var k := FirstMatch(data, flags, p, false);
    if k >= 0 then k else FirstMatch(data, flags, p, true)
  }

  function PointMZs(s: seq<Point>): (r: seq<real>)
    ensures |r| == |s| && forall i :: 0 <= i < |s| ==> r[i] == s[i].mz
  {
    seq(|s|, i requires 0 <= i < |s| => s[i].mz)
  }

  /** How a walk ended: the return value 1, the return value 2, or the failing
      `get(-1)` when an accepted point has no equal entry in the global list. */
  datatype WalkEnd = Stopped | ReachedEnd | NotIndexed

  /** The points a walk accepted (in visiting order), the flags of the global list
      afterwards, how it ended, and the last window centre it used. */
  datatype Walked = Walked(accepted: seq<Point>, flags: seq<bool>, end: WalkEnd, centre: real)

  /** The scan index a walk visits after `i` steps. */
  function Step(up: bool, start: int, i: int): int
  {
    if up then start + i else start - i
  }

  /** `createPeakAbove` (`up`) and `createPeakBelow`. `sofar` holds the m/z values
      the running mean is taken over: the whole trace going up, the below list only
      going down. The walk goes on to the next scan only while it is below
      `|scans| - 2` going up or above 1 going down. */
  function Walk(up: bool, scans: seq<Scan>, sofar: seq<real>, average: real, tol: real, thresh: real,
                increment: nat, data: seq<Point>, flags: seq<bool>): (w: Walked)
    requires AllWellFormed(scans) && increment < |scans| && |flags| == |data|
    decreases if up then |scans| - increment else increment
    ensures |w.flags| == |flags|
  {
    match Candidate(scans[increment], average, tol, thresh, increment)
    case None => Walked([], flags, Stopped, average)
    case Some(p) =>
      var k := Lookup(data, flags, p);
      if k < 0 then Walked([p], flags, NotIndexed, average)
      else
        var marked := flags[k := true];
        if (up && increment < |scans| - 2) || (!up && increment > 1) then
          var next := sofar + [p.mz];
          var w := Walk(up, scans, next, Mean(next), tol, thresh,
                        if up then increment + 1 else increment - 1, data, marked);
          Walked([p] + w.accepted, w.flags, w.end, w.centre)
        else Walked([p], marked, ReachedEnd, average)
  }

  /** A walk whose first scan contributes nothing stops at once. */
  lemma WalkNone(up: bool, scans: seq<Scan>, sofar: seq<real>, average: real, tol: real, thresh: real,
                 increment: nat, data: seq<Point>, flags: seq<bool>)
    requires AllWellFormed(scans) && increment < |scans| && |flags| == |data|
    requires Candidate(scans[increment], average, tol, thresh, increment).None?
    ensures Walk(up, scans, sofar, average, tol, thresh, increment, data, flags) == Walked([], flags, Stopped, average)
  {
  }

  /** A walk whose first point has no equal entry fails on it. */
  lemma WalkUnindexed(up: bool, scans: seq<Scan>, sofar: seq<real>, average: real, tol: real, thresh: real,
                      increment: nat, data: seq<Point>, flags: seq<bool>, p: Point)
    requires AllWellFormed(scans) && increment < |scans| && |flags| == |data|
    requires Candidate(scans[increment], average, tol, thresh, increment) == Some(p)
    requires Lookup(data, flags, p) < 0
    ensures Walk(up, scans, sofar, average, tol, thresh, increment, data, flags) == Walked([p], flags, NotIndexed, average)
  {
  }

  /** A walk whose first point is flagged at `k` on the last scan it may visit ends there. */
  lemma WalkLast(up: bool, scans: seq<Scan>, sofar: seq<real>, average: real, tol: real, thresh: real,
                 increment: nat, data: seq<Point>, flags: seq<bool>, p: Point, k: int)
    requires AllWellFormed(scans) && increment < |scans| && |flags| == |data|
    requires Candidate(scans[increment], average, tol, thresh, increment) == Some(p)
    requires k == Lookup(data, flags, p) && k >= 0
    requires !((up && increment < |scans| - 2) || (!up && increment > 1))
    ensures Walk(up, scans, sofar, average, tol, thresh, increment, data, flags)
         == Walked([p], flags[k := true], ReachedEnd, average)
  {
  }

  /** A walk whose first point is flagged at `k` goes on from the next scan with the
      point's m/z added to the mean. */
  lemma WalkNext(up: bool, scans: seq<Scan>, sofar: seq<real>, average: real, tol: real, thresh: real,
                 increment: nat, data: seq<Point>, flags: seq<bool>, p: Point, k: int,
                 next: real, inc': nat, marked: seq<bool>)
    requires AllWellFormed(scans) && increment < |scans| && |flags| == |data|
    requires Candidate(scans[increment], average, tol, thresh, increment) == Some(p)
    requires k == Lookup(data, flags, p) && k >= 0 && marked == flags[k := true]
    requires (up && increment < |scans| - 2) || (!up && increment > 1)
    requires next == Mean(sofar + [p.mz]) && inc' == if up then increment + 1 else increment - 1
    ensures inc' < |scans| && |marked| == |data|
    ensures var w' := Walk(up, scans, sofar + [p.mz], next, tol, thresh, inc', data, marked);
      Walk(up, scans, sofar, average, tol, thresh, increment, data, flags)
        == Walked([p] + w'.accepted, w'.flags, w'.end, w'.centre)
  {
  }

  /** A walk only ever sets flags, and only on entries equal to a point it accepted. */
  lemma {:induction false} WalkFlags(up: bool, scans: seq<Scan>, sofar: seq<real>, average: real, tol: real,
                                     thresh: real, increment: nat, data: seq<Point>, flags: seq<bool>)
    requires AllWellFormed(scans) && increment < |scans| && |flags| == |data|
    decreases if up then |scans| - increment else increment
    ensures var w := Walk(up, scans, sofar, average, tol, thresh, increment, data, flags);
      && (forall j :: 0 <= j < |flags| && flags[j] ==> w.flags[j])
      && (forall j :: 0 <= j < |flags| && w.flags[j] != flags[j] ==> data[j] in w.accepted)
  {
    match Candidate(scans[increment], average, tol, thresh, increment)
    case None =>
    case Some(p) =>
      var k := Lookup(data, flags, p);
      if k >= 0 && ((up && increment < |scans| - 2) || (!up && increment > 1)) {
        var next := sofar + [p.mz];
        WalkFlags(up, scans, next, Mean(next), tol, thresh,
                  if up then increment + 1 else increment - 1, data, flags[k := true]);
      }
  }

  /** Accepted points come from consecutive scans, one per scan, each the window
      apex of its scan and above the threshold; after the first, none lies on the
      outermost scans. */
  lemma {:induction false} WalkAccepted(up: bool, scans: seq<Scan>, sofar: seq<real>, average: real, tol: real,
                                        thresh: real, increment: nat, data: seq<Point>, flags: seq<bool>)
    requires AllWellFormed(scans) && increment < |scans| && |flags| == |data|
    decreases if up then |scans| - increment else increment
    ensures var w := Walk(up, scans, sofar, average, tol, thresh, increment, data, flags);
      forall i :: 0 <= i < |w.accepted| ==>
        && 0 <= Step(up, increment, i) < |scans|
        && w.accepted[i].scan == Step(up, increment, i)
        && w.accepted[i].rt == scans[Step(up, increment, i)].rt
        && w.accepted[i].intensity > thresh
        && (i > 0 ==> 1 <= w.accepted[i].scan <= |scans| - 2)
  {
    match Candidate(scans[increment], average, tol, thresh, increment)
    case None => WalkNone(up, scans, sofar, average, tol, thresh, increment, data, flags);
    case Some(p) =>
      var k := Lookup(data, flags, p);
      if k < 0 {
        WalkUnindexed(up, scans, sofar, average, tol, thresh, increment, data, flags, p);
      } else if !((up && increment < |scans| - 2) || (!up && increment > 1)) {
        WalkLast(up, scans, sofar, average, tol, thresh, increment, data, flags, p, k);
      } else {
        var next := sofar + [p.mz];
        var inc' := if up then increment + 1 else increment - 1;
        WalkNext(up, scans, sofar, average, tol, thresh, increment, data, flags, p, k, Mean(next), inc', flags[k := true]);
        WalkAccepted(up, scans, next, Mean(next), tol, thresh, inc', data, flags[k := true]);
        var w := Walk(up, scans, sofar, average, tol, thresh, increment, data, flags);
        var w' := Walk(up, scans, next, Mean(next), tol, thresh, inc', data, flags[k := true]);
        assert w.accepted == [p] + w'.accepted;
        forall i | 1 <= i < |w.accepted|
          ensures w.accepted[i] == w'.accepted[i - 1]
          ensures Step(up, increment, i) == Step(up, inc', i - 1)
        {
        }
      }
  }

  /** Unless the walk failed, every accepted point has an equal entry in the global
      list that is flagged afterwards. */
  lemma {:induction false} WalkFlagsAccepted(up: bool, scans: seq<Scan>, sofar: seq<real>, average: real, tol: real,
                                             thresh: real, increment: nat, data: seq<Point>, flags: seq<bool>)
    requires AllWellFormed(scans) && increment < |scans| && |flags| == |data|
    decreases if up then |scans| - increment else increment
    ensures var w := Walk(up, scans, sofar, average, tol, thresh, increment, data, flags);
      w.end != NotIndexed ==>
        forall i :: 0 <= i < |w.accepted| ==> exists j :: 0 <= j < |data| && data[j] == w.accepted[i] && w.flags[j]
  {
    match Candidate(scans[increment], average, tol, thresh, increment)
    case None => WalkNone(up, scans, sofar, average, tol, thresh, increment, data, flags);
    case Some(p) =>
      var k := Lookup(data, flags, p);
      if k < 0 {
        WalkUnindexed(up, scans, sofar, average, tol, thresh, increment, data, flags, p);
      } else if !((up && increment < |scans| - 2) || (!up && increment > 1)) {
        WalkLast(up, scans, sofar, average, tol, thresh, increment, data, flags, p, k);
      } else {
        var next := sofar + [p.mz];
        var inc' := if up then increment + 1 else increment - 1;
        WalkNext(up, scans, sofar, average, tol, thresh, increment, data, flags, p, k, Mean(next), inc', flags[k := true]);
        var marked := flags[k := true];
        WalkFlagsAccepted(up, scans, next, Mean(next), tol, thresh, inc', data, marked);
        WalkFlags(up, scans, next, Mean(next), tol, thresh, inc', data, marked);
        var w' := Walk(up, scans, next, Mean(next), tol, thresh, inc', data, marked);
        assert data[k] == p && w'.flags[k];
      }
  }

  /** A walk that stops does so at the first scan past its last point whose window,
      centred where the walk last centred it, misses or whose apex is not above the
      threshold. */
  lemma {:induction false} WalkStops(up: bool, scans: seq<Scan>, sofar: seq<real>, average: real, tol: real,
      thresh: real, increment: nat, data: seq<Point>, flags: seq<bool>)
    requires AllWellFormed(scans) && increment < |scans| && |flags| == |data|
    decreases if up then |scans| - increment else increment
    ensures var w := Walk(up, scans, sofar, average, tol, thresh, increment, data, flags);
      w.end == Stopped ==>
        && 0 <= Step(up, increment, |w.accepted|) < |scans|
        && Candidate(scans[Step(up, increment, |w.accepted|)], w.centre, tol, thresh,
                     Step(up, increment, |w.accepted|)).None?
  {
    match Candidate(scans[increment], average, tol, thresh, increment)
    case None => WalkNone(up, scans, sofar, average, tol, thresh, increment, data, flags);
    case Some(p) =>
      var k := Lookup(data, flags, p);
      if k < 0 {
        WalkUnindexed(up, scans, sofar, average, tol, thresh, increment, data, flags, p);
      } else if !((up && increment < |scans| - 2) || (!up && increment > 1)) {
        WalkLast(up, scans, sofar, average, tol, thresh, increment, data, flags, p, k);
      } else {
        var next := sofar + [p.mz];
        var inc' := if up then increment + 1 else increment - 1;
        WalkNext(up, scans, sofar, average, tol, thresh, increment, data, flags, p, k, Mean(next), inc', flags[k := true]);
        WalkStops(up, scans, next, Mean(next), tol, thresh, inc', data, flags[k := true]);
        var w' := Walk(up, scans, next, Mean(next), tol, thresh, inc', data, flags[k := true]);
        var w := Walk(up, scans, sofar, average, tol, thresh, increment, data, flags);
        assert w.centre == w'.centre && w.end == w'.end && |w.accepted| == 1 + |w'.accepted|;
        assert Step(up, increment, |w.accepted|) == Step(up, inc', |w'.accepted|);
      }
  }

  /** The centre a stopped walk last used is the mean over `sofar` and the accepted
      m/z values, or the initial centre when it accepted nothing. */
  lemma {:induction false} WalkCentre(up: bool, scans: seq<Scan>, sofar: seq<real>, average: real, tol: real,
      thresh: real, increment: nat, data: seq<Point>, flags: seq<bool>)
    requires AllWellFormed(scans) && increment < |scans| && |flags| == |data|
    decreases if up then |scans| - increment else increment
    ensures var w := Walk(up, scans, sofar, average, tol, thresh, increment, data, flags);
      w.end == Stopped ==>
        && (|w.accepted| == 0 ==> w.centre == average)
        && (|w.accepted| > 0 ==> w.centre == Mean(sofar + PointMZs(w.accepted)))
  {
    match Candidate(scans[increment], average, tol, thresh, increment)
    case None => WalkNone(up, scans, sofar, average, tol, thresh, increment, data, flags);
    case Some(p) =>
      var k := Lookup(data, flags, p);
      if k < 0 {
        WalkUnindexed(up, scans, sofar, average, tol, thresh, increment, data, flags, p);
      } else if !((up && increment < |scans| - 2) || (!up && increment > 1)) {
        WalkLast(up, scans, sofar, average, tol, thresh, increment, data, flags, p, k);
      } else {
        var next := sofar + [p.mz];
        var inc' := if up then increment + 1 else increment - 1;
        WalkNext(up, scans, sofar, average, tol, thresh, increment, data, flags, p, k, Mean(next), inc', flags[k := true]);
        WalkCentre(up, scans, next, Mean(next), tol, thresh, inc', data, flags[k := true]);
        var w' := Walk(up, scans, next, Mean(next), tol, thresh, inc', data, flags[k := true]);
        MZsAfter(sofar, p, w'.accepted);
      }
  }

  lemma MZsAfter(sofar: seq<real>, p: Point, rest: seq<Point>)
    ensures sofar + PointMZs([p] + rest) == (sofar + [p.mz]) + PointMZs(rest)
  {
    assert PointMZs([p] + rest) == [p.mz] + PointMZs(rest);
  }

  /** A walk reaches the end only after accepting a point on the scan before the last
      one or later (going up), or on scan 1 or earlier (going down). */
  lemma {:induction false} WalkReachesEnd(up: bool, scans: seq<Scan>, sofar: seq<real>, average: real, tol: real,
      thresh: real, increment: nat, data: seq<Point>, flags: seq<bool>)
    requires AllWellFormed(scans) && increment < |scans| && |flags| == |data|
    decreases if up then |scans| - increment else increment
    ensures var w := Walk(up, scans, sofar, average, tol, thresh, increment, data, flags);
      w.end == ReachedEnd ==>
        && |w.accepted| > 0
        && (up ==> w.accepted[|w.accepted| - 1].scan >= |scans| - 2)
        && (!up ==> w.accepted[|w.accepted| - 1].scan <= 1)
  {
    match Candidate(scans[increment], average, tol, thresh, increment)
    case None => WalkNone(up, scans, sofar, average, tol, thresh, increment, data, flags);
    case Some(p) =>
      var k := Lookup(data, flags, p);
      if k < 0 {
        WalkUnindexed(up, scans, sofar, average, tol, thresh, increment, data, flags, p);
      } else if !((up && increment < |scans| - 2) || (!up && increment > 1)) {
        WalkLast(up, scans, sofar, average, tol, thresh, increment, data, flags, p, k);
      } else {
        var next := sofar + [p.mz];
        var inc' := if up then increment + 1 else increment - 1;
        WalkNext(up, scans, sofar, average, tol, thresh, increment, data, flags, p, k, Mean(next), inc', flags[k := true]);
        WalkReachesEnd(up, scans, next, Mean(next), tol, thresh, inc', data, flags[k := true]);
        var w' := Walk(up, scans, next, Mean(next), tol, thresh, inc', data, flags[k := true]);
        if w'.end == ReachedEnd {
          LastOfCons(p, w'.accepted);
        }
      }
  }

  /** A walk fails exactly on an accepted point that has no equal entry in the global list. */
  lemma {:induction false} WalkFailure(up: bool, scans: seq<Scan>, sofar: seq<real>, average: real, tol: real,
      thresh: real, increment: nat, data: seq<Point>, flags: seq<bool>)
    requires AllWellFormed(scans) && increment < |scans| && |flags| == |data|
    decreases if up then |scans| - increment else increment
    ensures var w := Walk(up, scans, sofar, average, tol, thresh, increment, data, flags);
      w.end == NotIndexed ==>
        && |w.accepted| > 0
        && forall j :: 0 <= j < |data| ==> data[j] != w.accepted[|w.accepted| - 1]
  {
    match Candidate(scans[increment], average, tol, thresh, increment)
    case None => WalkNone(up, scans, sofar, average, tol, thresh, increment, data, flags);
    case Some(p) =>
      var k := Lookup(data, flags, p);
      if k < 0 {
        WalkUnindexed(up, scans, sofar, average, tol, thresh, increment, data, flags, p);
      } else if !((up && increment < |scans| - 2) || (!up && increment > 1)) {
        WalkLast(up, scans, sofar, average, tol, thresh, increment, data, flags, p, k);
      } else {
        var next := sofar + [p.mz];
        var inc' := if up then increment + 1 else increment - 1;
        WalkNext(up, scans, sofar, average, tol, thresh, increment, data, flags, p, k, Mean(next), inc', flags[k := true]);
        WalkFailure(up, scans, next, Mean(next), tol, thresh, inc', data, flags[k := true]);
        var w' := Walk(up, scans, next, Mean(next), tol, thresh, inc', data, flags[k := true]);
        if w'.end == NotIndexed {
          LastOfCons(p, w'.accepted);
        }
      }
  }

  /** The trace built around a seed: the downward walk's points, the upward walk's
      points, the flags afterwards, whether both walks avoided the failing lookup, and
      the final mean m/z of the chromatogram. */
  datatype Traced = Traced(below: seq<Point>, above: seq<Point>, flags: seq<bool>, ok: bool, meanMZ: real)

  /** The first part of the `Chromatogram` constructor: walk down from the scan below
      the seed centred on the seed's m/z, lay the trace out as the reversed downward
      points, the seed and (after walking up from the scan above, centred on the mean
      of that list) the upward points. */
  function TracePeak(scans: seq<Scan>, seed: Point, tol: real, thresh: real,
                     data: seq<Point>, flags: seq<bool>): Traced
    requires AllWellFormed(scans) && 0 <= seed.scan < |scans| && |flags| == |data|
  {
    var wb := if seed.scan > 0 then Walk(false, scans, [], seed.mz, tol, thresh, seed.scan - 1, data, flags)
              else Walked([], flags, Stopped, seed.mz);
    if wb.end == NotIndexed then Traced(wb.accepted, [], wb.flags, false, wb.centre)
    else if seed.scan + 1 < |scans| then
      var start := PointMZs(Reverse(wb.accepted) + [seed]);
      var wa := Walk(true, scans, start, Mean(start), tol, thresh, seed.scan + 1, data, wb.flags);
      Traced(wb.accepted, wa.accepted, wa.flags, wa.end != NotIndexed, wa.centre)
    else Traced(wb.accepted, [], wb.flags, true, wb.centre)
  }

  /** A trace whose downward walk fails fails with it. */
  lemma TraceFailsBelow(scans: seq<Scan>, seed: Point, tol: real, thresh: real,
                        data: seq<Point>, flags: seq<bool>, wb: Walked)
    requires AllWellFormed(scans) && 0 <= seed.scan < |scans| && |flags| == |data|
    requires wb == if seed.scan > 0 then Walk(false, scans, [], seed.mz, tol, thresh, seed.scan - 1, data, flags)
                   else Walked([], flags, Stopped, seed.mz)
    requires wb.end == NotIndexed
    ensures TracePeak(scans, seed, tol, thresh, data, flags) == Traced(wb.accepted, [], wb.flags, false, wb.centre)
  {
  }

  /** A trace whose downward walk succeeds is that walk joined to the upward one. */
  lemma TraceJoins(scans: seq<Scan>, seed: Point, tol: real, thresh: real,
                   data: seq<Point>, flags: seq<bool>, wb: Walked, start: seq<real>, wa: Walked)
    requires AllWellFormed(scans) && 0 <= seed.scan < |scans| && |flags| == |data|
    requires wb == if seed.scan > 0 then Walk(false, scans, [], seed.mz, tol, thresh, seed.scan - 1, data, flags)
                   else Walked([], flags, Stopped, seed.mz)
    requires wb.end != NotIndexed && |wb.flags| == |data|
    requires start == PointMZs(Reverse(wb.accepted) + [seed])
    requires wa == if seed.scan + 1 < |scans| then Walk(true, scans, start, Mean(start), tol, thresh, seed.scan + 1, data, wb.flags)
                   else Walked([], wb.flags, Stopped, wb.centre)
    ensures TracePeak(scans, seed, tol, thresh, data, flags) == Traced(wb.accepted, wa.accepted, wa.flags, wa.end != NotIndexed, wa.centre)
  {
  }

  function Layout(t: Traced, seed: Point): seq<Point>
  {
    Reverse(t.below) + [seed] + t.above
  }

  /** Laying out points from consecutive scans below and above a seed gives points
      from consecutive scans with the seed at position `|below|`. */
  lemma LayoutConsecutive(below: seq<Point>, seed: Point, above: seq<Point>, thresh: real)
    requires forall i :: 0 <= i < |below| ==> below[i].scan == seed.scan - 1 - i && below[i].intensity > thresh
    requires forall i :: 0 <= i < |above| ==> above[i].scan == seed.scan + 1 + i && above[i].intensity > thresh
    ensures var trace := Reverse(below) + [seed] + above;
      && trace[|below|] == seed
      && (forall i :: 0 <= i < |trace| ==> trace[i].scan == seed.scan - |below| + i)
      && (forall i :: 0 <= i < |trace| && i != |below| ==> trace[i].intensity > thresh)
  {
    var trace := Reverse(below) + [seed] + above;
    forall i | 0 <= i < |trace|
      ensures trace[i].scan == seed.scan - |below| + i
      ensures i != |below| ==> trace[i].intensity > thresh
    {
      if i < |below| {
        assert trace[i] == below[|below| - 1 - i];
      } else if i > |below| {
        assert trace[i] == above[i - |below| - 1];
      }
    }
  }

  /** The trace covers consecutive scans around the seed, with the seed at position
      `|below|` and every other point above the threshold. */
  lemma TraceLayout(scans: seq<Scan>, seed: Point, tol: real, thresh: real, data: seq<Point>, flags: seq<bool>)
    requires AllWellFormed(scans) && 0 <= seed.scan < |scans| && |flags| == |data|
    ensures var t := TracePeak(scans, seed, tol, thresh, data, flags);
      var trace := Layout(t, seed);
      && trace[|t.below|] == seed
      && (forall i :: 0 <= i < |trace| ==> trace[i].scan == seed.scan - |t.below| + i)
      && (forall i :: 0 <= i < |trace| && i != |t.below| ==> trace[i].intensity > thresh)
  {
    var wb := if seed.scan > 0 then Walk(false, scans, [], seed.mz, tol, thresh, seed.scan - 1, data, flags)
              else Walked([], flags, Stopped, seed.mz);
    if seed.scan > 0 {
      WalkAccepted(false, scans, [], seed.mz, tol, thresh, seed.scan - 1, data, flags);
    }
    if wb.end == NotIndexed {
      TraceFailsBelow(scans, seed, tol, thresh, data, flags, wb);
    } else {
      var start := PointMZs(Reverse(wb.accepted) + [seed]);
      var wa := if seed.scan + 1 < |scans| then Walk(true, scans, start, Mean(start), tol, thresh, seed.scan + 1, data, wb.flags)
                else Walked([], wb.flags, Stopped, wb.centre);
      if seed.scan + 1 < |scans| {
        WalkAccepted(true, scans, start, Mean(start), tol, thresh, seed.scan + 1, data, wb.flags);
      }
      TraceJoins(scans, seed, tol, thresh, data, flags, wb, start, wa);
    }
    var t := TracePeak(scans, seed, tol, thresh, data, flags);
    LayoutConsecutive(t.below, seed, t.above, thresh);
  }

  /** Building the trace only sets flags, only on entries equal to a traced point;
      when it succeeds every traced point other than the seed has a flagged equal entry. */
  lemma TraceFlags(scans: seq<Scan>, seed: Point, tol: real, thresh: real, data: seq<Point>, flags: seq<bool>)
    requires AllWellFormed(scans) && 0 <= seed.scan < |scans| && |flags| == |data|
    ensures var t := TracePeak(scans, seed, tol, thresh, data, flags);
      && |t.flags| == |flags|
      && (forall j :: 0 <= j < |flags| && flags[j] ==> t.flags[j])
      && (forall j :: 0 <= j < |flags| && t.flags[j] != flags[j] ==> data[j] in t.below || data[j] in t.above)
      && (t.ok ==> forall q :: q in t.below || q in t.above ==>
            exists j :: 0 <= j < |data| && data[j] == q && t.flags[j])
  {
    var wb := if seed.scan > 0 then Walk(false, scans, [], seed.mz, tol, thresh, seed.scan - 1, data, flags)
              else Walked([], flags, Stopped, seed.mz);
    WalkMarks(false, scans, [], seed.mz, seed.mz, tol, thresh, seed.scan - 1, data, flags, seed.scan > 0, wb);
    if wb.end == NotIndexed {
      TraceFailsBelow(scans, seed, tol, thresh, data, flags, wb);
    } else {
      var start := PointMZs(Reverse(wb.accepted) + [seed]);
      var wa := if seed.scan + 1 < |scans| then Walk(true, scans, start, Mean(start), tol, thresh, seed.scan + 1, data, wb.flags)
                else Walked([], wb.flags, Stopped, wb.centre);
      WalkMarks(true, scans, start, Mean(start), wb.centre, tol, thresh, seed.scan + 1, data, wb.flags,
                seed.scan + 1 < |scans|, wa);
      TraceJoins(scans, seed, tol, thresh, data, flags, wb, start, wa);
      JoinMarks(data, flags, wb, wa);
    }
  }

  /** The flag facts of one walk of a trace, or of the empty walk that stands in for
      it at either end of the scan list. */
  lemma WalkMarks(up: bool, scans: seq<Scan>, sofar: seq<real>, average: real, centre: real, tol: real,
                  thresh: real, increment: int, data: seq<Point>, flags: seq<bool>, walks: bool, w: Walked)
    requires AllWellFormed(scans) && |flags| == |data|
    requires walks ==> 0 <= increment < |scans|
    requires w == if walks then Walk(up, scans, sofar, average, tol, thresh, increment, data, flags)
                  else Walked([], flags, Stopped, centre)
    ensures |w.flags| == |data|
    ensures forall j :: 0 <= j < |flags| && flags[j] ==> w.flags[j]
    ensures forall j :: 0 <= j < |flags| && w.flags[j] != flags[j] ==> data[j] in w.accepted
    ensures w.end != NotIndexed ==>
      forall i :: 0 <= i < |w.accepted| ==> exists j :: 0 <= j < |data| && data[j] == w.accepted[i] && w.flags[j]
  {
    if walks {
      WalkFlags(up, scans, sofar, average, tol, thresh, increment, data, flags);
      WalkFlagsAccepted(up, scans, sofar, average, tol, thresh, increment, data, flags);
    }
  }

  /** Flags set by two walks in a row: what each walk promises about its own flags
      carries over to the pair. */
  lemma JoinMarks(data: seq<Point>, flags: seq<bool>, wb: Walked, wa: Walked)
    requires |flags| == |data| && |wb.flags| == |data| && |wa.flags| == |data|
    requires forall j :: 0 <= j < |flags| && flags[j] ==> wb.flags[j]
    requires forall j :: 0 <= j < |flags| && wb.flags[j] != flags[j] ==> data[j] in wb.accepted
    requires forall j :: 0 <= j < |flags| && wb.flags[j] ==> wa.flags[j]
    requires forall j :: 0 <= j < |flags| && wa.flags[j] != wb.flags[j] ==> data[j] in wa.accepted
    requires wb.end != NotIndexed ==>
      forall i :: 0 <= i < |wb.accepted| ==> exists j :: 0 <= j < |data| && data[j] == wb.accepted[i] && wb.flags[j]
    requires wa.end != NotIndexed ==>
      forall i :: 0 <= i < |wa.accepted| ==> exists j :: 0 <= j < |data| && data[j] == wa.accepted[i] && wa.flags[j]
    ensures forall j :: 0 <= j < |flags| && flags[j] ==> wa.flags[j]
    ensures forall j :: 0 <= j < |flags| && wa.flags[j] != flags[j] ==> data[j] in wb.accepted || data[j] in wa.accepted
    ensures wb.end != NotIndexed && wa.end != NotIndexed ==>
      forall q :: q in wb.accepted || q in wa.accepted ==> exists j :: 0 <= j < |data| && data[j] == q && wa.flags[j]
  {
    if wb.end != NotIndexed && wa.end != NotIndexed {
      forall q | q in wb.accepted || q in wa.accepted
        ensures exists j :: 0 <= j < |data| && data[j] == q && wa.flags[j]
      {
        if q in wb.accepted {
          var i :| 0 <= i < |wb.accepted| && wb.accepted[i] == q;
          var j :| 0 <= j < |data| && data[j] == wb.accepted[i] && wb.flags[j];
          assert wa.flags[j];
        } else {
          var i :| 0 <= i < |wa.accepted| && wa.accepted[i] == q;
          var j :| 0 <= j < |data| && data[j] == wa.accepted[i] && wa.flags[j];
        }
      }
    }
  }
}
