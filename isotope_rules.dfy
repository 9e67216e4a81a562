/** The selection rules of the isotope envelope builder (`PeakCluster`), stated on
    snapshots of the chromatograms it looks through: the charge estimate, the
    correlation of two traces over their common RT range, and the recursive
    extension of the envelope below and above its starting chromatogram. */
module IsotopeRules {
  import opened Common
  import opened LocalPeaks
  import opened ChromatogramRules
  import opened Chromatograms

  /** `NEUTRON_MASS`, the spacing of neighbouring isotopes at charge 1. */
  const NEUTRON_MASS: real := 1.00866491588

  /** What the builder reads of a chromatogram: its mean m/z, the RT of its starting
      point, and the points of its trace. */
  datatype View = View(mz: real, rt: real, points: seq<Point>)

  function ViewOf(c: Chromatogram): View
    reads c`meanMZ, c.trace`items
  {
    View(c.meanMZ, c.startingPointRT, Points(c.trace.items))
  }

  /** `v` is what the builder reads of `c`. */
  predicate SeenAs(c: Chromatogram, v: View)
    reads c`meanMZ, c.trace`items
  {
    v == ViewOf(c)
  }

  /** `views` is a snapshot of `pool`, entry by entry. */
  predicate Snapshot(pool: seq<Chromatogram>, views: seq<View>)
    reads pool`meanMZ, set c | c in pool :: c.trace`items
  {
    |views| == |pool| && forall i {:trigger SeenAs(pool[i], views[i])} :: 0 <= i < |pool| ==> SeenAs(pool[i], views[i])
  }

  lemma SnapshotAt(pool: seq<Chromatogram>, views: seq<View>, k: nat)
    requires Snapshot(pool, views) && k < |pool|
    ensures views[k] == ViewOf(pool[k])
  {
    assert SeenAs(pool[k], views[k]);
  }

  function Views(pool: seq<Chromatogram>): (r: seq<View>)
    reads pool`meanMZ, set c | c in pool :: c.trace`items
    ensures Snapshot(pool, r)
  {
    if pool == [] then []
    else
      var rest := Views(pool[1..]);
      var r := [ViewOf(pool[0])] + rest;
      assert forall i :: 1 <= i < |pool| ==> SeenAs(pool[1..][i - 1], rest[i - 1]) && pool[1..][i - 1] == pool[i] && r[i] == rest[i - 1];
      r
  }

  /** Every trace in the pool has a first and a last point, as built chromatograms do. */
  predicate Traced(views: seq<View>)
  {
    forall i :: 0 <= i < |views| ==> |views[i].points| > 0
  }

  /** The chromatograms at the given pool positions, in that order. */
  function Pick(pool: seq<Chromatogram>, idx: seq<nat>): (r: seq<Chromatogram>)
    requires forall k :: 0 <= k < |idx| ==> idx[k] < |pool|
    ensures |r| == |idx| && forall k :: 0 <= k < |idx| ==> r[k] == pool[idx[k]]
  {
    if idx == [] then [] else Pick(pool, idx[..|idx| - 1]) + [pool[idx[|idx| - 1]]]
  }

  lemma PickCons(pool: seq<Chromatogram>, j: nat, rest: seq<nat>)
    requires j < |pool| && forall k :: 0 <= k < |rest| ==> rest[k] < |pool|
    ensures Pick(pool, [j] + rest) == [pool[j]] + Pick(pool, rest)
  {
    var idx := [j] + rest;
    var l := Pick(pool, idx);
    var r := [pool[j]] + Pick(pool, rest);
    forall k | 0 <= k < |l|
      ensures l[k] == r[k]
    {
      if k > 0 {
        assert idx[k] == rest[k - 1];
      }
    }
  }

  // ---------------------------------------------------------------------------
  // Charge

  /** A chromatogram other than the starting point, within the charge-`i` isotope
      distance (widened by the ppm tolerance) and within 0.03 of its RT. */
  predicate ChargeHit(pool: seq<Chromatogram>, views: seq<View>, start: Chromatogram, sv: View,
                      i: int, neutronAbove: real, ppm: real, k: nat)
    requires i > 0 && k < |pool| == |views|
  {
    && pool[k] != start
    && Abs(sv.mz - views[k].mz) < PpmAbove(neutronAbove / (i as real), ppm)
    && Abs(sv.rt - views[k].rt) < 0.03
  }

  /** The chromatograms of `pool[..n]` the inner loop of `checkCharge` adds for charge `i`. */
  function Hits(pool: seq<Chromatogram>, views: seq<View>, start: Chromatogram, sv: View,
                i: int, neutronAbove: real, ppm: real, n: nat): (r: seq<Chromatogram>)
    requires i > 0 && n <= |pool| == |views|
    ensures |r| <= n
  {
    if n == 0 then []
    else Hits(pool, views, start, sv, i, neutronAbove, ppm, n - 1)
         + (if ChargeHit(pool, views, start, sv, i, neutronAbove, ppm, n - 1) then [pool[n - 1]] else [])
  }

  ghost predicate HasHit(pool: seq<Chromatogram>, views: seq<View>, start: Chromatogram, sv: View,
                         i: int, neutronAbove: real, ppm: real)
    requires i > 0 && |pool| == |views|
  {
    exists k :: 0 <= k < |pool| && ChargeHit(pool, views, start, sv, i, neutronAbove, ppm, k)
  }

  /** The loop adds something for charge `i` exactly when some chromatogram is a hit. */
  lemma {:induction false} HitsNonEmpty(pool: seq<Chromatogram>, views: seq<View>, start: Chromatogram, sv: View,
                                        i: int, neutronAbove: real, ppm: real, n: nat)
    requires i > 0 && n <= |pool| == |views|
    ensures Hits(pool, views, start, sv, i, neutronAbove, ppm, n) != [] <==>
      exists k :: 0 <= k < n && ChargeHit(pool, views, start, sv, i, neutronAbove, ppm, k)
  {
    if n > 0 {
      HitsNonEmpty(pool, views, start, sv, i, neutronAbove, ppm, n - 1);
    }
  }

  /** `checkCharge` from charge `i` downward: the first charge with a hit, or 1. */
  function ChargeFrom(pool: seq<Chromatogram>, views: seq<View>, start: Chromatogram, sv: View,
                      i: int, neutronAbove: real, ppm: real): (r: int)
    requires |pool| == |views|
    ensures 1 <= r && (r == 1 || r <= i)
    decreases i
  {
    if i <= 0 then 1
    else if Hits(pool, views, start, sv, i, neutronAbove, ppm, |pool|) != [] then i
    else ChargeFrom(pool, views, start, sv, i - 1, neutronAbove, ppm)
  }

  /** One step of `checkCharge`, given what the inner loop collected for charge `i`. */
  lemma ChargeFromStep(pool: seq<Chromatogram>, views: seq<View>, start: Chromatogram, sv: View,
                       i: int, neutronAbove: real, ppm: real, hits: seq<Chromatogram>)
    requires |pool| == |views| && i > 0 && hits == Hits(pool, views, start, sv, i, neutronAbove, ppm, |pool|)
    ensures ChargeFrom(pool, views, start, sv, i, neutronAbove, ppm)
      == if |hits| > 0 then i else ChargeFrom(pool, views, start, sv, i - 1, neutronAbove, ppm)
  {
  }

  /** The charge is the largest `i <= maxCharge` for which some other chromatogram is
      a hit, and 1 when there is none; it lies in `[1, maxCharge]`. */
  lemma {:induction false} ChargeIsLargestHit(pool: seq<Chromatogram>, views: seq<View>, start: Chromatogram,
                                              sv: View, maxCharge: int, neutronAbove: real, ppm: real)
    requires |pool| == |views| && maxCharge >= 1
    ensures var c := ChargeFrom(pool, views, start, sv, maxCharge, neutronAbove, ppm);
      && 1 <= c <= maxCharge
      && (forall i :: c < i <= maxCharge ==> !HasHit(pool, views, start, sv, i, neutronAbove, ppm))
      && (HasHit(pool, views, start, sv, c, neutronAbove, ppm)
          || (c == 1 && forall i :: 1 <= i <= maxCharge ==> !HasHit(pool, views, start, sv, i, neutronAbove, ppm)))
  {
    HitsNonEmpty(pool, views, start, sv, maxCharge, neutronAbove, ppm, |pool|);
    if Hits(pool, views, start, sv, maxCharge, neutronAbove, ppm, |pool|) == [] && maxCharge > 1 {
      ChargeIsLargestHit(pool, views, start, sv, maxCharge - 1, neutronAbove, ppm);
    }
  }

  // ---------------------------------------------------------------------------
  // Correlation over the common RT range

  function Larger(x: real, y: real): real { if x >= y then x else y }
  function Smaller(x: real, y: real): real { if x <= y then x else y }

  /** The intensities, in order, of the points whose RT lies in `[lo, hi]`. */
  function InRange(points: seq<Point>, lo: real, hi: real): (r: seq<real>)
    ensures |r| <= |points|
  {
    if points == [] then []
    else InRange(points[..|points| - 1], lo, hi)
         + (if lo <= points[|points| - 1].rt <= hi then [points[|points| - 1].intensity] else [])
  }

  /** A trace lying wholly inside the range gives all its intensities, and one lying
      wholly outside gives none. */
  lemma {:induction false} InRangeExtremes(points: seq<Point>, lo: real, hi: real)
    ensures (forall i :: 0 <= i < |points| ==> lo <= points[i].rt <= hi) ==>
      InRange(points, lo, hi) == PointIntensities(points)
    ensures (forall i :: 0 <= i < |points| ==> !(lo <= points[i].rt <= hi)) ==> InRange(points, lo, hi) == []
  {
    if points != [] {
      var init := points[..|points| - 1];
      InRangeExtremes(init, lo, hi);
      assert PointIntensities(points) == PointIntensities(init) + [points[|points| - 1].intensity];
    }
  }

  /** The common RT range of two traces: from the later first point to the earlier
      last point. */
  function Overlap(a: View, b: View): (real, real)
    requires |a.points| > 0 && |b.points| > 0
  {
    (Larger(a.points[0].rt, b.points[0].rt),
     Smaller(a.points[|a.points| - 1].rt, b.points[|b.points| - 1].rt))
  }

  /** `correlateChromatograms`: the Pearson coefficient of the two traces' intensities
      over their common RT range. `None` is the `DimensionMismatchException` the
      source throws when the two traces have different numbers of points in that
      range; fewer than two points give 0. */
  function Correlation(a: View, b: View, pearson: (seq<real>, seq<real>) -> real): Option<real>
    requires |a.points| > 0 && |b.points| > 0
  {
    var (lo, hi) := Overlap(a, b);
    var x := InRange(a.points, lo, hi);
    var y := InRange(b.points, lo, hi);
    if |x| != |y| then None
    else if |x| < 2 then Some(0.0)
    else Some(pearson(x, y))
  }

  /** The common range does not depend on the order of the two traces, so neither
      does a mismatch; a trace correlated with itself never mismatches, and two
      traces with too small an overlap correlate to 0. */
  lemma CorrelationShape(a: View, b: View, pearson: (seq<real>, seq<real>) -> real)
    requires |a.points| > 0 && |b.points| > 0
    ensures Overlap(a, b) == Overlap(b, a)
    ensures Correlation(a, b, pearson).None? <==> Correlation(b, a, pearson).None?
    ensures Correlation(a, a, pearson).Some?
    ensures var (lo, hi) := Overlap(a, b);
      |InRange(a.points, lo, hi)| == |InRange(b.points, lo, hi)| < 2 ==> Correlation(a, b, pearson) == Some(0.0)
  {
  }

  // ---------------------------------------------------------------------------
  // Recursive extension

  /** `recursiveCondition`: the candidate m/z lies strictly above (or strictly below)
      the previous one. */
  predicate RecursiveCondition(above: bool, test: real, prev: real)
  {
    if above then test > prev else test < prev
  }

  /** The parameters of one direction of the search: the direction, the expected
      isotope spacing `neutronMassPpmAbove / charge`, and the Pearson coefficient. */
  datatype Search = Search(above: bool, spacing: real, pearson: (seq<real>, seq<real>) -> real)

  /** The spacing and direction gate of the extension step. */
  predicate Gate(prev: View, cand: View, s: Search)
  {
    Abs(Abs(prev.mz - cand.mz) - s.spacing) < 0.05 && RecursiveCondition(s.above, cand.mz, prev.mz)
  }

  /** Candidate `cand` (seen as `cv`) passes the gate from `prev` but its correlation
      throws. */
  predicate Throws(cand: Chromatogram, cv: View, prev: Chromatogram, pv: View, s: Search)
    requires |cv.points| > 0 && |pv.points| > 0
  {
    cand != prev && Gate(pv, cv, s) && Correlation(pv, cv, s.pearson).None?
  }

  /** Candidate `cand` (seen as `cv`) is accepted as the next isotope after `prev`. */
  predicate Accepts(cand: Chromatogram, cv: View, prev: Chromatogram, pv: View, s: Search)
    requires |cv.points| > 0 && |pv.points| > 0
  {
    && cand != prev && Gate(pv, cv, s)
    && var corr := Correlation(pv, cv, s.pearson);
      corr.Some? && corr.value > 0.8
  }

  /** The scan of `pool[..n]` against `prev`: the positions of the accepted
      chromatograms in pool order, or `None` once a correlation throws. */
  function Candidates(pool: seq<Chromatogram>, views: seq<View>, prev: Chromatogram, pv: View, s: Search, n: nat)
    : (r: Option<seq<nat>>)
    requires n <= |pool| == |views| && Traced(views) && |pv.points| > 0
    ensures r.Some? ==> forall k :: 0 <= k < |r.value| ==> r.value[k] < n
  {
    if n == 0 then Some([])
    else match Candidates(pool, views, prev, pv, s, n - 1)
      case None => None
      case Some(c) =>
        match Verdict(pool[n - 1], views[n - 1], prev, pv, s)
        case None => None
        case Some(accepted) => if accepted then Some(c + [n - 1]) else Some(c)
  }

  /** What the scan makes of one candidate: `None` if its correlation throws,
      otherwise whether it is accepted. */
  function Verdict(cand: Chromatogram, cv: View, prev: Chromatogram, pv: View, s: Search): (r: Option<bool>)
    requires |cv.points| > 0 && |pv.points| > 0
    ensures r.None? <==> Throws(cand, cv, prev, pv, s)
    ensures r.Some? ==> (r.value <==> Accepts(cand, cv, prev, pv, s))
  {
    if cand == prev || !Gate(pv, cv, s) then Some(false)
    else match Correlation(pv, cv, s.pearson)
      case None => None
      case Some(corr) => Some(corr > 0.8)
  }

  /** `j` is the first pool entry accepted after `prev`. */
  ghost predicate FirstAccepted(pool: seq<Chromatogram>, views: seq<View>, prev: Chromatogram, pv: View, s: Search, j: nat)
    requires |pool| == |views| && Traced(views) && |pv.points| > 0
  {
    && j < |pool| && Accepts(pool[j], views[j], prev, pv, s)
    && forall i :: 0 <= i < j ==> !Accepts(pool[i], views[i], prev, pv, s)
  }

  /** No pool entry is accepted after `prev`: the search stops there. */
  ghost predicate NoneAccepted(pool: seq<Chromatogram>, views: seq<View>, prev: Chromatogram, pv: View, s: Search)
    requires |pool| == |views| && Traced(views) && |pv.points| > 0
  {
    forall i :: 0 <= i < |pool| ==> !Accepts(pool[i], views[i], prev, pv, s)
  }

  /** The scan throws exactly when some gated entry's correlation throws. */
  lemma {:induction false} CandidatesThrow(pool: seq<Chromatogram>, views: seq<View>, prev: Chromatogram, pv: View,
                                           s: Search, n: nat)
    requires n <= |pool| == |views| && Traced(views) && |pv.points| > 0
    ensures Candidates(pool, views, prev, pv, s, n).None? <==>
      exists i :: 0 <= i < n && Throws(pool[i], views[i], prev, pv, s)
  {
    if n > 0 {
      CandidatesThrow(pool, views, prev, pv, s, n - 1);
    }
  }

  /** Otherwise the scan keeps exactly the accepted entries, in ascending pool order. */
  lemma {:induction false} CandidatesKeep(pool: seq<Chromatogram>, views: seq<View>, prev: Chromatogram, pv: View,
                                          s: Search, n: nat)
    requires n <= |pool| == |views| && Traced(views) && |pv.points| > 0
    requires Candidates(pool, views, prev, pv, s, n).Some?
    ensures var c := Candidates(pool, views, prev, pv, s, n).value;
      && (forall i :: 0 <= i < n ==> (i in c <==> Accepts(pool[i], views[i], prev, pv, s)))
      && (forall k, l :: 0 <= k < l < |c| ==> c[k] < c[l])
  {
    if n > 0 {
      CandidatesKeep(pool, views, prev, pv, s, n - 1);
    }
  }

  /** So the scan keeps nothing when nothing is accepted, and its first entry is the
      first accepted one. */
  lemma CandidatesExact(pool: seq<Chromatogram>, views: seq<View>, prev: Chromatogram, pv: View, s: Search)
    requires |pool| == |views| && Traced(views) && |pv.points| > 0
    requires Candidates(pool, views, prev, pv, s, |pool|).Some?
    ensures var c := Candidates(pool, views, prev, pv, s, |pool|).value;
      && (c == [] ==> NoneAccepted(pool, views, prev, pv, s))
      && (c != [] ==> FirstAccepted(pool, views, prev, pv, s, c[0]))
  {
    var c := Candidates(pool, views, prev, pv, s, |pool|).value;
    CandidatesKeep(pool, views, prev, pv, s, |pool|);
    if c != [] {
      assert forall k :: 0 < k < |c| ==> c[0] < c[k];
      assert c[0] in c;
    }
  }

  /** Every position the scan keeps is an accepted entry, which lies beyond `prev`
      in the search direction. */
  lemma {:induction false} CandidateAccepted(pool: seq<Chromatogram>, views: seq<View>, prev: Chromatogram, pv: View,
                                             s: Search, n: nat, k: nat)
    requires n <= |pool| == |views| && Traced(views) && |pv.points| > 0
    requires Candidates(pool, views, prev, pv, s, n).Some? && k < |Candidates(pool, views, prev, pv, s, n).value|
    ensures var j := Candidates(pool, views, prev, pv, s, n).value[k];
      Accepts(pool[j], views[j], prev, pv, s) && RecursiveCondition(s.above, views[j].mz, pv.mz)
  {
    var c := Candidates(pool, views, prev, pv, s, n - 1).value;
    if k < |c| {
      CandidateAccepted(pool, views, prev, pv, s, n - 1, k);
    }
  }

  /** One step of the scan, as the pool loop takes it. */
  lemma CandidatesStep(pool: seq<Chromatogram>, views: seq<View>, prev: Chromatogram, pv: View, s: Search,
                       n: nat, c: seq<nat>, verdict: Option<bool>)
    requires n < |pool| == |views| && Traced(views) && |pv.points| > 0
    requires Candidates(pool, views, prev, pv, s, n) == Some(c)
    requires verdict == Verdict(pool[n], views[n], prev, pv, s)
    ensures Candidates(pool, views, prev, pv, s, n + 1) ==
      match verdict
      case None => None
      case Some(accepted) => if accepted then Some(c + [n]) else Some(c)
  {
  }

  /** Once the scan has thrown it stays thrown. */
  lemma {:induction false} CandidatesThrowStays(pool: seq<Chromatogram>, views: seq<View>, prev: Chromatogram, pv: View,
                                                s: Search, n: nat, m: nat)
    requires n <= m <= |pool| == |views| && Traced(views) && |pv.points| > 0
    requires Candidates(pool, views, prev, pv, s, n).None?
    ensures Candidates(pool, views, prev, pv, s, m).None?
  {
    if m > n {
      CandidatesThrowStays(pool, views, prev, pv, s, n, m - 1);
    }
  }

  /** The number of chromatograms whose m/z lies strictly beyond `m` in the search
      direction: the measure that the recursion decreases. */
  function CountBeyond(views: seq<View>, m: real, above: bool): (r: nat)
    ensures r <= |views|
  {
    if views == [] then 0
    else (if RecursiveCondition(above, views[0].mz, m) then 1 else 0) + CountBeyond(views[1..], m, above)
  }

  lemma {:induction false} CountBeyondMonotone(views: seq<View>, m: real, m': real, above: bool)
    requires m' == m || RecursiveCondition(above, m', m)
    ensures CountBeyond(views, m', above) <= CountBeyond(views, m, above)
  {
    if views != [] {
      CountBeyondMonotone(views[1..], m, m', above);
    }
  }

  /** Moving the frontier to a chromatogram beyond it leaves fewer beyond. */
  lemma {:induction false} CountBeyondShrinks(views: seq<View>, m: real, j: nat, above: bool)
    requires j < |views| && RecursiveCondition(above, views[j].mz, m)
    ensures CountBeyond(views, views[j].mz, above) < CountBeyond(views, m, above)
  {
    if j == 0 {
      CountBeyondMonotone(views[1..], m, views[0].mz, above);
    } else {
      CountBeyondShrinks(views[1..], m, j - 1, above);
    }
  }

  /** `checkAboveOrBelow`: the pool positions of the chromatograms appended to
      `tempChroma`, in order, starting from `prev`. With any number of candidates
      the first one found is taken, and the search goes on from it; `None` is a
      correlation that threw on the way. */
  function Chain(pool: seq<Chromatogram>, views: seq<View>, prev: Chromatogram, pv: View, s: Search)
    : (r: Option<seq<nat>>)
    requires |pool| == |views| && Traced(views) && |pv.points| > 0
    ensures r.Some? ==> (forall k :: 0 <= k < |r.value| ==> r.value[k] < |pool|)
                        && |r.value| <= CountBeyond(views, pv.mz, s.above)
    decreases CountBeyond(views, pv.mz, s.above)
  {
    match Candidates(pool, views, prev, pv, s, |pool|)
    case None => None
    case Some(c) =>
      if c == [] then Some([])
      else
        var j := c[0];
        CandidateAccepted(pool, views, prev, pv, s, |pool|, 0);
        CountBeyondShrinks(views, pv.mz, j, s.above);
        match Chain(pool, views, pool[j], views[j], s)
        case None => None
        case Some(rest) => Some([j] + rest)
  }

  /** One step of the chain: with the scan from `prev` keeping `c`, the chain from
      `prev` is its first entry followed by the chain from there. */
  lemma ChainNext(pool: seq<Chromatogram>, views: seq<View>, prev: Chromatogram, pv: View, s: Search, c: seq<nat>)
    requires |pool| == |views| && Traced(views) && |pv.points| > 0
    requires Candidates(pool, views, prev, pv, s, |pool|) == Some(c) && c != []
    ensures c[0] < |pool| && RecursiveCondition(s.above, views[c[0]].mz, pv.mz)
    ensures var next := Chain(pool, views, pool[c[0]], views[c[0]], s);
      && (Chain(pool, views, prev, pv, s).Some? <==> next.Some?)
      && (next.Some? ==> Chain(pool, views, prev, pv, s).value == [c[0]] + next.value)
  {
    CandidateAccepted(pool, views, prev, pv, s, |pool|, 0);
  }

  /** The chain from `prev` as `checkAboveOrBelow` builds it: its first candidate
      `next`, then the chain from `next`. */
  lemma ChainExtends(pool: seq<Chromatogram>, views: seq<View>, prev: Chromatogram, pv: View, s: Search,
                     c: seq<nat>, next: Chromatogram, rest: seq<nat>, before: seq<Chromatogram>)
    requires |pool| == |views| && Traced(views) && |pv.points| > 0
    requires Candidates(pool, views, prev, pv, s, |pool|) == Some(c) && c != [] && c[0] < |pool| && next == pool[c[0]]
    requires Chain(pool, views, next, views[c[0]], s) == Some(rest)
    ensures Chain(pool, views, prev, pv, s).Some?
    ensures [next] + Pick(pool, rest) == Pick(pool, Chain(pool, views, prev, pv, s).value)
    ensures before + [next] + Pick(pool, rest) == before + Pick(pool, Chain(pool, views, prev, pv, s).value)
  {
    ChainNext(pool, views, prev, pv, s, c);
    PickCons(pool, c[0], rest);
    assert before + [next] + Pick(pool, rest) == before + ([next] + Pick(pool, rest));
  }

  /** Each chromatogram of the chain is the first one accepted after its predecessor
      (the starting point for the first), the chain ends where nothing more is
      accepted, and the m/z moves strictly in the search direction at every step. */
  lemma {:induction false} ChainSteps(pool: seq<Chromatogram>, views: seq<View>, prev: Chromatogram, pv: View, s: Search)
    requires |pool| == |views| && Traced(views) && |pv.points| > 0
    requires Chain(pool, views, prev, pv, s).Some?
    ensures var c := Chain(pool, views, prev, pv, s).value;
      && (c == [] ==> NoneAccepted(pool, views, prev, pv, s))
      && (c != [] ==> FirstAccepted(pool, views, prev, pv, s, c[0]) && RecursiveCondition(s.above, views[c[0]].mz, pv.mz))
      && (forall k :: 0 < k < |c| ==> FirstAccepted(pool, views, pool[c[k - 1]], views[c[k - 1]], s, c[k]))
      && (forall k :: 0 < k < |c| ==> RecursiveCondition(s.above, views[c[k]].mz, views[c[k - 1]].mz))
      && (c != [] ==> NoneAccepted(pool, views, pool[c[|c| - 1]], views[c[|c| - 1]], s))
    decreases CountBeyond(views, pv.mz, s.above)
  {
    CandidatesExact(pool, views, prev, pv, s);
    var c := Candidates(pool, views, prev, pv, s, |pool|).value;
    if c != [] {
      var j := c[0];
      CountBeyondShrinks(views, pv.mz, j, s.above);
      ChainSteps(pool, views, pool[j], views[j], s);
      var rest := Chain(pool, views, pool[j], views[j], s).value;
      var all := Chain(pool, views, prev, pv, s).value;
      assert all == [j] + rest;
      forall k | 0 < k < |all|
        ensures FirstAccepted(pool, views, pool[all[k - 1]], views[all[k - 1]], s, all[k])
        ensures RecursiveCondition(s.above, views[all[k]].mz, views[all[k - 1]].mz)
      {
        if k > 1 {
          assert all[k] == rest[k - 1] && all[k - 1] == rest[k - 2];
        }
      }
    }
  }
}
