/** A peak cluster: a chromatogram and its isotopes, laid out in m/z order around
    it, with the charge they imply, the adducts whose m/z falls in its window and
    its rescaled position for the cross-sample clustering. */
module PeakClusters {
  import opened Common
  import opened LocalPeaks
  import opened Chromatograms
  import opened IsotopeRules
  import opened Adducts

  /** The `inCluster` flags of the chromatograms, in list order. */
  function InClusterFlags(chroms: seq<Chromatogram>): (r: seq<bool>)
    reads chroms
    ensures |r| == |chroms| && forall j :: 0 <= j < |chroms| ==> r[j] == chroms[j].inCluster
  {
    seq(|chroms|, j requires 0 <= j < |chroms| reads chroms => chroms[j].inCluster)
  }

  class PeakCluster {
    var neutronMassPpmAbove: real
    var neutronMassPpmBelow: real
    /** The chromatograms of the cluster, in ascending m/z. */
    var chromatograms: seq<Chromatogram>
    /** The chromatograms found by the current direction of the search. */
    var tempChroma: seq<Chromatogram>
    var charge: int
    var startingPointIndex: int
    var adductList: seq<Adduct>
    var targetMZAbove: real
    var targetMZBelow: real
    var inAlignedCluster: bool
    var normalisedMZ: real
    var normalisedRT: real

    /** The field set-up at the head of the source constructor. */
    constructor (ppm: real)
      ensures !inAlignedCluster && adductList == [] && chromatograms == [] && tempChroma == []
      ensures neutronMassPpmAbove == PpmAbove(NEUTRON_MASS, ppm)
      ensures neutronMassPpmBelow == PpmBelow(NEUTRON_MASS, ppm)
    {
      inAlignedCluster := false;
      adductList := [];
      chromatograms := [];
      tempChroma := [];
      neutronMassPpmAbove := PpmAbove(NEUTRON_MASS, ppm);
      neutronMassPpmBelow := PpmBelow(NEUTRON_MASS, ppm);
      charge := 0;
      startingPointIndex := 0;
      targetMZAbove := 0.0;
      targetMZBelow := 0.0;
      normalisedMZ := 0.0;
      normalisedRT := 0.0;
    }

    /** The whole source constructor: estimate the charge, extend the envelope below
        and above the starting chromatogram through `pool` (the file's chromatograms),
        lay it out and take the adduct window from the starting m/z. `None` stands for
        the constructor throwing, which it does when a correlation meets traces with
        different numbers of points in their common RT range. */
    static method Build(start: Chromatogram, ppm: real, pool: seq<Chromatogram>,
                        pearson: (seq<real>, seq<real>) -> real)
      returns (r: Option<PeakCluster>)
      requires Traced(Views(pool)) && |start.trace.items| > 0
      modifies pool`inCluster
      ensures forall i :: 0 <= i < |pool| ==> old(pool[i].inCluster) ==> pool[i].inCluster
      ensures var views := old(Views(pool));
        var sv := old(ViewOf(start));
        var ch := ChargeFrom(pool, views, start, sv, 3, PpmAbove(NEUTRON_MASS, ppm), ppm);
        var spacing := PpmAbove(NEUTRON_MASS, ppm) / (ch as real);
        var down := Chain(pool, views, start, sv, Search(false, spacing, pearson));
        var up := Chain(pool, views, start, sv, Search(true, spacing, pearson));
        && (r.Some? <==> down.Some? && up.Some?)
        && (r.Some? ==>
              var c := r.value;
              && fresh(c) && c.charge == ch && !c.inAlignedCluster && c.adductList == []
              && c.chromatograms == Reverse(Pick(pool, down.value)) + [start] + Pick(pool, up.value)
              && c.startingPointIndex == |down.value| && c.chromatograms[c.startingPointIndex] == start
              && c.targetMZAbove == PpmAbove(sv.mz, ppm) && c.targetMZBelow == PpmBelow(sv.mz, ppm)
              && forall i :: 0 <= i < |pool| ==>
                   pool[i].inCluster == (old(pool[i].inCluster) || pool[i] in Pick(pool, down.value) + Pick(pool, up.value)))
    {
      var c := new PeakCluster(ppm);
      var ok := c.Construct(start, ppm, pool, pearson, Views(pool), ViewOf(start));
      if !ok {
        return None;
      }
      return Some(c);
    }

    /** The constructor body after the field set-up. */
    method Construct(start: Chromatogram, ppm: real, pool: seq<Chromatogram>,
                     pearson: (seq<real>, seq<real>) -> real, ghost views: seq<View>, ghost sv: View)
      returns (ok: bool)
      requires Snapshot(pool, views) && Traced(views) && sv == ViewOf(start) && |sv.points| > 0
      requires chromatograms == [] && tempChroma == [] && neutronMassPpmAbove == PpmAbove(NEUTRON_MASS, ppm)
      modifies this`charge, this`tempChroma, this`chromatograms, this`startingPointIndex,
               this`targetMZAbove, this`targetMZBelow, pool`inCluster
      ensures forall i :: 0 <= i < |pool| ==> old(pool[i].inCluster) ==> pool[i].inCluster
      ensures var ch := ChargeFrom(pool, views, start, sv, 3, PpmAbove(NEUTRON_MASS, ppm), ppm);
        var spacing := PpmAbove(NEUTRON_MASS, ppm) / (ch as real);
        var down := Chain(pool, views, start, sv, Search(false, spacing, pearson));
        var up := Chain(pool, views, start, sv, Search(true, spacing, pearson));
        && charge == ch
        && (ok <==> down.Some? && up.Some?)
        && (ok ==>
              && chromatograms == Reverse(Pick(pool, down.value)) + [start] + Pick(pool, up.value)
              && startingPointIndex == |down.value|
              && targetMZAbove == PpmAbove(sv.mz, ppm) && targetMZBelow == PpmBelow(sv.mz, ppm)
              && forall i :: 0 <= i < |pool| ==>
                   pool[i].inCluster == (old(pool[i].inCluster) || pool[i] in Pick(pool, down.value) + Pick(pool, up.value)))
    {
      CheckCharge(start, pool, 3, ppm, views, sv);
      ok := Envelope(start, pool, pearson, views, sv, neutronMassPpmAbove / (charge as real));
      if !ok {
        return;
      }
      targetMZAbove := PpmAbove(chromatograms[startingPointIndex].meanMZ, ppm);
      targetMZBelow := PpmBelow(chromatograms[startingPointIndex].meanMZ, ppm);
    }

    /** The two searches of the constructor and the layout of their results: the
        chromatograms found below in ascending m/z, the starting point, then those
        found above. */
    method Envelope(start: Chromatogram, pool: seq<Chromatogram>, pearson: (seq<real>, seq<real>) -> real,
                    ghost views: seq<View>, ghost sv: View, ghost spacing: real)
      returns (ok: bool)
      requires Snapshot(pool, views) && Traced(views) && sv == ViewOf(start) && |sv.points| > 0 && charge >= 1
      requires spacing == neutronMassPpmAbove / (charge as real)
      requires chromatograms == [] && tempChroma == []
      modifies this`tempChroma, this`chromatograms, this`startingPointIndex, pool`inCluster
      ensures forall i :: 0 <= i < |pool| ==> old(pool[i].inCluster) ==> pool[i].inCluster
      ensures var down := Chain(pool, views, start, sv, Search(false, spacing, pearson));
        var up := Chain(pool, views, start, sv, Search(true, spacing, pearson));
        && (ok <==> down.Some? && up.Some?)
        && (ok ==>
              && chromatograms == Reverse(Pick(pool, down.value)) + [start] + Pick(pool, up.value)
              && startingPointIndex == |down.value|
              && 0 <= startingPointIndex < |chromatograms| && chromatograms[startingPointIndex] == start
              && forall i :: 0 <= i < |pool| ==>
                   pool[i].inCluster == (old(pool[i].inCluster) || pool[i] in Pick(pool, down.value) + Pick(pool, up.value)))
    {
      ok := SearchBelow(start, pool, pearson, views, sv, spacing);
      if !ok {
        return;
      }
      label Below:
      ok := SearchAbove(start, pool, pearson, views, sv, spacing);
      if !ok {
        return;
      }
      ghost var down := Chain(pool, views, start, sv, Search(false, spacing, pearson));
      ghost var up := Chain(pool, views, start, sv, Search(true, spacing, pearson));
      forall i | 0 <= i < |pool|
        ensures pool[i].inCluster == (old(pool[i].inCluster) || pool[i] in Pick(pool, down.value) + Pick(pool, up.value))
      {
        assert pool[i].inCluster == (old@Below(pool[i].inCluster) || pool[i] in Pick(pool, up.value));
      }
    }

    /** The search below the starting point, laid out in ascending m/z and followed by
        the starting point. */
    method SearchBelow(start: Chromatogram, pool: seq<Chromatogram>, pearson: (seq<real>, seq<real>) -> real,
                       ghost views: seq<View>, ghost sv: View, ghost spacing: real)
      returns (ok: bool)
      requires Snapshot(pool, views) && Traced(views) && sv == ViewOf(start) && |sv.points| > 0 && charge >= 1
      requires spacing == neutronMassPpmAbove / (charge as real)
      requires chromatograms == [] && tempChroma == []
      modifies this`tempChroma, this`chromatograms, this`startingPointIndex, pool`inCluster
      ensures forall i :: 0 <= i < |pool| ==> old(pool[i].inCluster) ==> pool[i].inCluster
      ensures var down := Chain(pool, views, start, sv, Search(false, spacing, pearson));
        && ok == down.Some?
        && (ok ==>
              && chromatograms == Reverse(Pick(pool, down.value)) + [start] && tempChroma == []
              && startingPointIndex == |down.value| && chromatograms[startingPointIndex] == start
              && forall i :: 0 <= i < |pool| ==>
                   pool[i].inCluster == (old(pool[i].inCluster) || pool[i] in Pick(pool, down.value)))
    {
      ghost var down := Chain(pool, views, start, sv, Search(false, spacing, pearson));
      ok := CheckAboveOrBelow(start, false, pool, pearson, views, sv);
      if ok {
        EmptyPrefix(Pick(pool, down.value));
        LayOutBelow(start);
      }
    }

    /** The search above the starting point, appended to the layout. */
    method SearchAbove(start: Chromatogram, pool: seq<Chromatogram>, pearson: (seq<real>, seq<real>) -> real,
                       ghost views: seq<View>, ghost sv: View, ghost spacing: real)
      returns (ok: bool)
      requires Snapshot(pool, views) && Traced(views) && sv == ViewOf(start) && |sv.points| > 0 && charge >= 1
      requires spacing == neutronMassPpmAbove / (charge as real)
      requires tempChroma == []
      modifies this`tempChroma, this`chromatograms, pool`inCluster
      ensures forall i :: 0 <= i < |pool| ==> old(pool[i].inCluster) ==> pool[i].inCluster
      ensures var up := Chain(pool, views, start, sv, Search(true, spacing, pearson));
        && ok == up.Some?
        && (ok ==>
              && chromatograms == old(chromatograms) + Pick(pool, up.value)
              && forall i :: 0 <= i < |pool| ==>
                   pool[i].inCluster == (old(pool[i].inCluster) || pool[i] in Pick(pool, up.value)))
    {
      ghost var up := Chain(pool, views, start, sv, Search(true, spacing, pearson));
      ok := CheckAboveOrBelow(start, true, pool, pearson, views, sv);
      if ok {
        EmptyPrefix(Pick(pool, up.value));
        AppendAbove();
      }
    }

    /** `checkCharge`: for each charge from `maxCharge` down to 1, add the other
        chromatograms within that isotope distance and 0.03 in RT to a list that is
        never cleared; the charge is the first one at which the list is non-empty,
        and 1 when it stays empty. */
    method CheckCharge(start: Chromatogram, pool: seq<Chromatogram>, maxCharge: int, ppm: real,
                       ghost views: seq<View>, ghost sv: View)
      requires Snapshot(pool, views) && sv == ViewOf(start)
      modifies this`charge
      ensures charge == ChargeFrom(pool, views, start, sv, maxCharge, neutronMassPpmAbove, ppm)
    {
      ghost var target := ChargeFrom(pool, views, start, sv, maxCharge, neutronMassPpmAbove, ppm);
      var chargeFound := false;
      var temp: seq<Chromatogram> := [];
      var i := maxCharge;
      while i > 0
        invariant i <= maxCharge
        invariant chargeFound ==> charge == target
        invariant !chargeFound ==> |temp| == 0 && target == ChargeFrom(pool, views, start, sv, i, neutronMassPpmAbove, ppm)
      {
        var hits := CollectHits(start, pool, i, ppm, views, sv);
        ChargeFromStep(pool, views, start, sv, i, neutronMassPpmAbove, ppm, hits);
        temp := temp + hits;
        if |temp| > 0 && !chargeFound {
          charge := i;
          chargeFound := true;
        }
        i := i - 1;
      }
      if !chargeFound {
        charge := 1;
      }
    }

    /** The inner loop of `checkCharge` for one charge `i`. */
    method CollectHits(start: Chromatogram, pool: seq<Chromatogram>, i: int, ppm: real,
                       ghost views: seq<View>, ghost sv: View)
      returns (hits: seq<Chromatogram>)
      requires Snapshot(pool, views) && sv == ViewOf(start) && i > 0
      ensures hits == Hits(pool, views, start, sv, i, neutronMassPpmAbove, ppm, |pool|)
    {
      var rt := start.startingPointRT;
      var mz := start.meanMZ;
      hits := [];
      var k := 0;
      while k < |pool|
        invariant 0 <= k <= |pool|
        invariant hits == Hits(pool, views, start, sv, i, neutronMassPpmAbove, ppm, k)
      {
        var c := pool[k];
        SnapshotAt(pool, views, k);
        ghost var hit := ChargeHit(pool, views, start, sv, i, neutronMassPpmAbove, ppm, k);
        assert hit <==> c != start && Abs(mz - c.meanMZ) < PpmAbove(neutronMassPpmAbove / (i as real), ppm)
                        && Abs(rt - c.startingPointRT) < 0.03;
        assert !hit ==> hits + [] == hits;
        if c != start {
          if Abs(mz - c.meanMZ) < neutronMassPpmAbove / (i as real) + ((neutronMassPpmAbove / (i as real)) / 1000000.0) * ppm {
            if Abs(rt - c.startingPointRT) < 0.03 {
              hits := hits + [c];
            }
          }
        }
        k := k + 1;
      }
    }

    /** `checkAboveOrBelow`: find the chromatograms accepted after `previous`; if there
        are any, flag the first one as in a cluster, append it to `tempChroma` and go
        on from it. `false` stands for a correlation throwing on the way. */
    method CheckAboveOrBelow(previous: Chromatogram, above: bool, pool: seq<Chromatogram>,
                             pearson: (seq<real>, seq<real>) -> real, ghost views: seq<View>, ghost pv: View)
      returns (ok: bool)
      requires Snapshot(pool, views) && Traced(views) && pv == ViewOf(previous) && |pv.points| > 0 && charge >= 1
      modifies this`tempChroma, pool`inCluster
      ensures forall i :: 0 <= i < |pool| ==> old(pool[i].inCluster) ==> pool[i].inCluster
      ensures var ch := Chain(pool, views, previous, pv, Search(above, neutronMassPpmAbove / (charge as real), pearson));
        && ok == ch.Some?
        && (ok ==> tempChroma == old(tempChroma) + Pick(pool, ch.value))
        && (ok ==> forall i :: 0 <= i < |pool| ==> pool[i].inCluster == (old(pool[i].inCluster) || pool[i] in Pick(pool, ch.value)))
      decreases CountBeyond(views, pv.mz, above), 1
    {
      ghost var s := Search(above, neutronMassPpmAbove / (charge as real), pearson);
      var temp, idx := ScanPool(previous, above, pool, pearson, views, pv);
      if temp.None? {
        return false;
      }
      var found := temp.value;
      if |found| == 0 {
        return true;
      }
      var next;
      if |found| == 1 {
        next := found[0];
      } else {
        var index := ClosestCandidate(previous, found);
        next := found[index];
      }
      assert next == pool[idx[0]];
      ok := Extend(previous, next, above, pool, pearson, views, pv, idx);
    }

    /** The tail of `checkAboveOrBelow` once `next`, the first of the candidates `c`,
        is chosen: flag it, append it and go on from it. */
    method Extend(previous: Chromatogram, next: Chromatogram, above: bool, pool: seq<Chromatogram>,
                  pearson: (seq<real>, seq<real>) -> real, ghost views: seq<View>, ghost pv: View, ghost c: seq<nat>)
      returns (ok: bool)
      requires Snapshot(pool, views) && Traced(views) && pv == ViewOf(previous) && |pv.points| > 0 && charge >= 1
      requires Candidates(pool, views, previous, pv, Search(above, neutronMassPpmAbove / (charge as real), pearson), |pool|)
               == Some(c)
      requires c != [] && c[0] < |pool| && next == pool[c[0]]
      modifies this`tempChroma, pool`inCluster
      ensures forall i :: 0 <= i < |pool| ==> old(pool[i].inCluster) ==> pool[i].inCluster
      ensures var ch := Chain(pool, views, previous, pv, Search(above, neutronMassPpmAbove / (charge as real), pearson));
        && ok == ch.Some?
        && (ok ==> tempChroma == old(tempChroma) + Pick(pool, ch.value))
        && (ok ==> forall i :: 0 <= i < |pool| ==> pool[i].inCluster == (old(pool[i].inCluster) || pool[i] in Pick(pool, ch.value)))
      decreases CountBeyond(views, pv.mz, above), 0
    {
      ghost var s := Search(above, neutronMassPpmAbove / (charge as real), pearson);
      ghost var j := c[0];
      assert (Chain(pool, views, previous, pv, s).Some? <==> Chain(pool, views, next, views[j], s).Some?)
          && CountBeyond(views, views[j].mz, above) < CountBeyond(views, pv.mz, above)
          && views[j] == ViewOf(next) && |views[j].points| > 0 by {
        ChainNext(pool, views, previous, pv, s, c);
        CountBeyondShrinks(views, pv.mz, j, above);
        SnapshotAt(pool, views, j);
      }
      Adopt(next, pool);
      ok := CheckAboveOrBelow(next, above, pool, pearson, views, views[j]);
      assert s == Search(above, neutronMassPpmAbove / (charge as real), pearson);
      if ok {
        ghost var rest := Chain(pool, views, next, views[j], s).value;
        assert Chain(pool, views, previous, pv, s).Some?
            && [next] + Pick(pool, rest) == Pick(pool, Chain(pool, views, previous, pv, s).value)
            && old(tempChroma) + [next] + Pick(pool, rest) == old(tempChroma) + Pick(pool, Chain(pool, views, previous, pv, s).value) by {
          ChainExtends(pool, views, previous, pv, s, c, next, rest, old(tempChroma));
        }
      }
    }

    /** Flag `next` and append it to the chromatograms found so far. */
    method Adopt(next: Chromatogram, pool: seq<Chromatogram>)
      modifies this`tempChroma, next`inCluster
      ensures tempChroma == old(tempChroma) + [next] && next.inCluster
      ensures forall i :: 0 <= i < |pool| ==> pool[i].inCluster == (old(pool[i].inCluster) || pool[i] == next)
    {
      next.SetInCluster();
      tempChroma := tempChroma + [next];
    }

    /** The loop over the candidates of `checkAboveOrBelow` meant to pick the one
        nearest the expected isotope m/z. It measures `temp.get(0)` at every step
        and never lowers its minimum, so the comparison is never true and it always
        picks the first candidate. */
    static method ClosestCandidate(previous: Chromatogram, temp: seq<Chromatogram>) returns (index: int)
      requires |temp| > 1
      ensures index == 0
    {
      var minDistance := Abs(temp[0].meanMZ - (previous.meanMZ + NEUTRON_MASS));
      index := 0;
      var i := 1;
      while i < |temp|
        invariant index == 0
      {
        if Abs(temp[0].meanMZ - (previous.meanMZ + NEUTRON_MASS)) < minDistance {
          index := i;
        }
        i := i + 1;
      }
    }

    /** The loop over the pool in `checkAboveOrBelow`: collect, in pool order, the
        chromatograms other than `previous` that pass the spacing and direction gate
        and correlate with it above 0.8. `None` is a correlation throwing. */
    method ScanPool(previous: Chromatogram, above: bool, pool: seq<Chromatogram>,
                    pearson: (seq<real>, seq<real>) -> real, ghost views: seq<View>, ghost pv: View)
      returns (temp: Option<seq<Chromatogram>>, ghost idx: seq<nat>)
      requires Snapshot(pool, views) && Traced(views) && pv == ViewOf(previous) && |pv.points| > 0 && charge >= 1
      ensures var cands := Candidates(pool, views, previous, pv,
                                      Search(above, neutronMassPpmAbove / (charge as real), pearson), |pool|);
        && temp == (if cands.None? then None else Some(Pick(pool, cands.value)))
        && (temp.Some? ==> cands == Some(idx))
    {
      ghost var s := Search(above, neutronMassPpmAbove / (charge as real), pearson);
      var found: seq<Chromatogram> := [];
      idx := [];
      var i: nat := 0;
      while i < |pool|
        invariant 0 <= i <= |pool|
        invariant Candidates(pool, views, previous, pv, s, i) == Some(idx)
        invariant found == Pick(pool, idx)
      {
        var c := pool[i];
        SnapshotAt(pool, views, i);
        var verdict := Examine(previous, c, above, pearson, pv, views[i]);
        CandidatesStep(pool, views, previous, pv, s, i, idx, verdict);
        if verdict.None? {
          CandidatesThrowStays(pool, views, previous, pv, s, i + 1, |pool|);
          return None, idx;
        }
        if verdict.value {
          found := found + [c];
          idx := idx + [i];
        }
        i := i + 1;
      }
      temp := Some(found);
    }

    /** The body of the pool loop of `checkAboveOrBelow` for one chromatogram `c`. */
    method Examine(previous: Chromatogram, c: Chromatogram, above: bool, pearson: (seq<real>, seq<real>) -> real,
                   ghost pv: View, ghost cv: View)
      returns (verdict: Option<bool>)
      requires pv == ViewOf(previous) && |pv.points| > 0 && cv == ViewOf(c) && |cv.points| > 0 && charge >= 1
      ensures verdict == Verdict(c, cv, previous, pv, Search(above, neutronMassPpmAbove / (charge as real), pearson))
    {
      var mz := previous.meanMZ;
      verdict := Some(false);
      if c != previous {
        if Abs(Abs(mz - c.meanMZ) - neutronMassPpmAbove / (charge as real)) < 0.05 && RecursiveCondition(above, c.meanMZ, mz) {
          var corr := CorrelateChromatograms(previous, c, pearson);
          if corr.None? {
            return None;
          }
          verdict := Some(corr.value > 0.8);
        }
      }
    }

    /** `correlateChromatograms`. */
    static method CorrelateChromatograms(a: Chromatogram, b: Chromatogram, pearson: (seq<real>, seq<real>) -> real)
      returns (r: Option<real>)
      requires |a.trace.items| > 0 && |b.trace.items| > 0
      ensures r == Correlation(ViewOf(a), ViewOf(b), pearson)
    {
      var ap := a.trace.items;
      var bp := b.trace.items;
      var minPoint := Larger(ap[0].rt, bp[0].rt);
      var maxPoint := Smaller(ap[|ap| - 1].rt, bp[|bp| - 1].rt);
      var aIntensities := OverlapIntensities(ap, minPoint, maxPoint);
      var bIntensities := OverlapIntensities(bp, minPoint, maxPoint);
      if |aIntensities| != |bIntensities| {
        return None;
      }
      if |aIntensities| < 2 {
        return Some(0.0);
      }
      return Some(pearson(aIntensities, bIntensities));
    }

    /** One of the two extraction loops of `correlateChromatograms`. */
    static method OverlapIntensities(s: seq<LocalPeak>, lo: real, hi: real) returns (r: seq<real>)
      ensures r == InRange(Points(s), lo, hi)
    {
      r := [];
      var i := 0;
      while i < |s|
        invariant 0 <= i <= |s|
        invariant r == InRange(Points(s[..i]), lo, hi)
      {
        assert Points(s[..i + 1])[..i] == Points(s[..i]);
        if s[i].rt >= lo && s[i].rt <= hi {
          r := r + [s[i].intensity];
        }
        i := i + 1;
      }
      assert s[..i] == s;
    }

    /** The reversal loop of the constructor: the chromatograms found below, nearest
        first, are laid out in ascending m/z and followed by the starting point. */
    method LayOutBelow(start: Chromatogram)
      requires chromatograms == []
      modifies this`chromatograms, this`startingPointIndex, this`tempChroma
      ensures chromatograms == Reverse(old(tempChroma)) + [start]
      ensures startingPointIndex == |old(tempChroma)| && tempChroma == []
    {
      ghost var below := tempChroma;
      var i := |tempChroma|;
      while i > 0
        invariant 0 <= i <= |tempChroma|
        invariant tempChroma == below
        invariant chromatograms == Reverse(tempChroma[i..])
      {
        assert Reverse(tempChroma[i - 1..]) == Reverse(tempChroma[i..]) + [tempChroma[i - 1]];
        chromatograms := chromatograms + [tempChroma[i - 1]];
        i := i - 1;
      }
      assert tempChroma[0..] == tempChroma;
      startingPointIndex := |chromatograms|;
      chromatograms := chromatograms + [start];
      tempChroma := [];
      assert chromatograms == Reverse(below) + [start];
    }

    /** The append loop of the constructor: the chromatograms found above follow. */
    method AppendAbove()
      modifies this`chromatograms
      ensures chromatograms == old(chromatograms) + tempChroma
    {
      var i := 0;
      while i < |tempChroma|
        invariant 0 <= i <= |tempChroma|
        invariant chromatograms == old(chromatograms) + tempChroma[..i]
      {
        chromatograms := chromatograms + [tempChroma[i]];
        i := i + 1;
      }
      assert tempChroma[..i] == tempChroma;
    }

    /** `findAdducts`: the adducts strictly inside the cluster's ppm window, in list
        order, up to the first one above it. */
    method FindAdducts(adducts: seq<Adduct>)
      modifies this`adductList
      ensures adductList == Windowed(adducts, targetMZBelow, targetMZAbove)
    {
      adductList := CollectInWindow(adducts, targetMZBelow, targetMZAbove);
    }

    /** `setInAlignedCluster`: a one-way flag. */
    method SetInAlignedCluster()
      modifies this`inAlignedCluster
      ensures inAlignedCluster
    {
      inAlignedCluster := true;
    }

    /** `setRescaledValues`: the starting chromatogram's m/z and RT, min-max rescaled.
        Equal bounds would divide by zero. */
    method SetRescaledValues(mzMax: real, mzMin: real, rtMax: real, rtMin: real)
      requires 0 <= startingPointIndex < |chromatograms| && mzMax != mzMin && rtMax != rtMin
      modifies this`normalisedMZ, this`normalisedRT
      ensures normalisedMZ == Rescale(chromatograms[startingPointIndex].meanMZ, mzMin, mzMax)
      ensures normalisedRT == Rescale(chromatograms[startingPointIndex].startingPointRT, rtMin, rtMax)
      ensures GetPoint() == [normalisedMZ, normalisedRT]
    {
      var mz := chromatograms[startingPointIndex].meanMZ;
      normalisedMZ := (mz - mzMin) / (mzMax - mzMin);
      var rt := chromatograms[startingPointIndex].startingPointRT;
      normalisedRT := (rt - rtMin) / (rtMax - rtMin);
    }

    /** `getPoint`: the rescaled coordinates the clustering sees. */
    function GetPoint(): seq<real>
      reads this`normalisedMZ, this`normalisedRT
    {
      [normalisedMZ, normalisedRT]
    }
  }

  /** Min-max rescaling of `v` onto the unit interval; undone by scaling back. */
  function Rescale(v: real, lo: real, hi: real): (r: real)
    requires hi != lo
    ensures r * (hi - lo) + lo == v
  {
    (v - lo) / (hi - lo)
  }

  /** A value inside the bounds rescales into `[0, 1]`, the lower bound to 0 and the
      upper to 1. */
  lemma RescaleInUnitInterval(v: real, lo: real, hi: real)
    requires lo < hi && lo <= v <= hi
    ensures 0.0 <= Rescale(v, lo, hi) <= 1.0
    ensures Rescale(lo, lo, hi) == 0.0 && Rescale(hi, lo, hi) == 1.0
  {
    DivideBounds(v - lo, hi - lo, 0.0, 1.0);
  }
}
