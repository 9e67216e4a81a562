/** The driver loops of `Main`: chromatograms seeded from the significant peaks in
    list order, clusters seeded from the chromatograms, and the in-place removal of
    the clusters whose starting chromatogram is not a valid starting point. */
module Pipeline {
  import opened Common
  import opened Spectra
  import opened LocalPeaks
  import opened TraceSpec
  import opened ChromatogramRules
  import opened Chromatograms
  import opened IsotopeRules
  import opened PeakClusters

  /** Strictly increasing positions. */
  predicate Increasing(s: seq<nat>)
  {
    forall i, j :: 0 <= i < j < |s| ==> s[i] < s[j]
  }

  /** Every point lies in one of the scans. */
  predicate InScans(scans: seq<Scan>, data: seq<Point>)
  {
    forall k :: 0 <= k < |data| ==> 0 <= data[k].scan < |scans|
  }

  /** What growing a chromatogram from a seed does to the peak list: the new `isUsed`
      flags, and whether the constructor returned normally. */
  datatype Growth = Growth(flags: seq<bool>, built: bool)

  /** `grow` keeps the length of the flag list and only ever sets flags. */
  ghost predicate Grows(grow: (Point, seq<bool>) -> Growth, n: nat)
  {
    forall p, f :: |f| == n ==> |grow(p, f).flags| == n && forall j :: 0 <= j < n && f[j] ==> grow(p, f).flags[j]
  }

  /** The chromatogram constructor on `scans` and the list `data`: it grows the trace
      around the seed, flagging the peaks it takes, and returns normally when both
      walks ended in range and the isobars can be cut. */
  ghost function GrowTrace(scans: seq<Scan>, data: seq<Point>, tol: real, thresh: real,
                           smoothMinima: (seq<real>, seq<real>) -> seq<real>, seed: Point, flags: seq<bool>): Growth
  {
    if AllWellFormed(scans) && 0 <= seed.scan < |scans| && |flags| == |data| then
      var t := TracePeak(scans, seed, tol, thresh, data, flags);
      Growth(t.flags, t.ok && Cuttable(|Layout(t, seed)|, Boundaries(Layout(t, seed), smoothMinima)))
    else Growth(flags, false)
  }

  ghost function Grower(scans: seq<Scan>, data: seq<Point>, tol: real, thresh: real,
                        smoothMinima: (seq<real>, seq<real>) -> seq<real>): (Point, seq<bool>) -> Growth
  {
    (seed, flags) => GrowTrace(scans, data, tol, thresh, smoothMinima, seed, flags)
  }

  /** `grow` is the chromatogram constructor on these scans and peaks. The equation is
      only unfolded where a `GrowTrace` term is in play, so that the loops that merely
      pass `grow` along never look inside the trace. */
  ghost predicate Models(grow: (Point, seq<bool>) -> Growth, scans: seq<Scan>, data: seq<Point>, tol: real,
                         thresh: real, smoothMinima: (seq<real>, seq<real>) -> seq<real>)
  {
    forall p, f {:trigger GrowTrace(scans, data, tol, thresh, smoothMinima, p, f)} ::
      grow(p, f) == GrowTrace(scans, data, tol, thresh, smoothMinima, p, f)
  }

  /** The chromatogram constructor only ever sets flags. */
  lemma GrowerGrows(scans: seq<Scan>, data: seq<Point>, tol: real, thresh: real,
                    smoothMinima: (seq<real>, seq<real>) -> seq<real>)
    ensures Grows(Grower(scans, data, tol, thresh, smoothMinima), |data|)
  {
    var grow := Grower(scans, data, tol, thresh, smoothMinima);
    forall p, f | |f| == |data|
      ensures |grow(p, f).flags| == |data| && forall j :: 0 <= j < |data| && f[j] ==> grow(p, f).flags[j]
    {
      if AllWellFormed(scans) && 0 <= p.scan < |scans| {
        TraceFlags(scans, p, tol, thresh, data, f);
      }
    }
  }

  /** The outcome of the chromatogram seed loop: the list positions that seeded a
      chromatogram, the final `isUsed` flags, and whether a constructor threw. */
  datatype Seeding = Seeding(seeds: seq<nat>, flags: seq<bool>, failed: bool)

  /** The seed loop from list position `i` on: a peak already used when the loop
      reaches it is skipped; any other seeds a chromatogram, whose growth flags the
      peaks it takes before the loop moves on. */
  ghost function Seed(data: seq<Point>, flags: seq<bool>, i: nat, grow: (Point, seq<bool>) -> Growth): (r: Seeding)
    requires i <= |data|
    decreases |data| - i
  {
    if i == |data| then Seeding([], flags, false)
    else if i < |flags| && flags[i] then Seed(data, flags, i + 1, grow)
    else
      var g := grow(data[i], flags);
      if !g.built then Seeding([i], g.flags, true)
      else
        var rest := Seed(data, g.flags, i + 1, grow);
        Seeding([i] + rest.seeds, rest.flags, rest.failed)
  }

  /** Under a growth that keeps the list length, so does the seed loop. */
  lemma {:induction false} SeedLength(data: seq<Point>, flags: seq<bool>, i: nat, grow: (Point, seq<bool>) -> Growth)
    requires Grows(grow, |data|) && |flags| == |data| && i <= |data|
    ensures |Seed(data, flags, i, grow).flags| == |data|
    decreases |data| - i
  {
    if i < |data| {
      if flags[i] {
        SeedLength(data, flags, i + 1, grow);
      } else if grow(data[i], flags).built {
        SeedLength(data, grow(data[i], flags).flags, i + 1, grow);
      }
    }
  }

  /** The seed loop only ever sets flags. */
  lemma {:induction false} SeedMonotone(data: seq<Point>, flags: seq<bool>, i: nat, grow: (Point, seq<bool>) -> Growth)
    requires Grows(grow, |data|) && |flags| == |data| && i <= |data|
    ensures var r := Seed(data, flags, i, grow);
      |r.flags| == |data| && forall j :: 0 <= j < |data| && flags[j] ==> r.flags[j]
    decreases |data| - i
  {
    SeedLength(data, flags, i, grow);
    if i < |data| {
      if flags[i] {
        SeedMonotone(data, flags, i + 1, grow);
      } else if grow(data[i], flags).built {
        SeedMonotone(data, grow(data[i], flags).flags, i + 1, grow);
      }
    }
  }

  /** The seeds lie at or after `i`, each unused on entry to the loop. */
  lemma {:induction false} SeedsUnused(data: seq<Point>, flags: seq<bool>, i: nat, grow: (Point, seq<bool>) -> Growth)
    requires Grows(grow, |data|) && |flags| == |data| && i <= |data|
    ensures forall s :: s in Seed(data, flags, i, grow).seeds ==> i <= s < |data| && !flags[s]
    decreases |data| - i
  {
    if i < |data| {
      if flags[i] {
        SeedsUnused(data, flags, i + 1, grow);
      } else if grow(data[i], flags).built {
        SeedsUnused(data, grow(data[i], flags).flags, i + 1, grow);
      }
    }
  }

  /** The seeds come in list order. */
  lemma {:induction false} SeedsIncreasing(data: seq<Point>, flags: seq<bool>, i: nat, grow: (Point, seq<bool>) -> Growth)
    requires Grows(grow, |data|) && |flags| == |data| && i <= |data|
    ensures Increasing(Seed(data, flags, i, grow).seeds)
    decreases |data| - i
  {
    if i < |data| {
      if flags[i] {
        SeedsIncreasing(data, flags, i + 1, grow);
      } else if grow(data[i], flags).built {
        var g := grow(data[i], flags);
        SeedsIncreasing(data, g.flags, i + 1, grow);
        SeedsUnused(data, g.flags, i + 1, grow);
        PrependIncreasing(i, Seed(data, g.flags, i + 1, grow).seeds);
      }
    }
  }

  lemma PrependIncreasing(i: nat, rest: seq<nat>)
    requires Increasing(rest) && forall s :: s in rest ==> i < s
    ensures Increasing([i] + rest)
  {
    forall a, b | 0 <= a < b < |rest| + 1
      ensures ([i] + rest)[a] < ([i] + rest)[b]
    {
      assert ([i] + rest)[b] == rest[b - 1] && rest[b - 1] in rest;
      if a > 0 {
        assert ([i] + rest)[a] == rest[a - 1];
      }
    }
  }

  /** When no constructor throws, every position the loop passes over without seeding
      ends up used: it was used when the loop reached it. */
  lemma {:induction false} SeedCovers(data: seq<Point>, flags: seq<bool>, i: nat, grow: (Point, seq<bool>) -> Growth)
    requires Grows(grow, |data|) && |flags| == |data| && i <= |data|
    ensures var r := Seed(data, flags, i, grow);
      |r.flags| == |data| && (!r.failed ==> forall j :: i <= j < |data| && j !in r.seeds ==> r.flags[j])
    decreases |data| - i
  {
    SeedLength(data, flags, i, grow);
    if i < |data| {
      if flags[i] {
        SeedCovers(data, flags, i + 1, grow);
        SeedMonotone(data, flags, i + 1, grow);
      } else if grow(data[i], flags).built {
        SeedCovers(data, grow(data[i], flags).flags, i + 1, grow);
      }
    }
  }

  /** `c` is a fresh-looking chromatogram grown from `seed` with the given parameters:
      the seed sits at its starting point and it is not yet in a cluster. */
  predicate Seeded(c: Chromatogram, seed: LocalPeak, tol: real, thresh: real)
    reads c, c.trace
  {
    && 0 <= c.startingPointIndex < |c.trace.items| && c.trace.items[c.startingPointIndex] == seed
    && |c.trace.items| > 0 && !c.inCluster && c.tolerance == tol && c.threshold == thresh
  }

  /** `goal` is the whole seed loop's outcome, and `seeds` the seeds it has found
      before position `i`, where the flags are `flags`. */
  ghost predicate Remaining(goal: Seeding, seeds: seq<nat>, data: seq<Point>, flags: seq<bool>, i: nat,
                            grow: (Point, seq<bool>) -> Growth)
  {
    // stated through a trigger on `Seed`, so that the seed loop is only unfolded
    // where a step mentions it
    && i <= |data|
    && forall n: nat {:trigger Seed(data, flags, n, grow)} :: n == i ==>
         var s := Seed(data, flags, n, grow);
         goal.seeds == seeds + s.seeds && goal.flags == s.flags && goal.failed == s.failed
  }

  /** Passing over a used peak leaves the remaining work unchanged. */
  lemma RemainingSkip(goal: Seeding, seeds: seq<nat>, data: seq<Point>, flags: seq<bool>, i: nat,
                      grow: (Point, seq<bool>) -> Growth)
    requires i < |flags| && i < |data| && flags[i]
    requires Remaining(goal, seeds, data, flags, i, grow)
    ensures Remaining(goal, seeds, data, flags, i + 1, grow)
  {
    assert Seed(data, flags, i, grow) == Seed(data, flags, i + 1, grow);
  }

  /** Seeding a chromatogram from an unused peak that is built records the seed. */
  lemma RemainingGrow(goal: Seeding, seeds: seq<nat>, data: seq<Point>, flags: seq<bool>, i: nat,
                      grow: (Point, seq<bool>) -> Growth)
    requires i < |flags| && i < |data| && !flags[i] && grow(data[i], flags).built
    requires Remaining(goal, seeds, data, flags, i, grow)
    ensures Remaining(goal, seeds + [i], data, grow(data[i], flags).flags, i + 1, grow)
  {
    var rest := Seed(data, grow(data[i], flags).flags, i + 1, grow);
    assert Seed(data, flags, i, grow).seeds == [i] + rest.seeds;
    assert seeds + ([i] + rest.seeds) == (seeds + [i]) + rest.seeds;
  }

  /** A constructor that throws ends the loop as a failure. */
  lemma RemainingFail(goal: Seeding, seeds: seq<nat>, data: seq<Point>, flags: seq<bool>, i: nat,
                      grow: (Point, seq<bool>) -> Growth)
    requires i < |flags| && i < |data| && !flags[i] && !grow(data[i], flags).built
    requires Remaining(goal, seeds, data, flags, i, grow)
    ensures goal.failed && goal.flags == grow(data[i], flags).flags
  {
    assert Seed(data, flags, i, grow) == Seeding([i], grow(data[i], flags).flags, true);
  }

  /** At the end of the list all the work is done. */
  lemma RemainingDone(goal: Seeding, seeds: seq<nat>, data: seq<Point>, flags: seq<bool>,
                      grow: (Point, seq<bool>) -> Growth)
    requires Remaining(goal, seeds, data, flags, |data|, grow)
    ensures goal.seeds == seeds && goal.flags == flags && !goal.failed
  {
    assert Seed(data, flags, |data|, grow) == Seeding([], flags, false);
  }

  /** The chromatogram loop of `main`: in list order, every peak still unused when the
      loop reaches it seeds a chromatogram, which flags the peaks of its trace.
      `None` stands for a chromatogram constructor throwing. */
  method StartChromatograms(scans: seq<Scan>, peaks: PeakList, tol: real, thresh: real,
                            smoothMinima: (seq<real>, seq<real>) -> seq<real>)
    returns (r: Option<seq<Chromatogram>>)
    requires AllWellFormed(scans) && Distinct(peaks.items) && InScans(scans, Points(peaks.items))
    modifies peaks.items
    ensures peaks.items == old(peaks.items)
    ensures var s := Seed(Points(peaks.items), old(Flags(peaks.items)), 0, Grower(scans, Points(peaks.items), tol, thresh, smoothMinima));
      && Flags(peaks.items) == s.flags
      && (r.Some? <==> !s.failed)
      && (r.Some? ==> AllSeeded(r.value, s.seeds, peaks.items, |peaks.items|, tol, thresh))
    ensures r.Some? ==> forall k :: 0 <= k < |r.value| ==> fresh(r.value[k])
  {
    ghost var grow := Grower(scans, Points(peaks.items), tol, thresh, smoothMinima);
    assert Models(grow, scans, Points(peaks.items), tol, thresh, smoothMinima);
    ghost var goal := Seed(Points(peaks.items), Flags(peaks.items), 0, grow);
    r := SeedLoop(scans, peaks, tol, thresh, smoothMinima, grow, goal);
  }

  /** The loop of `StartChromatograms`, against the seed loop's outcome `goal`. */
  method SeedLoop(scans: seq<Scan>, peaks: PeakList, tol: real, thresh: real,
                  smoothMinima: (seq<real>, seq<real>) -> seq<real>,
                  ghost grow: (Point, seq<bool>) -> Growth, ghost goal: Seeding)
    returns (r: Option<seq<Chromatogram>>)
    requires AllWellFormed(scans) && Distinct(peaks.items) && InScans(scans, Points(peaks.items))
    requires Models(grow, scans, Points(peaks.items), tol, thresh, smoothMinima)
    requires goal == Seed(Points(peaks.items), Flags(peaks.items), 0, grow)
    modifies peaks.items
    ensures peaks.items == old(peaks.items)
    ensures Flags(peaks.items) == goal.flags
    ensures r.Some? <==> !goal.failed
    ensures r.Some? ==> AllSeeded(r.value, goal.seeds, peaks.items, |peaks.items|, tol, thresh)
    ensures r.Some? ==> forall k :: 0 <= k < |r.value| ==> fresh(r.value[k])
  {
    ghost var data := Points(peaks.items);
    ghost var flags := Flags(peaks.items);
    ghost var seeds: seq<nat> := [];
    var chromatograms: seq<Chromatogram> := [];
    var i: nat := 0;
    while i < |peaks.items|
      invariant peaks.items == old(peaks.items) && data == Points(peaks.items)
      invariant Progress(goal, seeds, peaks.items, data, flags, i, grow, chromatograms, tol, thresh)
      invariant forall k :: 0 <= k < |chromatograms| ==> fresh(chromatograms[k])
    {
      var ok, added;
      ok, added, seeds, flags := SeedStep(scans, peaks, i, tol, thresh, smoothMinima, chromatograms, seeds, grow, goal, data, flags);
      if !ok {
        return None;
      }
      chromatograms := chromatograms + added;
      i := i + 1;
    }
    ProgressDone(goal, seeds, peaks.items, data, flags, grow, chromatograms, tol, thresh);
    r := Some(chromatograms);
  }

  /** The chromatograms made so far were seeded, in order, from the peaks at `seeds`,
      all before position `i`. */
  predicate AllSeeded(chromatograms: seq<Chromatogram>, seeds: seq<nat>, items: seq<LocalPeak>, i: nat,
                      tol: real, thresh: real)
    reads chromatograms, set c | c in chromatograms :: c.trace
  {
    |chromatograms| == |seeds| && forall k :: 0 <= k < |seeds| ==>
      seeds[k] < i && seeds[k] < |items| && Seeded(chromatograms[k], items[seeds[k]], tol, thresh)
  }

  /** The state of the chromatogram loop at position `i`: `flags` are the peaks'
      flags, the seed loop's outcome `goal` is what is done plus what remains, and
      the chromatograms made so far match the seeds found. */
  ghost predicate Progress(goal: Seeding, seeds: seq<nat>, items: seq<LocalPeak>, data: seq<Point>,
                           flags: seq<bool>, i: nat, grow: (Point, seq<bool>) -> Growth,
                           chromatograms: seq<Chromatogram>, tol: real, thresh: real)
    reads items, chromatograms, set c | c in chromatograms :: c.trace
  {
    && i <= |data| && flags == Flags(items)
    && Remaining(goal, seeds, data, flags, i, grow)
    && AllSeeded(chromatograms, seeds, items, i, tol, thresh)
  }

  /** At the end of the list the loop has done all the work of `goal`. */
  lemma ProgressDone(goal: Seeding, seeds: seq<nat>, items: seq<LocalPeak>, data: seq<Point>,
                     flags: seq<bool>, grow: (Point, seq<bool>) -> Growth,
                     chromatograms: seq<Chromatogram>, tol: real, thresh: real)
    requires |data| == |items| && Progress(goal, seeds, items, data, flags, |data|, grow, chromatograms, tol, thresh)
    ensures goal.flags == Flags(items) && !goal.failed && AllSeeded(chromatograms, goal.seeds, items, |items|, tol, thresh)
  {
    RemainingDone(goal, seeds, data, flags, grow);
  }

  /** One pass of the chromatogram loop, at position `i`. */
  method SeedStep(scans: seq<Scan>, peaks: PeakList, i: nat, tol: real, thresh: real,
                  smoothMinima: (seq<real>, seq<real>) -> seq<real>, chromatograms: seq<Chromatogram>,
                  ghost seeds: seq<nat>, ghost grow: (Point, seq<bool>) -> Growth, ghost goal: Seeding,
                  ghost data: seq<Point>, ghost flags: seq<bool>)
    returns (ok: bool, added: seq<Chromatogram>, ghost seeds': seq<nat>, ghost flags': seq<bool>)
    requires AllWellFormed(scans) && Distinct(peaks.items) && InScans(scans, Points(peaks.items)) && i < |peaks.items|
    requires Models(grow, scans, Points(peaks.items), tol, thresh, smoothMinima) && data == Points(peaks.items)
    requires Progress(goal, seeds, peaks.items, data, flags, i, grow, chromatograms, tol, thresh)
    modifies peaks.items
    ensures peaks.items == old(peaks.items)
    ensures ok ==> Progress(goal, seeds', peaks.items, data, flags', i + 1, grow, chromatograms + added, tol, thresh)
    ensures |added| <= 1 && forall k :: 0 <= k < |added| ==> fresh(added[k])
    ensures !ok ==> goal.failed && goal.flags == flags' && flags' == Flags(peaks.items)
  {
    ok, added, seeds', flags' := true, [], seeds, flags;
    if !peaks.items[i].isUsed {
      var c := GrowChromatogram(scans, peaks, i, tol, thresh, smoothMinima, chromatograms, seeds, grow, flags);
      flags' := grow(data[i], flags).flags;
      if c.None? {
        RemainingFail(goal, seeds, data, flags, i, grow);
        return false, [], seeds, flags';
      }
      RemainingGrow(goal, seeds, data, flags, i, grow);
      added := [c.value];
      seeds' := seeds + [i];
    } else {
      RemainingSkip(goal, seeds, data, flags, i, grow);
    }
  }

  /** One step of the chromatogram loop: the constructor on the peak at `i`, stated
      through the growth function `grow`. */
  method GrowChromatogram(scans: seq<Scan>, peaks: PeakList, i: nat, tol: real, thresh: real,
                          smoothMinima: (seq<real>, seq<real>) -> seq<real>,
                          ghost done: seq<Chromatogram>, ghost seeds: seq<nat>,
                          ghost grow: (Point, seq<bool>) -> Growth, ghost flags: seq<bool>)
    returns (c: Option<Chromatogram>)
    requires AllWellFormed(scans) && Distinct(peaks.items) && InScans(scans, Points(peaks.items)) && i < |peaks.items|
    requires Models(grow, scans, Points(peaks.items), tol, thresh, smoothMinima) && flags == Flags(peaks.items)
    requires |done| == |seeds| && forall k :: 0 <= k < |seeds| ==>
      seeds[k] < |peaks.items| && Seeded(done[k], peaks.items[seeds[k]], tol, thresh)
    modifies peaks.items
    ensures peaks.items == old(peaks.items)
    ensures Flags(peaks.items) == grow(peaks.items[i].Data(), flags).flags
    ensures c.Some? <==> grow(peaks.items[i].Data(), flags).built
    ensures c.Some? ==> fresh(c.value) && Seeded(c.value, peaks.items[i], tol, thresh)
    ensures forall k :: 0 <= k < |seeds| ==> Seeded(done[k], peaks.items[seeds[k]], tol, thresh)
  {
    var peak := peaks.items[i];
    assert 0 <= peak.Data().scan < |scans|;
    ghost var g := GrowTrace(scans, Points(peaks.items), tol, thresh, smoothMinima, peak.Data(), flags);
    c := Chromatogram.Build(scans, peak, tol, thresh, peaks, smoothMinima);
  }

  // ---------------------------------------------------------------------------
  // Clusters seeded from the chromatograms

  /** The chromatogram lists of the clusters. */
  function Groups(clusters: seq<PeakCluster>): (r: seq<seq<Chromatogram>>)
    reads clusters
    ensures |r| == |clusters| && forall k :: 0 <= k < |clusters| ==> r[k] == clusters[k].chromatograms
  {
    seq(|clusters|, k requires 0 <= k < |clusters| reads clusters => clusters[k].chromatograms)
  }

  /** `c` is laid out around `start`. */
  predicate StartsAt(c: PeakCluster, start: Chromatogram)
    reads c
  {
    0 <= c.startingPointIndex < |c.chromatograms| && c.chromatograms[c.startingPointIndex] == start
  }

  /** Some group holds `x`. */
  ghost predicate Grouped(x: Chromatogram, groups: seq<seq<Chromatogram>>)
  {
    exists k :: 0 <= k < |groups| && x in groups[k]
  }

  /** The state of the cluster loop at position `i`, where the flags started as
      `flags0` and now are `flags`, and the clusters built so far, seeded at
      `starts`, hold the chromatograms `groups`:
      - a cluster is seeded at a position the loop has passed, whose chromatogram
        was free on entry and belongs to its own cluster;
      - flags are only ever set, and every position passed is flagged;
      - every member of a cluster is flagged, and every flag was set on entry or
        belongs to a cluster;
      - a position passed over without seeding was flagged on entry or belongs
        to a cluster seeded before it;
      - no cluster holds the starting chromatogram of a later one. */
  ghost predicate Clustered(chroms: seq<Chromatogram>, flags: seq<bool>, groups: seq<seq<Chromatogram>>,
                            starts: seq<nat>, i: nat, flags0: seq<bool>)
  {
    && i <= |chroms| && |flags| == |chroms| && |flags0| == |chroms| && |groups| == |starts|
    && SeedsFree(chroms, groups, starts, i, flags0)
    && (forall j :: 0 <= j < |chroms| && flags0[j] ==> flags[j])
    && (forall j :: 0 <= j < i ==> flags[j])
    && MembersFlagged(chroms, flags, groups)
    && FlagsExplained(chroms, flags, groups, flags0)
    && PassedOver(chroms, groups, starts, i, flags0)
    && StartsFresh(chroms, groups, starts)
  }

  ghost predicate SeedsFree(chroms: seq<Chromatogram>, groups: seq<seq<Chromatogram>>, starts: seq<nat>,
                            i: nat, flags0: seq<bool>)
    requires |groups| == |starts| && |flags0| == |chroms|
  {
    && Increasing(starts)
    && forall k :: 0 <= k < |starts| ==> starts[k] < i <= |chroms| && !flags0[starts[k]] && chroms[starts[k]] in groups[k]
  }

  ghost predicate MembersFlagged(chroms: seq<Chromatogram>, flags: seq<bool>, groups: seq<seq<Chromatogram>>)
    requires |flags| == |chroms|
  {
    forall k, j :: 0 <= k < |groups| && 0 <= j < |chroms| && chroms[j] in groups[k] ==> flags[j]
  }

  ghost predicate FlagsExplained(chroms: seq<Chromatogram>, flags: seq<bool>, groups: seq<seq<Chromatogram>>,
                                 flags0: seq<bool>)
    requires |flags| == |chroms| == |flags0|
  {
    forall j :: 0 <= j < |chroms| && flags[j] ==> flags0[j] || Grouped(chroms[j], groups)
  }

  ghost predicate PassedOver(chroms: seq<Chromatogram>, groups: seq<seq<Chromatogram>>, starts: seq<nat>,
                             i: nat, flags0: seq<bool>)
    requires |groups| == |starts| && |flags0| == |chroms| && i <= |chroms|
  {
    forall j :: 0 <= j < i && j !in starts ==>
      flags0[j] || exists k :: 0 <= k < |starts| && starts[k] < j && chroms[j] in groups[k]
  }

  ghost predicate StartsFresh(chroms: seq<Chromatogram>, groups: seq<seq<Chromatogram>>, starts: seq<nat>)
    requires |groups| == |starts| && forall k :: 0 <= k < |starts| ==> starts[k] < |chroms|
  {
    forall k, m :: 0 <= m < k < |starts| ==> chroms[starts[k]] !in groups[m]
  }

  /** What the finished cluster loop guarantees: every chromatogram ends up flagged;
      one that was free on entry belongs to a cluster; one passed over without
      seeding was flagged on entry or taken in by a cluster seeded before it; and no
      cluster takes in the starting chromatogram of a later one. */
  lemma ClusteredAll(chroms: seq<Chromatogram>, flags: seq<bool>, groups: seq<seq<Chromatogram>>,
                     starts: seq<nat>, flags0: seq<bool>)
    requires Clustered(chroms, flags, groups, starts, |chroms|, flags0)
    ensures forall j :: 0 <= j < |chroms| ==> flags[j]
    ensures forall j :: 0 <= j < |chroms| && !flags0[j] ==> Grouped(chroms[j], groups)
    ensures forall j :: 0 <= j < |chroms| && j !in starts ==>
      flags0[j] || exists k :: 0 <= k < |starts| && starts[k] < j && chroms[j] in groups[k]
    ensures forall k, m :: 0 <= m < k < |starts| ==> chroms[starts[k]] !in groups[m]
  {
  }

  /** The parts of `Clustered` that the cluster loop promises about the flags and
      the seeds. */
  lemma ClusteredKept(chroms: seq<Chromatogram>, flags: seq<bool>, groups: seq<seq<Chromatogram>>,
                      starts: seq<nat>, i: nat, flags0: seq<bool>)
    requires Clustered(chroms, flags, groups, starts, i, flags0)
    ensures forall j :: 0 <= j < |chroms| && flags0[j] ==> flags[j]
    ensures Increasing(starts) && forall k :: 0 <= k < |starts| ==> starts[k] < |chroms| && !flags0[starts[k]]
  {
  }

  /** Nothing is clustered before the loop starts. */
  lemma ClusteredStart(chroms: seq<Chromatogram>, flags0: seq<bool>)
    requires |flags0| == |chroms|
    ensures Clustered(chroms, flags0, [], [], 0, flags0)
  {
  }

  /** Passing over a flagged chromatogram. */
  lemma ClusteredSkip(chroms: seq<Chromatogram>, flags: seq<bool>, groups: seq<seq<Chromatogram>>,
                      starts: seq<nat>, i: nat, flags0: seq<bool>)
    requires Clustered(chroms, flags, groups, starts, i, flags0) && i < |chroms| && flags[i]
    ensures Clustered(chroms, flags, groups, starts, i + 1, flags0)
  {
    assert SeedsFree(chroms, groups, starts, i + 1, flags0);
    PassedOverSkip(chroms, flags, groups, starts, i, flags0);
  }

  lemma PassedOverSkip(chroms: seq<Chromatogram>, flags: seq<bool>, groups: seq<seq<Chromatogram>>,
                       starts: seq<nat>, i: nat, flags0: seq<bool>)
    requires Clustered(chroms, flags, groups, starts, i, flags0) && i < |chroms| && flags[i]
    ensures PassedOver(chroms, groups, starts, i + 1, flags0)
  {
    forall j | 0 <= j < i + 1 && j !in starts
      ensures flags0[j] || exists k :: 0 <= k < |starts| && starts[k] < j && chroms[j] in groups[k]
    {
      if j == i && !flags0[i] {
        assert FlagsExplained(chroms, flags, groups, flags0);
        var k :| 0 <= k < |groups| && chroms[i] in groups[k];
        assert starts[k] < i;
      }
    }
  }

  /** Seeding a cluster at a free chromatogram: the new group `g` holds it, and the
      flags after are the flags before together with the members of `g`. */
  lemma ClusteredAdd(chroms: seq<Chromatogram>, flags: seq<bool>, groups: seq<seq<Chromatogram>>,
                     starts: seq<nat>, i: nat, flags0: seq<bool>, g: seq<Chromatogram>, flags': seq<bool>)
    requires Clustered(chroms, flags, groups, starts, i, flags0) && i < |chroms| && !flags[i] && chroms[i] in g
    requires |flags'| == |chroms| && forall j :: 0 <= j < |chroms| ==> flags'[j] == (flags[j] || chroms[j] in g)
    ensures Clustered(chroms, flags', groups + [g], starts + [i], i + 1, flags0)
  {
    SeedsFreeAdd(chroms, groups, starts, i, flags0, g);
    MembersFlaggedAdd(chroms, flags, groups, g, flags');
    FlagsExplainedAdd(chroms, flags, groups, flags0, g, flags');
    PassedOverAdd(chroms, groups, starts, i, flags0, g);
    StartsFreshAdd(chroms, flags, groups, starts, i, g);
  }

  lemma SeedsFreeAdd(chroms: seq<Chromatogram>, groups: seq<seq<Chromatogram>>, starts: seq<nat>,
                     i: nat, flags0: seq<bool>, g: seq<Chromatogram>)
    requires |groups| == |starts| && |flags0| == |chroms| && i < |chroms| && !flags0[i] && chroms[i] in g
    requires SeedsFree(chroms, groups, starts, i, flags0)
    ensures SeedsFree(chroms, groups + [g], starts + [i], i + 1, flags0)
  {
    var groups', starts' := groups + [g], starts + [i];
    forall a, b | 0 <= a < b < |starts'|
      ensures starts'[a] < starts'[b]
    {
      assert starts'[a] == starts[a];
      if b < |starts| {
        assert starts'[b] == starts[b];
      }
    }
    forall k | 0 <= k < |starts'|
      ensures starts'[k] < i + 1 && !flags0[starts'[k]] && chroms[starts'[k]] in groups'[k]
    {
      if k < |starts| {
        assert starts'[k] == starts[k] && groups'[k] == groups[k];
      }
    }
  }

  lemma MembersFlaggedAdd(chroms: seq<Chromatogram>, flags: seq<bool>, groups: seq<seq<Chromatogram>>,
                          g: seq<Chromatogram>, flags': seq<bool>)
    requires |flags| == |chroms| && MembersFlagged(chroms, flags, groups)
    requires |flags'| == |chroms| && forall j :: 0 <= j < |chroms| ==> flags'[j] == (flags[j] || chroms[j] in g)
    ensures MembersFlagged(chroms, flags', groups + [g])
  {
    forall k, j | 0 <= k < |groups| + 1 && 0 <= j < |chroms| && chroms[j] in (groups + [g])[k]
      ensures flags'[j]
    {
      if k < |groups| {
        assert (groups + [g])[k] == groups[k];
      }
    }
  }

  lemma FlagsExplainedAdd(chroms: seq<Chromatogram>, flags: seq<bool>, groups: seq<seq<Chromatogram>>,
                          flags0: seq<bool>, g: seq<Chromatogram>, flags': seq<bool>)
    requires |flags| == |chroms| == |flags0| && FlagsExplained(chroms, flags, groups, flags0)
    requires |flags'| == |chroms| && forall j :: 0 <= j < |chroms| ==> flags'[j] == (flags[j] || chroms[j] in g)
    ensures FlagsExplained(chroms, flags', groups + [g], flags0)
  {
    var groups' := groups + [g];
    forall j | 0 <= j < |chroms| && flags'[j]
      ensures flags0[j] || Grouped(chroms[j], groups')
    {
      if flags[j] && !flags0[j] {
        var k :| 0 <= k < |groups| && chroms[j] in groups[k];
        assert groups'[k] == groups[k];
      } else if !flags[j] {
        assert groups'[|groups|] == g;
      }
    }
  }

  lemma PassedOverAdd(chroms: seq<Chromatogram>, groups: seq<seq<Chromatogram>>, starts: seq<nat>,
                      i: nat, flags0: seq<bool>, g: seq<Chromatogram>)
    requires |groups| == |starts| && |flags0| == |chroms| && i < |chroms|
    requires PassedOver(chroms, groups, starts, i, flags0)
    ensures PassedOver(chroms, groups + [g], starts + [i], i + 1, flags0)
  {
    var groups', starts' := groups + [g], starts + [i];
    forall j | 0 <= j < i + 1 && j !in starts'
      ensures flags0[j] || exists k :: 0 <= k < |starts'| && starts'[k] < j && chroms[j] in groups'[k]
    {
      assert j != i && j !in starts;
      if !flags0[j] {
        var k :| 0 <= k < |starts| && starts[k] < j && chroms[j] in groups[k];
        assert starts'[k] == starts[k] && groups'[k] == groups[k];
      }
    }
  }

  lemma StartsFreshAdd(chroms: seq<Chromatogram>, flags: seq<bool>, groups: seq<seq<Chromatogram>>,
                       starts: seq<nat>, i: nat, g: seq<Chromatogram>)
    requires |groups| == |starts| && |flags| == |chroms| && i < |chroms| && !flags[i]
    requires forall k :: 0 <= k < |starts| ==> starts[k] < |chroms|
    requires StartsFresh(chroms, groups, starts) && MembersFlagged(chroms, flags, groups)
    ensures StartsFresh(chroms, groups + [g], starts + [i])
  {
    var groups', starts' := groups + [g], starts + [i];
    forall k, m | 0 <= m < k < |starts'|
      ensures chroms[starts'[k]] !in groups'[m]
    {
      assert groups'[m] == groups[m];
      if k < |starts| {
        assert starts'[k] == starts[k];
      }
    }
  }

  /** A member of `Reverse(below) + [start] + above` is the start or one of `below`
      and `above`. */
  lemma GroupMembers(below: seq<Chromatogram>, start: Chromatogram, above: seq<Chromatogram>, x: Chromatogram)
    ensures x in Reverse(below) + [start] + above <==> x == start || x in below + above
  {
    if x in below {
      var k :| 0 <= k < |below| && below[k] == x;
      assert Reverse(below)[|below| - 1 - k] == x;
    }
    if x in Reverse(below) {
      var k :| 0 <= k < |below| && Reverse(below)[k] == x;
      assert below[|below| - 1 - k] == x;
    }
  }

  /** The body of the cluster loop of `main` on a free chromatogram `start`: flag it,
      then `new PeakCluster(start, 20)` with the file's chromatograms as the pool.
      The cluster is laid out around `start`, and the flags set are its members'. */
  method NewCluster(start: Chromatogram, pool: seq<Chromatogram>, pearson: (seq<real>, seq<real>) -> real)
    returns (r: Option<PeakCluster>)
    requires IsotopeRules.Traced(Views(pool)) && start in pool
    modifies pool`inCluster
    ensures IsotopeRules.Traced(Views(pool))
    ensures forall j :: 0 <= j < |pool| ==> old(pool[j].inCluster) ==> pool[j].inCluster
    ensures r.Some? ==> fresh(r.value) && StartsAt(r.value, start)
    ensures r.Some? ==> forall j :: 0 <= j < |pool| ==>
      pool[j].inCluster == (old(pool[j].inCluster) || pool[j] in r.value.chromatograms)
  {
    start.SetInCluster();
    ghost var views := Views(pool);
    ghost var sv := ViewOf(start);
    ghost var k :| 0 <= k < |pool| && pool[k] == start;
    SnapshotAt(pool, views, k);
    ghost var ch := ChargeFrom(pool, views, start, sv, 3, PpmAbove(NEUTRON_MASS, 20.0), 20.0);
    ghost var spacing := PpmAbove(NEUTRON_MASS, 20.0) / (ch as real);
    ghost var down := Chain(pool, views, start, sv, Search(false, spacing, pearson));
    ghost var up := Chain(pool, views, start, sv, Search(true, spacing, pearson));
    r := PeakCluster.Build(start, 20.0, pool, pearson);
    assert Views(pool) == views;
    if r.Some? {
      forall j | 0 <= j < |pool|
        ensures pool[j].inCluster == (old(pool[j].inCluster) || pool[j] in r.value.chromatograms)
      {
        GroupMembers(Pick(pool, down.value), start, Pick(pool, up.value), pool[j]);
      }
    }
  }

  /** The clusters seeded so far lie around the chromatograms at `starts`. */
  predicate Seeds(clusters: seq<PeakCluster>, chroms: seq<Chromatogram>, starts: seq<nat>)
    reads clusters
  {
    |clusters| == |starts| && forall k :: 0 <= k < |starts| ==> starts[k] < |chroms| && StartsAt(clusters[k], chroms[starts[k]])
  }

  lemma GroupsAppend(clusters: seq<PeakCluster>, c: PeakCluster)
    ensures Groups(clusters + [c]) == Groups(clusters) + [c.chromatograms]
  {
  }

  lemma SeedsAppend(clusters: seq<PeakCluster>, chroms: seq<Chromatogram>, starts: seq<nat>, c: PeakCluster, i: nat)
    requires Seeds(clusters, chroms, starts) && i < |chroms| && StartsAt(c, chroms[i])
    ensures Seeds(clusters + [c], chroms, starts + [i])
  {
  }

  /** One pass of the cluster loop, at position `i`. */
  method ClusterStep(chroms: seq<Chromatogram>, i: nat, pearson: (seq<real>, seq<real>) -> real,
                     clusters: seq<PeakCluster>, ghost starts: seq<nat>, ghost flags0: seq<bool>)
    returns (ok: bool, added: seq<PeakCluster>, ghost starts': seq<nat>)
    requires IsotopeRules.Traced(Views(chroms)) && i < |chroms| && Seeds(clusters, chroms, starts)
    requires Clustered(chroms, InClusterFlags(chroms), Groups(clusters), starts, i, flags0)
    modifies chroms`inCluster
    ensures IsotopeRules.Traced(Views(chroms))
    ensures forall j :: 0 <= j < |chroms| ==> old(chroms[j].inCluster) ==> chroms[j].inCluster
    ensures |added| <= 1
    ensures !ok ==> starts' == starts
    ensures ok ==> Seeds(clusters + added, chroms, starts')
    ensures ok ==> Clustered(chroms, InClusterFlags(chroms), Groups(clusters + added), starts', i + 1, flags0)
  {
    ghost var flags := InClusterFlags(chroms);
    ok, added, starts' := true, [], starts;
    var c := chroms[i];
    if c.inCluster {
      ClusteredSkip(chroms, flags, Groups(clusters), starts, i, flags0);
      assert clusters + added == clusters;
    } else {
      var r := NewCluster(c, chroms, pearson);
      if r.None? {
        return false, [], starts;
      }
      ClusteredAdd(chroms, flags, Groups(clusters), starts, i, flags0, r.value.chromatograms, InClusterFlags(chroms));
      GroupsAppend(clusters, r.value);
      SeedsAppend(clusters, chroms, starts, r.value, i);
      added, starts' := [r.value], starts + [i];
    }
  }

  /** The cluster loop of `main`: in list order, every chromatogram not yet in a
      cluster when the loop reaches it is flagged and seeds a cluster, which flags
      the chromatograms it takes in. `None` stands for a cluster constructor
      throwing; `starts` are the list positions of the seeds. */
  method StartClusters(chroms: seq<Chromatogram>, pearson: (seq<real>, seq<real>) -> real)
    returns (r: Option<seq<PeakCluster>>, ghost starts: seq<nat>)
    requires IsotopeRules.Traced(Views(chroms))
    modifies chroms`inCluster
    ensures forall j :: 0 <= j < |chroms| ==> old(chroms[j].inCluster) ==> chroms[j].inCluster
    ensures Increasing(starts) && forall k :: 0 <= k < |starts| ==> starts[k] < |chroms| && !old(chroms[starts[k]].inCluster)
    ensures r.Some? ==> Seeds(r.value, chroms, starts)
    ensures r.Some? ==> Clustered(chroms, InClusterFlags(chroms), Groups(r.value), starts, |chroms|, old(InClusterFlags(chroms)))
  {
    ghost var flags0 := InClusterFlags(chroms);
    var clusters: seq<PeakCluster> := [];
    starts := [];
    var i: nat := 0;
    ClusteredStart(chroms, flags0);
    while i < |chroms|
      invariant IsotopeRules.Traced(Views(chroms)) && Seeds(clusters, chroms, starts)
      invariant Clustered(chroms, InClusterFlags(chroms), Groups(clusters), starts, i, flags0)
    {
      var ok, added;
      ok, added, starts := ClusterStep(chroms, i, pearson, clusters, starts, flags0);
      if !ok {
        return None, starts;
      }
      clusters := clusters + added;
      i := i + 1;
    }
    ClusteredKept(chroms, InClusterFlags(chroms), Groups(clusters), starts, i, flags0);
    r := Some(clusters);
  }

  // ---------------------------------------------------------------------------
  // Removal of the clusters with an invalid starting chromatogram

  /** The entries of `s` whose verdict is true, in order. */
  function Keep<T>(s: seq<T>, verdicts: seq<bool>): (r: seq<T>)
    requires |verdicts| == |s|
    ensures |r| <= |s|
  {
    if s == [] then []
    else Keep(s[..|s| - 1], verdicts[..|s| - 1]) + (if verdicts[|s| - 1] then [s[|s| - 1]] else [])
  }

  /** The positions whose verdict is true, in increasing order. */
  function Trues(verdicts: seq<bool>): (r: seq<nat>)
  {
    if verdicts == [] then []
    else Trues(verdicts[..|verdicts| - 1]) + (if verdicts[|verdicts| - 1] then [|verdicts| - 1] else [])
  }

  /** `Trues` lists exactly the positions with a true verdict, in increasing order. */
  lemma {:induction false} TruesSpec(verdicts: seq<bool>)
    ensures Increasing(Trues(verdicts))
    ensures forall k :: k in Trues(verdicts) <==> 0 <= k < |verdicts| && verdicts[k]
  {
    if verdicts != [] {
      var n := |verdicts| - 1;
      var front := verdicts[..n];
      TruesSpec(front);
      assert forall k :: 0 <= k < n ==> front[k] == verdicts[k];
      var t, r := Trues(front), Trues(verdicts);
      forall a, b | 0 <= a < b < |r|
        ensures r[a] < r[b]
      {
        assert r[a] == t[a] && t[a] in t;
        if b < |t| {
          assert r[b] == t[b];
        }
      }
    }
  }

  /** `Keep` picks the entries at the positions `Trues` lists: entry `m` of the kept
      list is the entry of `s` at the `m`-th true verdict. */
  lemma {:induction false} KeepAtTrues<T>(s: seq<T>, verdicts: seq<bool>)
    requires |verdicts| == |s|
    ensures |Keep(s, verdicts)| == |Trues(verdicts)|
    ensures forall m :: 0 <= m < |Trues(verdicts)| ==>
      Trues(verdicts)[m] < |s| && Keep(s, verdicts)[m] == s[Trues(verdicts)[m]]
  {
    if s != [] {
      var n := |s| - 1;
      KeepAtTrues(s[..n], verdicts[..n]);
      TruesSpec(verdicts[..n]);
      forall m | 0 <= m < |Trues(verdicts[..n])|
        ensures Trues(verdicts[..n])[m] < n
      {
        assert Trues(verdicts[..n])[m] in Trues(verdicts[..n]);
      }
    }
  }

  /** An entry is kept exactly when it sits at a position with a true verdict. */
  lemma KeepMembers<T>(s: seq<T>, verdicts: seq<bool>, x: T)
    requires |verdicts| == |s|
    ensures x in Keep(s, verdicts) <==> exists k :: 0 <= k < |s| && verdicts[k] && s[k] == x
  {
    KeepAtTrues(s, verdicts);
    TruesSpec(verdicts);
    var t := Trues(verdicts);
    if x in Keep(s, verdicts) {
      var m :| 0 <= m < |Keep(s, verdicts)| && Keep(s, verdicts)[m] == x;
      assert t[m] in t;
    }
    if exists k :: 0 <= k < |s| && verdicts[k] && s[k] == x {
      var k :| 0 <= k < |s| && verdicts[k] && s[k] == x;
      assert k in t;
      var m :| 0 <= m < |t| && t[m] == k;
      assert Keep(s, verdicts)[m] == x;
    }
  }

  /** With every verdict true nothing is removed. */
  lemma {:induction false} KeepAll<T>(s: seq<T>, verdicts: seq<bool>)
    requires |verdicts| == |s| && forall k :: 0 <= k < |s| ==> verdicts[k]
    ensures Keep(s, verdicts) == s
  {
    if s != [] {
      KeepAll(s[..|s| - 1], verdicts[..|s| - 1]);
    }
  }

  /** Judging one more entry extends the kept prefix. */
  lemma KeepStep<T>(s: seq<T>, verdicts: seq<bool>, j: nat, v: bool)
    requires j < |s| && |verdicts| == j
    ensures Keep(s[..j + 1], verdicts + [v]) == Keep(s[..j], verdicts) + (if v then [s[j]] else [])
  {
    assert s[..j + 1][..j] == s[..j];
    assert (verdicts + [v])[..j] == verdicts;
  }

  /** The cluster has a starting chromatogram. */
  predicate HasStart(c: PeakCluster)
    reads c
  {
    0 <= c.startingPointIndex < |c.chromatograms|
  }

  function StartOf(c: PeakCluster): Chromatogram
    reads c
    requires HasStart(c)
  {
    c.chromatograms[c.startingPointIndex]
  }

  /** The trace lists of the clusters' starting chromatograms. */
  function StartTraces(clusters: seq<PeakCluster>): (r: seq<PeakList>)
    reads clusters
    requires forall k :: 0 <= k < |clusters| ==> HasStart(clusters[k])
    ensures |r| == |clusters| && forall k :: 0 <= k < |clusters| ==> r[k] == StartOf(clusters[k]).trace
  {
    seq(|clusters|, k requires 0 <= k < |clusters| && HasStart(clusters[k]) reads clusters => StartOf(clusters[k]).trace)
  }

  /** Each starting trace holds its entries as found, `origs`, or as the validity
      check leaves them, sorted by descending intensity; traces shared by two
      clusters were found with the same entries. */
  ghost predicate AsFound(traces: seq<PeakList>, origs: seq<seq<LocalPeak>>)
    reads traces
  {
    && |origs| == |traces|
    && (forall k :: 0 <= k < |traces| ==> traces[k].items == origs[k] || traces[k].items == CheckedTrace(origs[k]))
    && (forall k, m :: 0 <= k < |traces| && 0 <= m < |traces| && traces[k] == traces[m] ==> origs[k] == origs[m])
  }

  /** Every cluster has a starting chromatogram, with the given thresholds. */
  predicate StartsWith(clusters: seq<PeakCluster>, thresholds: seq<real>)
    reads clusters
  {
    |thresholds| == |clusters| &&
    forall k :: 0 <= k < |clusters| ==> HasStart(clusters[k]) && StartOf(clusters[k]).threshold == thresholds[k]
  }

  /** `isValidStartingPoint` on the starting chromatogram of cluster `j`: the verdict
      is that of the trace as found, whatever earlier checks on a shared trace did. */
  method Judge(c: PeakCluster, ghost clusters: seq<PeakCluster>, ghost j: nat, ghost traces: seq<PeakList>,
               ghost origs: seq<seq<LocalPeak>>, ghost thresholds: seq<real>)
    returns (valid: bool)
    requires j < |clusters| && c == clusters[j] && StartsWith(clusters, thresholds)
    requires traces == StartTraces(clusters) && AsFound(traces, origs) && Settled(traces, origs, j)
    modifies traces[j]
    ensures AsFound(traces, origs) && StartsWith(clusters, thresholds) && traces == StartTraces(clusters)
    ensures Settled(traces, origs, j + 1)
    ensures valid == ValidTrace(origs[j], thresholds[j])
  {
    ghost var before := Contents(traces);
    var start := c.chromatograms[c.startingPointIndex];
    CheckedTraceIdempotent(origs[j], start.threshold);
    valid := start.IsValidStartingPoint();
    ghost var after := Contents(traces);
    assert after[j] == CheckedTrace(origs[j]);
    SettleShared(traces, origs, before, after, j);
  }

  /** Checking the `j`-th trace in place also checks every other cluster's trace
      that is the same list; the others keep their entries. */
  lemma SettleShared(traces: seq<PeakList>, origs: seq<seq<LocalPeak>>, before: seq<seq<LocalPeak>>,
                     after: seq<seq<LocalPeak>>, j: nat)
    requires |origs| == |before| == |after| == |traces| && j < |traces|
    requires forall k, m :: 0 <= k < |traces| && 0 <= m < |traces| && traces[k] == traces[m] ==> origs[k] == origs[m]
    requires forall k :: 0 <= k < |traces| ==> before[k] == origs[k] || before[k] == CheckedTrace(origs[k])
    requires forall k :: 0 <= k < j ==> before[k] == CheckedTrace(origs[k])
    requires forall k :: 0 <= k < |traces| && traces[k] != traces[j] ==> after[k] == before[k]
    requires forall k :: 0 <= k < |traces| && traces[k] == traces[j] ==> after[k] == after[j]
    requires after[j] == CheckedTrace(origs[j])
    ensures forall k :: 0 <= k < |traces| ==> after[k] == origs[k] || after[k] == CheckedTrace(origs[k])
    ensures forall k :: 0 <= k <= j ==> after[k] == CheckedTrace(origs[k])
  {
    forall k | 0 <= k < |traces|
      ensures after[k] == origs[k] || after[k] == CheckedTrace(origs[k])
      ensures k <= j ==> after[k] == CheckedTrace(origs[k])
    {
      if traces[k] == traces[j] {
        assert origs[k] == origs[j];
      }
    }
  }

  /** The removal loop of `main`: every cluster is judged on its starting chromatogram
      in turn, and one judged invalid is removed in place, the index stepping back so
      that the next cluster, which slides into its position, is judged next. The
      clusters kept are those with a valid starting trace as found, in order. */
  method RemoveInvalid(clusters: seq<PeakCluster>) returns (kept: seq<PeakCluster>, ghost verdicts: seq<bool>)
    requires forall k :: 0 <= k < |clusters| ==> HasStart(clusters[k])
    modifies StartTraces(clusters)
    ensures |verdicts| == |clusters|
    ensures forall k :: 0 <= k < |clusters| ==>
      verdicts[k] == ValidTrace(old(StartOf(clusters[k]).trace.items), StartOf(clusters[k]).threshold)
    ensures kept == Keep(clusters, verdicts)
    ensures forall k :: 0 <= k < |clusters| ==>
      StartOf(clusters[k]).trace.items == CheckedTrace(old(StartOf(clusters[k]).trace.items))
  {
    ghost var traces := StartTraces(clusters);
    ghost var origs := Contents(traces);
    ghost var thresholds := Thresholds(clusters);
    assert forall k :: 0 <= k < |clusters| ==> origs[k] == old(StartOf(clusters[k]).trace.items);
    kept := clusters;
    verdicts := [];
    var i := 0;
    ghost var j := 0;
    while i < |kept|
      invariant Removing(clusters, traces, origs, thresholds, kept, verdicts, i, j)
      decreases |clusters| - j
    {
      kept, verdicts, i, j := JudgeNext(clusters, traces, origs, thresholds, kept, verdicts, i, j);
    }
    RemovedAll(clusters, traces, origs, thresholds, kept, verdicts, i, j);
  }

  /** When the removal loop ends every cluster has been judged. */
  lemma RemovedAll(clusters: seq<PeakCluster>, traces: seq<PeakList>, origs: seq<seq<LocalPeak>>,
                   thresholds: seq<real>, kept: seq<PeakCluster>, verdicts: seq<bool>, i: int, j: int)
    requires Removing(clusters, traces, origs, thresholds, kept, verdicts, i, j) && i >= |kept|
    ensures |verdicts| == |clusters| && kept == Keep(clusters, verdicts)
    ensures forall k :: 0 <= k < |clusters| ==> verdicts[k] == ValidTrace(origs[k], thresholds[k])
    ensures forall k :: 0 <= k < |clusters| ==> traces[k].items == CheckedTrace(origs[k])
  {
    assert clusters[..j] == clusters;
    assert clusters[j..] == [];
    assert kept == Keep(clusters[..j], verdicts) + [];
  }

  /** The entries of each list. */
  ghost function Contents(lists: seq<PeakList>): (r: seq<seq<LocalPeak>>)
    reads lists
    ensures |r| == |lists| && forall k :: 0 <= k < |lists| ==> r[k] == lists[k].items
  {
    if lists == [] then [] else Contents(lists[..|lists| - 1]) + [lists[|lists| - 1].items]
  }

  /** The thresholds of the clusters' starting chromatograms. */
  ghost function Thresholds(clusters: seq<PeakCluster>): (r: seq<real>)
    reads clusters
    requires forall k :: 0 <= k < |clusters| ==> HasStart(clusters[k])
    ensures StartsWith(clusters, r)
  {
    if clusters == [] then [] else Thresholds(clusters[..|clusters| - 1]) + [StartOf(clusters[|clusters| - 1]).threshold]
  }

  /** The state of the removal loop after `j` clusters have been judged: the
      starting traces are as found or sorted, and the lists are as `Judged` says. */
  ghost predicate Removing(clusters: seq<PeakCluster>, traces: seq<PeakList>, origs: seq<seq<LocalPeak>>,
                           thresholds: seq<real>, kept: seq<PeakCluster>, verdicts: seq<bool>, i: int, j: int)
    reads clusters, traces
  {
    && StartsWith(clusters, thresholds) && traces == StartTraces(clusters) && AsFound(traces, origs)
    && Judged(clusters, origs, thresholds, kept, verdicts, i, j)
    && Settled(traces, origs, j)
  }

  /** The first `j` starting traces hold what the validity check leaves of them. */
  ghost predicate Settled(traces: seq<PeakList>, origs: seq<seq<LocalPeak>>, j: int)
    reads traces
    requires |origs| == |traces|
  {
    forall k :: 0 <= k < j && k < |traces| ==> traces[k].items == CheckedTrace(origs[k])
  }

  /** `verdicts` holds the verdicts on the first `j` traces as found, and `kept` is
      the clusters kept so far, `i` of them, followed by those still to judge. */
  ghost predicate Judged<T>(clusters: seq<T>, origs: seq<seq<LocalPeak>>, thresholds: seq<real>,
                            kept: seq<T>, verdicts: seq<bool>, i: int, j: int)
  {
    && 0 <= j <= |clusters| && |verdicts| == j && |origs| == |thresholds| == |clusters|
    && (forall k :: 0 <= k < j ==> verdicts[k] == ValidTrace(origs[k], thresholds[k]))
    && kept == Keep(clusters[..j], verdicts) + clusters[j..] && i == |Keep(clusters[..j], verdicts)|
    && |kept| == i + (|clusters| - j)
  }

  /** One pass of the removal loop: judge `kept[i]`, the `j`-th cluster, and remove it
      from the list when invalid, stepping the index back. */
  method JudgeNext(clusters: seq<PeakCluster>, ghost traces: seq<PeakList>, ghost origs: seq<seq<LocalPeak>>,
                   ghost thresholds: seq<real>, kept: seq<PeakCluster>, ghost verdicts: seq<bool>, i: int, ghost j: int)
    returns (kept': seq<PeakCluster>, ghost verdicts': seq<bool>, i': int, ghost j': int)
    requires Removing(clusters, traces, origs, thresholds, kept, verdicts, i, j) && 0 <= i < |kept|
    modifies traces[j]
    ensures Removing(clusters, traces, origs, thresholds, kept', verdicts', i', j') && j' == j + 1
  {
    JudgedNext(clusters, origs, thresholds, kept, verdicts, i, j);
    var valid := Judge(kept[i], clusters, j, traces, origs, thresholds);
    JudgedStep(clusters, origs, thresholds, kept, verdicts, i, j, valid);
    verdicts' := verdicts + [valid];
    kept', i' := kept, i;
    if !valid {
      kept' := kept[..i] + kept[i + 1..];
      i' := i - 1;
    }
    i' := i' + 1;
    j' := j + 1;
  }

  /** The list position `i` holds the next cluster to judge. */
  lemma JudgedNext<T>(clusters: seq<T>, origs: seq<seq<LocalPeak>>, thresholds: seq<real>,
                      kept: seq<T>, verdicts: seq<bool>, i: int, j: int)
    requires Judged(clusters, origs, thresholds, kept, verdicts, i, j) && 0 <= i < |kept|
    ensures j < |clusters| && kept[i] == clusters[j]
  {
  }

  /** Judging the `j`-th cluster and removing it when invalid keeps `Judged`. */
  lemma JudgedStep<T>(clusters: seq<T>, origs: seq<seq<LocalPeak>>, thresholds: seq<real>,
                      kept: seq<T>, verdicts: seq<bool>, i: int, j: int, valid: bool)
    requires Judged(clusters, origs, thresholds, kept, verdicts, i, j) && 0 <= i < |kept|
    requires j < |clusters| && valid == ValidTrace(origs[j], thresholds[j])
    ensures var kept' := if valid then kept else kept[..i] + kept[i + 1..];
      Judged(clusters, origs, thresholds, kept', verdicts + [valid], i + (if valid then 1 else 0), j + 1)
  {
    RemoveStep(clusters, verdicts, j, valid, kept, i);
  }

  /** One pass of the removal loop on the list `kept`, where the first `j` clusters
      have been judged and `i` of them kept. */
  lemma RemoveStep<T>(s: seq<T>, verdicts: seq<bool>, j: nat, v: bool, kept: seq<T>, i: int)
    requires j < |s| && |verdicts| == j
    requires kept == Keep(s[..j], verdicts) + s[j..] && i == |Keep(s[..j], verdicts)|
    ensures var kept' := if v then kept else kept[..i] + kept[i + 1..];
      && kept' == Keep(s[..j + 1], verdicts + [v]) + s[j + 1..]
      && |Keep(s[..j + 1], verdicts + [v])| == if v then i + 1 else i
  {
    KeepStep(s, verdicts, j, v);
    assert s[j..] == [s[j]] + s[j + 1..];
  }
}
