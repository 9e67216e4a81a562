# LC-MS peak picking and grouping, modelled in Dafny

This project models the core of the `lsi.sling` analysis of mzXML mass-spectrometry files:

- **Peak index.** Every point of every MS1 spectrum becomes a `LocalPeak`. The peaks are sorted by descending intensity. The significant ones lie above a mean + k·σ intensity threshold (k = 5 in `MzXMLFile`, k = 2 in `Main`).
- **Chromatograms.** Each significant peak that is still unused seeds a `Chromatogram`. The chromatogram walks down and then up through neighbouring scans. At each scan it takes the apex of a ppm window around its running mean m/z, and it flags the peaks it takes in the global list. The trace is then cut into `Isobar`s at boundaries, which are smoothed minima or naive local minima.
- **Peak clusters.** Each chromatogram not yet in a cluster seeds a `PeakCluster`:
  - its charge is estimated from isotope spacings;
  - its isotope envelope is extended below and above through chromatograms that pass a spacing gate and correlate with their predecessor;
  - clusters whose starting chromatogram is not a valid starting point are removed in place.
- **Adducts.** A cluster collects the adducts whose m/z lies in its ppm window (`findAdducts`).
- **Across samples.** `AlignedPeakCluster.alignPeaks` aligns peak clusters of several files against a running median consensus. It settles the charge as the members' unique mode.
- **MS2 fragments.** `ScanCombination` attaches MS2 fragments to the nearest MS1 peak. The fragment clusters are shifted and averaged (`AlignedFragmentCluster`, `ClusteredAlignedFragmentCluster`).

## Form of the model

The classes whose fields the Java code updates in place are Dafny classes with `modifies` and `reads` frames: `LocalPeak`, `Chromatogram`, `Isobar`, `PeakCluster`, `AlignedPeakCluster` and `ScanCombination`. An `ArrayList<LocalPeak>` that the source shares between objects or sorts in place is the class `PeakList`.

Each method is proved against a value-level specification function:

- the walks against `TraceSpec.Walk` and `TraceSpec.TracePeak`;
- the isotope search against `IsotopeRules.Chain` and `IsotopeRules.ChargeFrom`;
- the alignment against `AlignedPeakClusters.AlignAll`;
- the driver loops of `Main` against `Pipeline.Seed`, `Pipeline.Clustered` and `Pipeline.Keep`.

The properties the source relies on are proved about those functions as lemmas.

Other modelling choices:

- Java `double` is modelled as `real`.
- A constructor or method that can throw returns an `Option`, or a `bool` that is `false` on the throwing path.
- Library code is passed in as a function parameter: the Savitzky-Golay minimum finder, the Pearson coefficient, the median and `Math.sqrt`.

## Model

| member | source | states |
|---|---|---|
| Common.PpmWindowContainsValue | src/lsi/sling/PeakCluster.java:228-238 | for a non-negative value and tolerance, the ppm window `[ppmBelow, ppmAbove]` contains the value and is symmetric about it |
| Common.MeanBetweenMinMax | src/lsi/sling/MzXMLFile.java:182-188 | a mean of a non-empty list lies between its smallest and largest element |
| Common.RunningMaxIsFirstMax | src/lsi/sling/Chromatogram.java:189-201 | the running-maximum loop (start at index 0, value 0, replace on strictly greater) ends at the first strictly greatest positive value, or at index 0 with value 0 when nothing exceeds 0 |
| Common.NearestIndexIsFirstNearest | src/lsi/sling/Chromatogram.java:433-445 | the index the nearest-value search stops at is at least as close as every element and strictly closer than every earlier one |
| Common.Reverse | src/lsi/sling/Chromatogram.java:65-67 | the reversed list has the same length and entry i is entry n-1-i of the input |
| Common.IndexOfValue | src/lsi/sling/Chromatogram.java:408-423 | `indexOf` on reals: -1 exactly when the value is absent, otherwise the first index holding it |
| Common.NearestValueIndexOf | src/lsi/sling/Chromatogram.java:408-423 | looking the nearest value up again with `indexOf` gives back the index the search stopped at |
| Spectra.FirstInWindow | src/lsi/sling/Chromatogram.java:189-201 | the first index at or after `from` whose m/z lies in the ppm window, with no in-window index skipped |
| Spectra.LastInWindow | src/lsi/sling/Chromatogram.java:189-201 | the last in-window index below `upto`, or none when no index below it is in the window |
| Spectra.WindowIndices | src/lsi/sling/Chromatogram.java:118 | the window lookup returns nothing exactly when no m/z is in the window; otherwise it returns the first and the last in-window indices |
| Spectra.WindowIndicesOnSorted | src/lsi/sling/Chromatogram.java:189-201 | on an ascending m/z array, the indices in the window are exactly those from the first to the last in-window index |
| LocalPeaks.LocalPeak.constructor | src/lsi/sling/LocalPeak.java:28-34 | a new peak holds the given scan, intensity, m/z and RT, is unused and has no fragments |
| LocalPeaks.LocalPeak.SetIsUsed | src/lsi/sling/LocalPeak.java:80-82 | the flag becomes true and nothing else of the peak changes |
| LocalPeaks.LocalPeak.AddFragment | src/lsi/sling/ScanCombination.java:81 | one fragment is appended at the end of the peak's fragments |
| LocalPeaks.LocalPeak.CompareTo | src/lsi/sling/LocalPeak.java:90-99 | the result is -1, 0 or 1, and it is -1 exactly when this peak is more intense and 0 exactly when the intensities are equal |
| LocalPeaks.LocalPeak.Equals | src/lsi/sling/LocalPeak.java:107-131 | `equals` holds exactly when the other peak is non-null and has the same four data values and the same `isUsed` flag |
| LocalPeaks.CompareToAntisymmetric | src/lsi/sling/LocalPeak.java:90-99 | comparing a with b gives the negation of comparing b with a |
| LocalPeaks.CompareToTransitive | src/lsi/sling/LocalPeak.java:90-99 | "sorts no later than" is transitive |
| LocalPeaks.EqualsReflexiveSymmetric | src/lsi/sling/LocalPeak.java:107-131 | `equals` is reflexive and symmetric |
| LocalPeaks.UsedNeverEqualsUnused | src/lsi/sling/LocalPeak.java:107-131 | a flagged peak never equals an unflagged peak with the same data, in either direction |
| LocalPeaks.IndexOf | src/lsi/sling/Chromatogram.java:121-128 | `ArrayList.indexOf`: the first entry that `equals` the peak, or -1 when none does |
| LocalPeaks.IndexOfIsFirstMatch | src/lsi/sling/Chromatogram.java:121-128 | looking a peak up by `equals` is looking up its data and flag among the list's values |
| LocalPeaks.SortByIntensityCorrect | src/lsi/sling/MzXMLFile.java:151 | `Collections.sort` under `compareTo` yields descending intensity, is a permutation of its input, and is stable: the entries of each intensity keep their order |
| LocalPeaks.SortedMeansCompareToOrdered | src/lsi/sling/LocalPeak.java:90-99 | a list is in descending intensity exactly when every earlier entry compares no later than every later one |
| Isobars.Isobar.constructor | src/lsi/sling/Isobar.java:35-53 | the isobar shares the list it is given; its apex index is the first strictly greatest positive intensity (or 0), and the apex intensity and RT are read from that entry |
| Isobars.ApexIsFirstGreatest | src/lsi/sling/Isobar.java:42-47 | when some intensity is positive the apex is the first entry holding the greatest intensity; otherwise it is entry 0 |
| PeakIndex.ScanPoints | src/lsi/sling/MzXMLFile.java:147-149 | one point per spectrum entry of a scan |
| PeakIndex.FlatPoints | src/lsi/sling/MzXMLFile.java:143-150 | the points of the first n scans, one per spectrum entry, counted over all those scans |
| PeakIndex.FlatPointsShape | src/lsi/sling/MzXMLFile.java:143-150 | every flattened point comes from a spectrum point of its own scan and carries that scan's index and RT |
| PeakIndex.LocalPeakList | src/lsi/sling/MzXMLFile.java:141-153 | the peak list holds a fresh, unused and pairwise distinct peak for every spectrum point, sorted by descending intensity |
| PeakIndex.SortedDistinct | src/lsi/sling/MzXMLFile.java:151 | sorting keeps the peaks pairwise distinct |
| PeakIndex.MeanIntensity | src/lsi/sling/MzXMLFile.java:182-188 | the result is the mean intensity of the list |
| PeakIndex.IntensityVariance | src/lsi/sling/MzXMLFile.java:190-197 | the accumulated sum divided by the count is the population variance about the given mean |
| PeakIndex.VarianceNonNegative | src/lsi/sling/MzXMLFile.java:190-197 | a variance is never negative, and it is 0 when every value equals the mean |
| PeakIndex.AboveMembers | src/lsi/sling/MzXMLFile.java:93 | the intensity filter keeps exactly the peaks above the threshold |
| PeakIndex.AboveIsPrefix | src/lsi/sling/MzXMLFile.java:93 | on the sorted index the filter keeps a prefix, and every peak after it is at or below the threshold |
| PeakIndex.ThresholdAboveMean | src/lsi/sling/MzXMLFile.java:88-93 | with a non-negative square root and k ≥ 0 the threshold is at least the mean, so every significant peak is above the mean intensity |
| PeakIndex.SignificantPeaks | src/lsi/sling/MzXMLFile.java:85-93 | the significant peaks are the peaks of the sorted index above mean + k·σ, in index order, distinct, fresh and unused |
| PeakIndex.AboveDistinct | src/lsi/sling/MzXMLFile.java:93 | the filtered list stays pairwise distinct |
| TraceSpec.MaxPointIsApex | src/lsi/sling/Chromatogram.java:189-201 | the point `maxIntWithinTol` builds is the first strictly greatest positive intensity of the window, or the spectrum's first m/z (index 0, which may lie outside the window) with intensity 0 when none is positive |
| TraceSpec.Lookup | src/lsi/sling/Chromatogram.java:121-128 | the entry an accepted point flags has equal data, and there is none exactly when no entry has equal data |
| TraceSpec.Walk | src/lsi/sling/Chromatogram.java:116-137 | a walk keeps the length of the flag list |
| TraceSpec.WalkFlags | src/lsi/sling/Chromatogram.java:121-128 | a walk only ever sets flags, and only on entries equal to a point it accepted |
| TraceSpec.WalkAccepted | src/lsi/sling/Chromatogram.java:116-137 | accepted points come from consecutive scans, one per scan, with that scan's RT and above the threshold; after the first, none lies on the outermost scans |
| TraceSpec.WalkFlagsAccepted | src/lsi/sling/Chromatogram.java:121-128 | unless the walk failed, every accepted point has an equal entry that is flagged afterwards |
| TraceSpec.WalkStops | src/lsi/sling/Chromatogram.java:116-120 | a walk that returns 1 does so at the first scan after its last point, where the window misses or the apex is not above the threshold |
| TraceSpec.WalkCentre | src/lsi/sling/Chromatogram.java:129-131 | the last window centre of a stopped walk is the mean of the starting m/z values and the accepted ones, or the initial centre when nothing was accepted |
| TraceSpec.WalkReachesEnd | src/lsi/sling/Chromatogram.java:129-135 | a walk that returns 2 has accepted a point on scan `size-2` or later going up, or on scan 1 or earlier going down |
| TraceSpec.WalkFailure | src/lsi/sling/Chromatogram.java:121-124 | a walk fails (`get(-1)`) exactly on an accepted point that has no equal entry in the global list |
| TraceSpec.TraceFailsBelow | src/lsi/sling/Chromatogram.java:62-64 | a trace whose downward walk fails fails with it, before any upward walk |
| TraceSpec.TraceJoins | src/lsi/sling/Chromatogram.java:62-72 | a trace is the downward walk joined to the upward walk, which is centred on the mean of the laid-out list |
| TraceSpec.LayoutConsecutive | src/lsi/sling/Chromatogram.java:65-68 | reversed downward points, the seed, then the upward points cover consecutive scans with the seed at position `below.size()` |
| TraceSpec.TraceLayout | src/lsi/sling/Chromatogram.java:62-72 | a traced chromatogram covers consecutive scans around its seed, the seed sits at `startingPointIndex`, and every other point is above the threshold |
| TraceSpec.TraceFlags | src/lsi/sling/Chromatogram.java:121-128 | tracing only sets flags, only on entries equal to a traced point; on success every traced point other than the seed has a flagged equal entry |
| ChromatogramRules.LocalMinimaExact | src/lsi/sling/Chromatogram.java:237-246 | the naive minima are exactly the interior indices strictly below both neighbours, in ascending order |
| ChromatogramRules.NearestIndices | src/lsi/sling/Chromatogram.java:408-423 | one trace index per reported minimum RT, each within the trace |
| ChromatogramRules.Boundaries | src/lsi/sling/Chromatogram.java:73-80 | the boundaries start at 0, end at the trace length, and all lie in between |
| ChromatogramRules.Slices | src/lsi/sling/Chromatogram.java:82-96 | one slice per pair of neighbouring boundaries |
| ChromatogramRules.SlicesCover | src/lsi/sling/Chromatogram.java:82-96 | slices at ascending boundaries put back together give the stretch from the first boundary to the last |
| ChromatogramRules.IsobarsPartitionTrace | src/lsi/sling/Chromatogram.java:81-98 | at strictly ascending boundaries from 0 to the trace length the isobars are non-empty and make up the whole trace, in order |
| ChromatogramRules.CutPartitions | src/lsi/sling/Chromatogram.java:81-101 | cutting fails exactly when a smoothed trace (more than 4 points) has an inner boundary and two neighbouring boundaries out of order or equal; otherwise the lists are non-empty and make up the trace |
| ChromatogramRules.RatioExceedsIsQuotient | src/lsi/sling/Chromatogram.java:219 | away from a zero denominator the ratio test is the plain quotient comparison |
| ChromatogramRules.SortedIsFixed | src/lsi/sling/Chromatogram.java:215 | a list already in descending intensity is left unchanged by the sort |
| ChromatogramRules.SortedFirstIsMax | src/lsi/sling/Chromatogram.java:215-217 | after the sort the first entry holds the greatest intensity |
| ChromatogramRules.SortedLastIsMin | src/lsi/sling/Chromatogram.java:215-218 | after the sort the last entry holds the smallest intensity |
| ChromatogramRules.ValidTraceUsesExtremes | src/lsi/sling/Chromatogram.java:213-228 | for more than five points, validity is max/min > 5, max > 5·threshold and an RT span from the most to the least intense entry below 0.5 |
| ChromatogramRules.CheckedTrace | src/lsi/sling/Chromatogram.java:213-218 | what the check leaves of a trace is a rearrangement of it, sorted by descending intensity when it has more than five points |
| ChromatogramRules.CheckedTraceIdempotent | src/lsi/sling/Chromatogram.java:213-228 | checking a trace the check has already rearranged changes nothing and gives the same verdict |
| ChromatogramRules.ValidityCheckIdempotent | src/lsi/sling/Chromatogram.java:213-228 | re-running the check on the list it has sorted gives the same verdict, and re-sorting changes nothing |
| Chromatograms.Chromatogram.constructor | src/lsi/sling/Chromatogram.java:53-61 | the field set-up: empty lists, the given tolerance and threshold, not in a cluster, centred on the seed's m/z |
| Chromatograms.Chromatogram.Build | src/lsi/sling/Chromatogram.java:52-102 | the constructor returns exactly when both walks avoid the failed lookup and the trace can be cut; the trace is the laid-out walk with the seed at `startingPointIndex`, and the isobars hold the cut pieces; the global flags are those of the trace |
| Chromatograms.Chromatogram.Construct | src/lsi/sling/Chromatogram.java:62-101 | the constructor body after the fields: trace, boundaries and isobars as `TracePeak`, `Boundaries` and `Cut` give them |
| Chromatograms.Chromatogram.Partition | src/lsi/sling/Chromatogram.java:73-101 | the boundaries are `Boundaries` of the trace, and the isobars are built exactly when the trace can be cut there |
| Chromatograms.Chromatogram.MaxIntWithinTol | src/lsi/sling/Chromatogram.java:189-201 | a fresh, unused peak holding the window apex of the scan |
| Chromatograms.Chromatogram.Search | src/lsi/sling/Chromatogram.java:433-445 | the result is an element of the list at least as close to the target as every other, the first on ties |
| Chromatograms.Chromatogram.AverageMZ | src/lsi/sling/Chromatogram.java:254-264 | the result and the stored `meanMZ` are the mean m/z of the whole trace |
| Chromatograms.Chromatogram.AverageMZBelow | src/lsi/sling/Chromatogram.java:273-283 | the result and the stored `meanMZ` are the mean m/z of the below list only |
| Chromatograms.Chromatogram.CreatePeakAbove | src/lsi/sling/Chromatogram.java:116-137 | the return value, the global flags, the final centre and the points appended to the trace are those of the upward walk |
| Chromatograms.Chromatogram.ContinueAbove | src/lsi/sling/Chromatogram.java:129-133 | the recursive tail of the upward walk ends as the walk from the next scan does |
| Chromatograms.Chromatogram.CreatePeakBelow | src/lsi/sling/Chromatogram.java:150-171 | the return value, the global flags, the final centre and the points appended to the below list are those of the downward walk |
| Chromatograms.Chromatogram.ContinueBelow | src/lsi/sling/Chromatogram.java:163-167 | the recursive tail of the downward walk ends as the walk from the next scan down does |
| Chromatograms.Chromatogram.Trace | src/lsi/sling/Chromatogram.java:62-72 | both walks and the layout: the trace is `Layout` of `TracePeak`, with the seed at `startingPointIndex` and the flags those of the trace |
| Chromatograms.Chromatogram.TraceAbove | src/lsi/sling/Chromatogram.java:65-72 | after a successful downward walk: lay out, walk up, and note the seed position |
| Chromatograms.Chromatogram.LayOut | src/lsi/sling/Chromatogram.java:65-68 | the trace becomes the below list reversed followed by the seed |
| Chromatograms.Chromatogram.WalkDown | src/lsi/sling/Chromatogram.java:62-64 | the below list holds the downward walk's points, and the flags and centre are the walk's |
| Chromatograms.Chromatogram.WalkUp | src/lsi/sling/Chromatogram.java:69-71 | the trace is extended by the upward walk's points, and the flags and centre are the walk's |
| Chromatograms.Chromatogram.CopyReversed | src/lsi/sling/Chromatogram.java:65-67 | the below list is appended to the trace last entry first |
| Chromatograms.Chromatogram.TakeApex | src/lsi/sling/Chromatogram.java:117-128 | no peak exactly when the scan contributes nothing; otherwise the apex is appended and the entry `Lookup` finds is flagged |
| Chromatograms.Chromatogram.FlagInGlobalList | src/lsi/sling/Chromatogram.java:121-128 | the fresh peak is flagged, and exactly the entry `Lookup` finds, if any, is flagged in the global list |
| Chromatograms.Chromatogram.LookUpFresh | src/lsi/sling/Chromatogram.java:121-126 | the two `indexOf` calls with the flag set in between amount to `Lookup` |
| Chromatograms.Chromatogram.MarkEntry | src/lsi/sling/Chromatogram.java:127 | only the entry found is flagged |
| Chromatograms.Chromatogram.FindLocalMinima | src/lsi/sling/Chromatogram.java:237-246 | the boundaries become the naive local minima of the trace intensities |
| Chromatograms.Chromatogram.SmoothToFindMinima | src/lsi/sling/Chromatogram.java:408-423 | for each reported minimum RT, the index of the nearest trace RT is appended |
| Chromatograms.Chromatogram.FindBoundaries | src/lsi/sling/Chromatogram.java:73-80 | the boundaries are smoothed minima for more than four points and naive minima otherwise, bracketed by 0 and the length |
| Chromatograms.Chromatogram.SliceIsobars | src/lsi/sling/Chromatogram.java:81-101 | the isobars are built exactly when the cut succeeds, one per cut list; an uncut trace gives one isobar sharing the trace |
| Chromatograms.Chromatogram.CutIsobars | src/lsi/sling/Chromatogram.java:82-98 | the cutting branch succeeds exactly when the boundaries ascend strictly, with one isobar per slice |
| Chromatograms.Chromatogram.SliceIsobar | src/lsi/sling/Chromatogram.java:83-97 | no isobar exactly when the slice is empty; otherwise a fresh isobar on the copied slice |
| Chromatograms.Chromatogram.SetInCluster | src/lsi/sling/Chromatogram.java:467-469 | the flag becomes true |
| Chromatograms.Chromatogram.IsValidStartingPoint | src/lsi/sling/Chromatogram.java:213-228 | a trace of more than five points is sorted in place by descending intensity, and the verdict is `ValidTrace` of the trace as it was |
| IsotopeRules.Pick | src/lsi/sling/PeakCluster.java:100-103 | the chromatograms at the given pool positions, in that order |
| IsotopeRules.Hits | src/lsi/sling/PeakCluster.java:202-211 | the hits for one charge among the first n chromatograms, at most n |
| IsotopeRules.HitsNonEmpty | src/lsi/sling/PeakCluster.java:202-211 | the inner loop adds something for charge i exactly when some other chromatogram is within that isotope distance and 0.03 in RT |
| IsotopeRules.ChargeFrom | src/lsi/sling/PeakCluster.java:194-220 | the charge lies between 1 and the starting charge |
| IsotopeRules.ChargeFromStep | src/lsi/sling/PeakCluster.java:200-217 | one step of `checkCharge`: the current charge if it has hits, else the search goes on at the next lower charge |
| IsotopeRules.ChargeIsLargestHit | src/lsi/sling/PeakCluster.java:194-220 | the charge is the largest one up to `maxCharge` with some hit, and 1 when there is none |
| IsotopeRules.InRange | src/lsi/sling/PeakCluster.java:135-139 | the intensities of the points whose RT lies in the range, at most one per point |
| IsotopeRules.InRangeExtremes | src/lsi/sling/PeakCluster.java:135-145 | a trace wholly inside the range gives all its intensities, and one wholly outside gives none |
| IsotopeRules.CorrelationShape | src/lsi/sling/PeakCluster.java:130-165 | the common range is symmetric, so a mismatch is too; a trace never mismatches with itself, and an overlap of fewer than two points correlates to 0 |
| IsotopeRules.Verdict | src/lsi/sling/PeakCluster.java:91-99 | one candidate throws exactly when its correlation throws, and is accepted exactly when it passes the gate and correlates above 0.8 |
| IsotopeRules.CandidatesThrow | src/lsi/sling/PeakCluster.java:91-99 | the pool scan throws exactly when some gated entry's correlation throws |
| IsotopeRules.CandidatesKeep | src/lsi/sling/PeakCluster.java:91-99 | otherwise it keeps exactly the accepted entries, in ascending pool order |
| IsotopeRules.CandidatesExact | src/lsi/sling/PeakCluster.java:100-105 | an empty scan means nothing is accepted, and its first entry is the first accepted one |
| IsotopeRules.CandidateAccepted | src/lsi/sling/PeakCluster.java:91-99 | every kept entry is accepted and lies strictly beyond the previous m/z in the search direction |
| IsotopeRules.CandidatesStep | src/lsi/sling/PeakCluster.java:91-99 | one pass of the pool loop: a throw ends the scan, and an accepted entry is appended |
| IsotopeRules.CandidatesThrowStays | src/lsi/sling/PeakCluster.java:91-99 | once the scan has thrown it stays thrown |
| IsotopeRules.CountBeyondShrinks | src/lsi/sling/PeakCluster.java:177-183 | moving to a candidate that satisfies `recursiveCondition` leaves strictly fewer chromatograms beyond, so the recursion ends |
| IsotopeRules.Chain | src/lsi/sling/PeakCluster.java:85-120 | the chain lists pool positions, no more of them than there are chromatograms beyond the start |
| IsotopeRules.ChainNext | src/lsi/sling/PeakCluster.java:100-116 | the chain from a chromatogram with candidates is its first candidate followed by the chain from there |
| IsotopeRules.ChainSteps | src/lsi/sling/PeakCluster.java:85-120 | each chromatogram of the chain is the first one accepted after its predecessor, the m/z moves strictly in the search direction, and the chain ends where nothing more is accepted |
| PeakClusters.InClusterFlags | src/lsi/sling/Chromatogram.java:467-469 | the `inCluster` flags of the chromatograms, in list order |
| PeakClusters.PeakCluster.constructor | src/lsi/sling/PeakCluster.java:47-53 | the field set-up: empty lists, not aligned, and the neutron-mass ppm window |
| PeakClusters.PeakCluster.Build | src/lsi/sling/PeakCluster.java:47-68 | the constructor returns exactly when neither search throws; the charge is `checkCharge`'s; the chromatograms are the chain below reversed, the start, then the chain above; the start sits at `startingPointIndex`; exactly the chained chromatograms are newly flagged |
| PeakClusters.PeakCluster.Construct | src/lsi/sling/PeakCluster.java:54-67 | the constructor body after the fields, stated through `ChargeFrom` and `Chain` |
| PeakClusters.PeakCluster.Envelope | src/lsi/sling/PeakCluster.java:55-65 | the two searches and the layout of their results around the start |
| PeakClusters.PeakCluster.SearchBelow | src/lsi/sling/PeakCluster.java:55-61 | the downward chain, laid out in ascending m/z and followed by the start |
| PeakClusters.PeakCluster.SearchAbove | src/lsi/sling/PeakCluster.java:62-65 | the upward chain is appended to the layout |
| PeakClusters.PeakCluster.CheckCharge | src/lsi/sling/PeakCluster.java:194-220 | the charge becomes `ChargeFrom` of the maximum charge |
| PeakClusters.PeakCluster.CollectHits | src/lsi/sling/PeakCluster.java:202-211 | the inner loop collects exactly the hits for charge i |
| PeakClusters.PeakCluster.CheckAboveOrBelow | src/lsi/sling/PeakCluster.java:85-120 | succeeds exactly when the chain does; the chain is appended to `tempChroma` and exactly its members are newly flagged |
| PeakClusters.PeakCluster.Extend | src/lsi/sling/PeakCluster.java:100-116 | flagging and appending the first candidate, then recursing, gives the chain from the previous chromatogram |
| PeakClusters.PeakCluster.Adopt | src/lsi/sling/PeakCluster.java:101-102 | the chosen chromatogram is flagged and appended, and no other flag changes |
| PeakClusters.PeakCluster.ClosestCandidate | src/lsi/sling/PeakCluster.java:106-116 | the loop meant to choose the candidate nearest the expected m/z always returns index 0 |
| PeakClusters.PeakCluster.ScanPool | src/lsi/sling/PeakCluster.java:91-99 | the pool loop yields `None` exactly when `Candidates` does, and otherwise exactly the chromatograms at the positions `Candidates` keeps |
| PeakClusters.PeakCluster.Examine | src/lsi/sling/PeakCluster.java:92-98 | the body of the pool loop decides as `Verdict` does |
| PeakClusters.PeakCluster.CorrelateChromatograms | src/lsi/sling/PeakCluster.java:130-165 | the coefficient over the common RT range, or a throw when the two ranges hold different numbers of points |
| PeakClusters.PeakCluster.OverlapIntensities | src/lsi/sling/PeakCluster.java:135-139 | the extraction loop collects the intensities of the points in the range, in order |
| PeakClusters.PeakCluster.LayOutBelow | src/lsi/sling/PeakCluster.java:56-61 | the chromatograms found below are laid out reversed, followed by the start, whose position is noted |
| PeakClusters.PeakCluster.AppendAbove | src/lsi/sling/PeakCluster.java:63-65 | the chromatograms found above follow |
| PeakClusters.PeakCluster.FindAdducts | src/lsi/sling/PeakCluster.java:258-267 | the adduct list becomes the adducts strictly inside the cluster's window, up to the first one above it |
| PeakClusters.PeakCluster.SetInAlignedCluster | src/lsi/sling/PeakCluster.java:273-275 | the flag becomes true |
| PeakClusters.PeakCluster.SetRescaledValues | src/lsi/sling/PeakCluster.java:343-348 | the normalised m/z and RT are the starting chromatogram's values min-max rescaled, and `getPoint` returns them |
| PeakClusters.Rescale | src/lsi/sling/PeakCluster.java:343-348 | scaling the result back by the bounds gives the original value |
| PeakClusters.RescaleInUnitInterval | src/lsi/sling/PeakCluster.java:343-348 | a value between the bounds rescales into [0, 1], the lower bound to 0 and the upper bound to 1 |
| Adducts.CompareTo | src/lsi/sling/Adduct.java:80-89 | -1 exactly when this adduct's result m/z is larger, 0 when equal, 1 when smaller |
| Adducts.CompareToAntisymmetric | src/lsi/sling/Adduct.java:80-89 | comparing a with b gives the negation of comparing b with a |
| Adducts.CompareToTotalPreorder | src/lsi/sling/Adduct.java:80-89 | any two adducts compare one way or the other, and the order is transitive |
| Adducts.WindowedIsFilter | src/lsi/sling/PeakCluster.java:258-267 | the loop keeps only adducts strictly inside the window, and on an ascending list its early break loses none of them |
| Adducts.NoneInWindow | src/lsi/sling/PeakCluster.java:262-264 | no adduct of a list lying wholly above the window is inside it |
| Adducts.CollectInWindow | src/lsi/sling/PeakCluster.java:258-267 | the adduct loop computes the windowed list |
| AlignedPeakClusters.CheckPeakInTolerance | src/lsi/sling/AlignedPeakCluster.java:94-103 | true exactly when the m/z is strictly inside the ppm window around the consensus and the RT is strictly within `RTWindow` of it |
| AlignedPeakClusters.SquaredDistance | src/lsi/sling/AlignedPeakCluster.java:114-118 | the squared Euclidean distance is never negative |
| AlignedPeakClusters.SquaredDistanceMetric | src/lsi/sling/AlignedPeakCluster.java:114-118 | the distance is symmetric and zero between equal positions |
| AlignedPeakClusters.FirstInTolerance | src/lsi/sling/AlignedPeakCluster.java:50-54 | the first cluster of a file in tolerance, or -1 exactly when none is |
| AlignedPeakClusters.Admit | src/lsi/sling/AlignedPeakCluster.java:50-70 | one file adds at most one member: the first cluster in tolerance, if any, after which the consensus is the medians of the members; without one nothing changes |
| AlignedPeakClusters.AlignAllStep | src/lsi/sling/AlignedPeakCluster.java:49-74 | the file loop is one `Admit` per file, in order |
| AlignedPeakClusters.AdmitFirst | src/lsi/sling/AlignedPeakCluster.java:56-70 | once the first cluster in tolerance is known, the new consensus appends it and recomputes the medians |
| AlignedPeakClusters.AlignAllShape | src/lsi/sling/AlignedPeakCluster.java:45-74 | alignment keeps its starting members in front, adds at most one cluster per file, and every added cluster comes from a file, with its anchor there |
| AlignedPeakClusters.Count | src/lsi/sling/AlignedPeakCluster.java:146-160 | a count is positive exactly when the value occurs |
| AlignedPeakClusters.UniqueMode | src/lsi/sling/AlignedPeakCluster.java:146-160 | the mode loop finds a most frequent value, and reports exactly whether it is the only one |
| AlignedPeakClusters.UniqueModeExists | src/lsi/sling/AlignedPeakCluster.java:146-160 | what the mode loop reports is whether the list has exactly one mode |
| AlignedPeakClusters.ChargeMode | src/lsi/sling/AlignedPeakCluster.java:146-160 | the members' charges have a unique mode exactly when the check succeeds, and the mode is returned |
| AlignedPeakClusters.AlignedPeakCluster.constructor | src/lsi/sling/AlignedPeakCluster.java:130-137 | the members, the medians and the tolerances as given, and no adducts |
| AlignedPeakClusters.AlignedPeakCluster.CheckPossibleCharges | src/lsi/sling/AlignedPeakCluster.java:146-160 | succeeds exactly when the members' charges have a unique mode, and the charge becomes it |
| AlignedPeakClusters.AlignedPeakCluster.FindAdducts | src/lsi/sling/AlignedPeakCluster.java:166-177 | the adducts strictly inside the window around the median m/z, up to the first one above it |
| AlignedPeakClusters.AlignedPeakCluster.SetPossibleClusters | src/lsi/sling/AlignedPeakCluster.java:183-185 | the members are replaced and the charge is not recomputed |
| AlignedPeakClusters.AlignPeaks | src/lsi/sling/AlignedPeakCluster.java:37-81 | the starting cluster and every member are flagged and no other cluster of the files changes its flag; the aligned cluster exists exactly when the members' charges have a unique mode, with the members and medians of `AlignAll` and that mode as charge |
| AlignedPeakClusters.MembersDrawn | src/lsi/sling/AlignedPeakCluster.java:45-74 | every member is the starting cluster or a cluster of one of the files |
| AlignedPeakClusters.Gather | src/lsi/sling/AlignedPeakCluster.java:41-74 | the file loop yields the members and medians of `AlignAll` |
| AlignedPeakClusters.FlagAll | src/lsi/sling/AlignedPeakCluster.java:76-78 | every member ends up flagged, and every other cluster keeps its flag |
| AlignedPeakClusters.Candidates | src/lsi/sling/AlignedPeakCluster.java:50-54 | the inner loop collects exactly the clusters of the file in tolerance of the consensus, in file order, and its first entry is the first such cluster |
| ScanCombinations.FirstArgMin | src/lsi/sling/ScanCombination.java:99 | `indexOf(min)`: the first position of a smallest distance |
| ScanCombinations.FindClosestMS1Peak | src/lsi/sling/ScanCombination.java:94-105 | throws exactly on an empty peak list; -1 exactly when no peak is within ppm; otherwise the first nearest peak, which is within ppm |
| ScanCombinations.MinBelow | src/lsi/sling/ScanCombination.java:99-104 | the least distance is below the tolerance exactly when some distance is |
| ScanCombinations.FragmentsOf | src/lsi/sling/ScanCombination.java:76-83 | one fragment per MS2 spectrum point, with the MS2 scan's RT |
| ScanCombinations.Placements | src/lsi/sling/ScanCombination.java:71-84 | each MS2 scan is placed with its fragments and its closest-peak target |
| ScanCombinations.PlacementsBounded | src/lsi/sling/ScanCombination.java:71-84 | every target is -1 or a peak of the list |
| ScanCombinations.AttachedFromTarget | src/lsi/sling/ScanCombination.java:71-84 | every fragment a peak holds comes from an MS2 scan that targets it |
| ScanCombinations.AttachedCountStep | src/lsi/sling/ScanCombination.java:71-84 | one more MS2 scan adds its fragments to the total exactly when its target is a peak |
| ScanCombinations.AttachedCountIsKept | src/lsi/sling/ScanCombination.java:71-84 | each MS2 scan's fragments land on exactly one peak or on none |
| ScanCombinations.ScanCombination.constructor | src/lsi/sling/ScanCombination.java:31-37 | the MS1 scan, tolerance and scan number as given, and no MS2 scans |
| ScanCombinations.ScanCombination.AddMs2Scan | src/lsi/sling/ScanCombination.java:43-46 | one scan is appended at the end |
| ScanCombinations.ScanCombination.CreateLocalPeaks | src/lsi/sling/ScanCombination.java:62-86 | throws exactly when the MS1 spectrum is empty and there are MS2 scans; otherwise there is one fresh, unused peak per MS1 point, holding the fragments of the MS2 scans it is the target of |
| ScanCombinations.NewPeaks | src/lsi/sling/ScanCombination.java:66-69 | one new, unused and distinct peak per spectrum point, in order |
| ScanCombinations.PlaceAll | src/lsi/sling/ScanCombination.java:71-84 | the MS2 loop leaves each peak with exactly the fragments of the scans that target it |
| ScanCombinations.PlaceScan | src/lsi/sling/ScanCombination.java:72-83 | one scan's fragments go to its target peak and nowhere else |
| ScanCombinations.AttachFragments | src/lsi/sling/ScanCombination.java:80-82 | the fragments of one MS2 spectrum are appended to the peak in order |
| Fragments.Align | src/lsi/sling/FragmentHandling/AlignedFragmentCluster.java:23-28 | the cluster is kept, and adding the offsets back to the aligned position gives the cluster's own position |
| Fragments.AlignKeepsSpacing | src/lsi/sling/FragmentHandling/AlignedFragmentCluster.java:26-27 | clusters shifted by the same offsets keep their distances apart and their order |
| Fragments.GetPoint | src/lsi/sling/FragmentHandling/AlignedFragmentCluster.java:47-50 | the clustering point is the aligned m/z followed by 0 |
| Fragments.PointsDifferInMZOnly | src/lsi/sling/FragmentHandling/AlignedFragmentCluster.java:47-50 | the distance between two points depends on aligned m/z alone |
| Fragments.Group | src/lsi/sling/FragmentHandling/ClusteredAlignedFragmentCluster.java:22-27 | an empty cluster has no average; otherwise the members are copied and the means are the means of their aligned m/z and aligned RT |
| Fragments.GroupMeansBounded | src/lsi/sling/FragmentHandling/ClusteredAlignedFragmentCluster.java:25-26 | the mean m/z and RT lie between the members' smallest and largest values |
| Pipeline.GrowerGrows | src/lsi/sling/Main.java:118 | the chromatogram constructor keeps the length of the flag list and only sets flags |
| Pipeline.SeedMonotone | src/lsi/sling/Main.java:116-120 | the seed loop only ever sets flags |
| Pipeline.SeedsUnused | src/lsi/sling/Main.java:116-120 | every seed was unused when the loop reached it |
| Pipeline.SeedsIncreasing | src/lsi/sling/Main.java:116-120 | the seeds come in list order |
| Pipeline.SeedCovers | src/lsi/sling/Main.java:116-120 | when no constructor throws, every peak the loop passes over without seeding ends up used |
| Pipeline.StartChromatograms | src/lsi/sling/Main.java:115-120 | the flags are those of the seed loop; the loop returns exactly when no constructor throws; each chromatogram was seeded, in order, by its seed peak |
| Pipeline.SeedLoop | src/lsi/sling/Main.java:116-120 | the loop does all the work of the seed loop's outcome |
| Pipeline.SeedStep | src/lsi/sling/Main.java:117-119 | one pass adds at most one fresh chromatogram and keeps the loop's progress |
| Pipeline.GrowChromatogram | src/lsi/sling/Main.java:118 | one constructor call, stated through the growth function |
| Pipeline.ClusteredAll | src/lsi/sling/Main.java:126-131 | every chromatogram ends flagged; a free one belongs to a cluster; one passed over was flagged on entry or taken in by an earlier cluster; no cluster holds a later cluster's start |
| Pipeline.ClusteredKept | src/lsi/sling/Main.java:126-131 | flags set on entry stay set, and the seeds are increasing and were free on entry |
| Pipeline.NewCluster | src/lsi/sling/Main.java:127-129 | the start is flagged and a cluster is built around it, and the flags set are exactly its members' |
| Pipeline.ClusterStep | src/lsi/sling/Main.java:127-130 | one pass keeps the cluster loop's invariant |
| Pipeline.StartClusters | src/lsi/sling/Main.java:123-131 | the clusters are seeded, in order, at chromatograms that were free on entry, and the result satisfies `ClusteredAll` |
| Pipeline.TruesSpec | src/lsi/sling/Main.java:135-140 | the positions with a true verdict, in increasing order |
| Pipeline.KeepAtTrues | src/lsi/sling/Main.java:135-140 | the m-th kept cluster is the one at the m-th true verdict |
| Pipeline.KeepMembers | src/lsi/sling/Main.java:135-140 | a cluster is kept exactly when its verdict is true |
| Pipeline.KeepAll | src/lsi/sling/Main.java:135-140 | with every verdict true nothing is removed |
| Pipeline.Judge | src/lsi/sling/Main.java:136 | the verdict is that of the starting trace as found, even when an earlier check sorted a shared trace |
| Pipeline.RemoveInvalid | src/lsi/sling/Main.java:135-140 | every cluster is judged once, on its starting trace as found, and the kept clusters are those judged valid, in order; every starting trace ends as the check leaves it, sorted when longer than five points |
| Pipeline.RemovedAll | src/lsi/sling/Main.java:135-140 | when the loop ends every cluster has been judged and the kept list is `Keep` of the verdicts |
| Pipeline.JudgeNext | src/lsi/sling/Main.java:136-139 | one pass judges the next cluster and keeps the loop's invariant |
| Pipeline.JudgedStep | src/lsi/sling/Main.java:136-139 | removing an invalid cluster and stepping the index back leaves the next cluster at the same index |

## Left out

- Savitzky-Golay smoothing (`smoothToFindMinima`'s filter and its minimum finder) is not modelled. It is the parameter `smoothMinima`, which maps RTs and intensities to the RTs of the minima. Only the index bookkeeping around it is modelled. The smoothed data the isobars carry is not kept.
- `Math.sqrt` is not modelled. The standard deviation is stated through the variance, and the significance threshold takes the square root as a parameter.
- The Pearson coefficient (Apache Commons Math) is the parameter `pearson`.
- `StatUtils.median` is the parameter `median`. This applies to the medians of `alignPeaks` and to those of `LCMS2Cluster`.
- The `findMzIdxsWithinPpm` lookup of the mzXML reader library is modelled as the first and the last index whose m/z lies in the closed window `mean ± (mean/1e6)·ppm`, or nothing when no index does.
- File I/O is not modelled, and neither are the parsing of mzXML files, `fetchSpectrum`, `writeToCSV` or the timing output of `Main`.
- DBSCAN clustering is not modelled, and neither is the thread pool of `IDAmzXMLFileHandler`. Only the clusters' point functions and the grouping of one DBSCAN cluster are modelled.
- `AdductDatabase` and `adductDatabase` are not modelled. This includes reading the adduct and compound files and building the adduct list per charge. Adduct lists are inputs.
- The adduct mapping loops (`Main.java:146-160`, `MzXMLFile.java:163-180`, `PeakCluster.java:318-333`) are not modelled. They run `findAdducts` on a thread pool over lists read from the database, so only `findAdducts` itself is modelled.
- Version skew: `ScanCombination.java:81` calls `LocalPeak.addFragment`, which the `LocalPeak` listed here lacks. It is modelled as a `fragments` field with `AddFragment`.
- Version skew: `Main.java:129` calls a two-argument `PeakCluster` constructor that does not exist. It is modelled as the three-argument constructor with the file's chromatograms as the pool and 20 ppm.
- NaN and signed zero are not modelled. `RatioExceeds` does model the division by a zero minimum intensity as Java evaluates it.
- Java `assert` statements are not modelled.
- The earlier prototype under `src/com/company` is not modelled.
- AlignedPeakClusters.SquaredDistance: states the squared distance, because there is no square root.
- PeakIndex.MeanIntensity: requires a non-empty list, where Java returns NaN.
- PeakIndex.IntensityVariance: requires a non-empty list, where Java returns NaN.
- PeakIndex.SignificantPeaks: requires at least one spectrum point, because the mean of an empty list is NaN in Java.
- Isobars.Isobar.constructor: requires a non-empty list. The source reads entry 0 of the list and fails on an empty one, and `SliceIsobar` models that failure for its callers.
- Chromatograms.Chromatogram.MaxIntWithinTol: requires a window holding at least one point. Both callers check this before they call it.
- PeakClusters.PeakCluster.SetRescaledValues: requires distinct bounds, because equal bounds divide by zero in Java.
- PeakClusters.PeakCluster.Build: requires every pool trace to be non-empty, as every built chromatogram's trace is.
- Pipeline.RemoveInvalid: requires every cluster to have a starting chromatogram, as every built cluster has.
- Pipeline.StartClusters: requires every chromatogram's trace to be non-empty. It does not state that the clusters are new objects.
- AlignedPeakClusters.AlignPeaks: requires every cluster to have a chromatogram 0, as every built cluster has.

## Behaviour modelled as written

- `checkAboveOrBelow` means to pick the candidate nearest the expected isotope m/z. Its loop measures entry 0 at every step and never lowers the minimum, so it always takes the first candidate (`ClosestCandidate`).
- `alignPeaks` means to pick the nearest in-tolerance cluster of each file. Its `indexOf` over a one-element list always returns 0, so it takes the first cluster in tolerance (`Admit`).
- `isValidStartingPoint` sorts the trace of the chromatogram in place. `Judge` and `RemoveInvalid` therefore judge each trace as found, including when two clusters share a starting chromatogram. After `RemoveInvalid` every starting trace holds `CheckedTrace` of its entries as found, shared traces included.
- The walks accept no point past scan `size-2` going up, or before scan 1 going down. The outermost scans are reached only as the first step of a walk (`WalkAccepted`).
