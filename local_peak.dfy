/** One point of one spectrum (`LocalPeak`), the list object that holds such points
    where the source aliases or sorts a list in place, and the descending-intensity
    order that `Collections.sort` imposes through `compareTo`. */
module LocalPeaks {
  import opened Common

  /** An MS2 fragment attached to an MS1 peak; a plain record in the source. */
  datatype MS2Fragment = MS2Fragment(intensity: real, mz: real, rt: real)

  /** The four data values of a peak (everything but its flag and fragments). */
  datatype Point = Point(scan: int, intensity: real, mz: real, rt: real)

  /** A spectrum point. Its four data values never change after construction
      (the source has no setters for them); only the `isUsed` flag and the
      attached fragments do. */
  class LocalPeak {
    const scanNumber: int
    const intensity: real
    const mz: real
    const rt: real
    var isUsed: bool
    var fragments: seq<MS2Fragment>

    constructor (scan: int, inten: real, massCharge: real, retentionTime: real)
      ensures Data() == Point(scan, inten, massCharge, retentionTime)
      ensures !isUsed && fragments == []
    {
      scanNumber := scan;
      intensity := inten;
      mz := massCharge;
      rt := retentionTime;
      isUsed := false;
      fragments := [];
    }

    function Data(): Point
    {
      Point(scanNumber, intensity, mz, rt)
    }

    /** One-shot flag: only ever set to true, and nothing else of the peak changes. */
    method SetIsUsed()
      modifies this`isUsed
      ensures isUsed
    {
      isUsed := true;
    }

    /** Attaches one MS2 fragment at the end of the peak's fragment list. */
    method AddFragment(f: MS2Fragment)
      modifies this`fragments
      ensures fragments == old(fragments) + [f]
    {
      fragments := fragments + [f];
    }

    /** `compareTo`: the more intense peak sorts first. */
    function CompareTo(o: LocalPeak): (r: int)
      ensures r == -1 || r == 0 || r == 1
      ensures r == 0 <==> intensity == o.intensity
      ensures r < 0 <==> intensity > o.intensity
    {
      if intensity > o.intensity then -1
      else if intensity < o.intensity then 1
      else 0
    }

    /** `equals`: every field, the flag included, is equal; `null` never is. */
    predicate Equals(obj: LocalPeak?)
      reads this, obj
      ensures Equals(obj) <==> obj != null && obj.Data() == Data() && obj.isUsed == isUsed
    {
      if obj == this then true
      else if obj == null then false
      else
        obj.intensity == intensity && obj.mz == mz && obj.isUsed == isUsed
        && obj.rt == rt && obj.scanNumber == scanNumber
    }
  }

  lemma CompareToAntisymmetric(a: LocalPeak, b: LocalPeak)
    ensures a.CompareTo(b) == -b.CompareTo(a)
  {
  }

  lemma CompareToTransitive(a: LocalPeak, b: LocalPeak, c: LocalPeak)
    requires a.CompareTo(b) <= 0 && b.CompareTo(c) <= 0
    ensures a.CompareTo(c) <= 0
  {
  }

  lemma EqualsReflexiveSymmetric(a: LocalPeak, b: LocalPeak)
    ensures a.Equals(a)
    ensures a.Equals(b) <==> b.Equals(a)
    ensures !a.Equals(null)
  {
  }

  /** A flagged peak never equals an otherwise identical unflagged copy. */
  lemma UsedNeverEqualsUnused(a: LocalPeak, b: LocalPeak)
    requires a.Data() == b.Data() && a.isUsed && !b.isUsed
    ensures !a.Equals(b) && !b.Equals(a)
  {
  }

  /** An `ArrayList<LocalPeak>` that the source aliases between objects or sorts in place. */
  class PeakList {
    var items: seq<LocalPeak>

    constructor ()
      ensures items == []
    {
      items := [];
    }
  }

  function Points(s: seq<LocalPeak>): (r: seq<Point>)
    ensures |r| == |s| && forall i :: 0 <= i < |s| ==> r[i] == s[i].Data()
  {
    seq(|s|, i requires 0 <= i < |s| => s[i].Data())
  }

  function Intensities(s: seq<LocalPeak>): (r: seq<real>)
    ensures |r| == |s| && forall i :: 0 <= i < |s| ==> r[i] == s[i].intensity
  {
    seq(|s|, i requires 0 <= i < |s| => s[i].intensity)
  }

  function MZs(s: seq<LocalPeak>): (r: seq<real>)
    ensures |r| == |s| && forall i :: 0 <= i < |s| ==> r[i] == s[i].mz
  {
    seq(|s|, i requires 0 <= i < |s| => s[i].mz)
  }

  function RTs(s: seq<LocalPeak>): (r: seq<real>)
    ensures |r| == |s| && forall i :: 0 <= i < |s| ==> r[i] == s[i].rt
  {
    seq(|s|, i requires 0 <= i < |s| => s[i].rt)
  }

  function Flags(s: seq<LocalPeak>): (r: seq<bool>)
    reads s
    ensures |r| == |s| && forall i :: 0 <= i < |s| ==> r[i] == s[i].isUsed
  {
    seq(|s|, i requires 0 <= i < |s| reads s => s[i].isUsed)
  }

  ghost predicate Distinct(s: seq<LocalPeak>)
  {
    forall i, j :: 0 <= i < j < |s| ==> s[i] != s[j]
  }

  /** `ArrayList.indexOf(p)`: the first entry that `p.equals`, or -1. */
  function IndexOf(list: seq<LocalPeak>, p: LocalPeak): (r: int)
    reads list, p
    ensures -1 <= r < |list|
    ensures r >= 0 ==> p.Equals(list[r]) && forall j :: 0 <= j < r ==> !p.Equals(list[j])
    ensures r == -1 ==> forall j :: 0 <= j < |list| ==> !p.Equals(list[j])
  {
    if list == [] then -1
    else if p.Equals(list[0]) then 0
    else var r := IndexOf(list[1..], p); if r == -1 then -1 else r + 1
  }

  /** `indexOf` over the values of a list: the first entry with data `p` and flag
      `used`, or -1. */
  function FirstMatch(data: seq<Point>, flags: seq<bool>, p: Point, used: bool): (r: int)
    requires |flags| == |data|
    ensures -1 <= r < |data|
    ensures r >= 0 ==> data[r] == p && flags[r] == used
    ensures r >= 0 ==> forall j :: 0 <= j < r ==> !(data[j] == p && flags[j] == used)
    ensures r == -1 ==> forall j :: 0 <= j < |data| ==> !(data[j] == p && flags[j] == used)
  {
    if data == [] then -1
    else if data[0] == p && flags[0] == used then 0
    else var r := FirstMatch(data[1..], flags[1..], p, used); if r == -1 then -1 else r + 1
  }

  /** Looking a peak up by `equals` is looking its data and flag up among the list's values. */
  lemma IndexOfIsFirstMatch(list: seq<LocalPeak>, q: LocalPeak)
    ensures IndexOf(list, q) == FirstMatch(Points(list), Flags(list), q.Data(), q.isUsed)
  {
  }

  /** Ordered as `Collections.sort` leaves a list under `compareTo`. */
  ghost predicate SortedByIntensity(s: seq<LocalPeak>)
  {
    forall i, j :: 0 <= i < j < |s| ==> s[i].intensity >= s[j].intensity
  }

  /** Places `x` in front of the first element that is not more intense than it. */
  function InsertByIntensity(x: LocalPeak, t: seq<LocalPeak>): (r: seq<LocalPeak>)
    ensures |r| == |t| + 1
  {
    if t == [] then [x]
    else if x.intensity >= t[0].intensity then [x] + t
    else [t[0]] + InsertByIntensity(x, t[1..])
  }

  /** `Collections.sort` with `LocalPeak.compareTo`: a stable sort into descending
      intensity, written as an insertion sort. */
  function SortByIntensity(s: seq<LocalPeak>): (r: seq<LocalPeak>)
    ensures |r| == |s|
  {
    if s == [] then [] else InsertByIntensity(s[0], SortByIntensity(s[1..]))
  }

  /** The entries of `s` whose intensity is `v`, in order. */
  function WithIntensity(s: seq<LocalPeak>, v: real): seq<LocalPeak>
  {
    if s == [] then []
    else (if s[0].intensity == v then [s[0]] else []) + WithIntensity(s[1..], v)
  }

  lemma {:induction false} InsertByIntensityPermutes(x: LocalPeak, t: seq<LocalPeak>)
    ensures multiset(InsertByIntensity(x, t)) == multiset(t) + multiset{x}
  {
    if t != [] && x.intensity < t[0].intensity {
      InsertByIntensityPermutes(x, t[1..]);
      assert t == [t[0]] + t[1..];
    }
  }

  /** Insertion keeps every intensity under a bound that `x` and all of `t` respect. */
  lemma {:induction false} InsertByIntensityBounded(x: LocalPeak, t: seq<LocalPeak>, b: real)
    requires x.intensity <= b && forall k :: 0 <= k < |t| ==> t[k].intensity <= b
    ensures forall k :: 0 <= k < |InsertByIntensity(x, t)| ==> InsertByIntensity(x, t)[k].intensity <= b
  {
    if t != [] && x.intensity < t[0].intensity {
      InsertByIntensityBounded(x, t[1..], b);
    }
  }

  lemma {:induction false} InsertByIntensitySorted(x: LocalPeak, t: seq<LocalPeak>)
    requires SortedByIntensity(t)
    ensures SortedByIntensity(InsertByIntensity(x, t))
  {
    if t != [] && x.intensity < t[0].intensity {
      var rest := InsertByIntensity(x, t[1..]);
      InsertByIntensitySorted(x, t[1..]);
      InsertByIntensityBounded(x, t[1..], t[0].intensity);
      assert ([t[0]] + rest)[1..] == rest;
    }
  }

  lemma WithIntensityCons(y: LocalPeak, r: seq<LocalPeak>, v: real)
    ensures WithIntensity([y] + r, v) == (if y.intensity == v then [y] else []) + WithIntensity(r, v)
  {
    assert ([y] + r)[1..] == r;
  }

  lemma {:induction false} InsertByIntensityStable(x: LocalPeak, t: seq<LocalPeak>, v: real)
    ensures WithIntensity(InsertByIntensity(x, t), v)
         == (if x.intensity == v then [x] else []) + WithIntensity(t, v)
  {
    if t == [] {
    } else if x.intensity >= t[0].intensity {
      WithIntensityCons(x, t, v);
    } else {
      var rest := InsertByIntensity(x, t[1..]);
      InsertByIntensityStable(x, t[1..], v);
      WithIntensityCons(t[0], rest, v);
      WithIntensityCons(t[0], t[1..], v);
      assert t == [t[0]] + t[1..];
      if x.intensity == v {
        EmptyPrefix(WithIntensity(rest, v));
        EmptyPrefix(WithIntensity(t[1..], v));
      } else {
        EmptyPrefix(WithIntensity(t[1..], v));
        EmptyPrefix(WithIntensity(t, v));
      }
    }
  }

  /** The sort orders by descending intensity, is a permutation, and is stable: the
      entries of any one intensity keep their input order. */
  lemma {:induction false} SortByIntensityCorrect(s: seq<LocalPeak>)
    ensures SortedByIntensity(SortByIntensity(s))
    ensures multiset(SortByIntensity(s)) == multiset(s)
    ensures forall v :: WithIntensity(SortByIntensity(s), v) == WithIntensity(s, v)
  {
    if s != [] {
      SortByIntensityCorrect(s[1..]);
      InsertByIntensitySorted(s[0], SortByIntensity(s[1..]));
      InsertByIntensityPermutes(s[0], SortByIntensity(s[1..]));
      assert s == [s[0]] + s[1..];
      forall v ensures WithIntensity(SortByIntensity(s), v) == WithIntensity(s, v) {
        InsertByIntensityStable(s[0], SortByIntensity(s[1..]), v);
      }
    }
  }

  /** Descending intensity is exactly what `compareTo` asks of a sorted list. */
  lemma SortedMeansCompareToOrdered(s: seq<LocalPeak>)
    ensures SortedByIntensity(s) <==> forall i, j :: 0 <= i < j < |s| ==> s[i].CompareTo(s[j]) <= 0
  {
  }
}
