/** A candidate adduct (`Adduct`): an ion, a compound and the m/z of the two together,
    ordered by that m/z; and the ppm-window lookup that peak clusters and aligned
    clusters run over a list of adducts. */
module Adducts {
  import opened Common

  /** The nine values the constructor stores; the source has no setters, so an adduct
      is a value. */
  datatype Adduct = Adduct(
    ionName: string,
    ionMassFunction: string,
    ionMass: real,
    ionCharge: int,
    compoundExactMass: real,
    resultMZ: real,
    compoundFormula: string,
    compoundCommonName: string,
    compoundSystemicName: string)

  /** `compareTo`: the adduct with the larger result m/z sorts first. */
  function CompareTo(a: Adduct, o: Adduct): (r: int)
    ensures r == -1 || r == 0 || r == 1
    ensures r == 0 <==> a.resultMZ == o.resultMZ
    ensures r == -1 <==> a.resultMZ > o.resultMZ
    ensures r == 1 <==> a.resultMZ < o.resultMZ
  {
    if a.resultMZ > o.resultMZ then -1
    else if a.resultMZ < o.resultMZ then 1
    else 0
  }

  lemma CompareToAntisymmetric(a: Adduct, b: Adduct)
    ensures CompareTo(a, b) == -CompareTo(b, a)
  {
  }

  /** `compareTo` is a total preorder: any two adducts compare one way or the other,
      and "sorts no later than" is transitive. */
  lemma CompareToTotalPreorder(a: Adduct, b: Adduct, c: Adduct)
    ensures CompareTo(a, b) <= 0 || CompareTo(b, a) <= 0
    ensures CompareTo(a, b) <= 0 && CompareTo(b, c) <= 0 ==> CompareTo(a, c) <= 0
  {
  }

  /** Strictly inside the open window `(below, above)`. */
  predicate InOpenWindow(a: Adduct, below: real, above: real)
  {
    below < a.resultMZ < above
  }

  /** What the adduct loops of `findAdducts` keep: the adducts strictly inside the
      window, in order, up to the first adduct above the window. */
  function Windowed(adducts: seq<Adduct>, below: real, above: real): seq<Adduct>
  {
    if adducts == [] then []
    else if adducts[0].resultMZ > above then []
    else (if InOpenWindow(adducts[0], below, above) then [adducts[0]] else []) + Windowed(adducts[1..], below, above)
  }

  /** Every adduct strictly inside the window, in order. */
  function AllInWindow(adducts: seq<Adduct>, below: real, above: real): seq<Adduct>
  {
    if adducts == [] then []
    else (if InOpenWindow(adducts[0], below, above) then [adducts[0]] else []) + AllInWindow(adducts[1..], below, above)
  }

  predicate AscendingMZ(adducts: seq<Adduct>)
  {
    forall i, j :: 0 <= i < j < |adducts| ==> adducts[i].resultMZ <= adducts[j].resultMZ
  }

  /** The loop keeps only adducts inside the window, and, when the list runs in
      ascending m/z, the early stop loses none of them. */
  lemma {:induction false} WindowedIsFilter(adducts: seq<Adduct>, below: real, above: real)
    ensures forall a :: a in Windowed(adducts, below, above) ==> a in adducts && InOpenWindow(a, below, above)
    ensures AscendingMZ(adducts) ==> Windowed(adducts, below, above) == AllInWindow(adducts, below, above)
  {
    if adducts != [] {
      WindowedIsFilter(adducts[1..], below, above);
      if adducts[0].resultMZ > above && AscendingMZ(adducts) {
        NoneInWindow(adducts[1..], below, above);
      }
    }
  }

  /** No adduct of a list lying wholly above the window is inside it. */
  lemma {:induction false} NoneInWindow(adducts: seq<Adduct>, below: real, above: real)
    requires forall i :: 0 <= i < |adducts| ==> adducts[i].resultMZ > above
    ensures AllInWindow(adducts, below, above) == []
  {
    if adducts != [] {
      NoneInWindow(adducts[1..], below, above);
    }
  }

  /** The loop shared by `PeakCluster.findAdducts` and `AlignedPeakCluster.findAdducts`:
      add an adduct strictly inside the window, and break at the first one above it. */
  method CollectInWindow(adducts: seq<Adduct>, below: real, above: real) returns (temp: seq<Adduct>)
    ensures temp == Windowed(adducts, below, above)
  {
    temp := [];
    var i := 0;
    while i < |adducts|
      invariant 0 <= i <= |adducts|
      invariant temp + Windowed(adducts[i..], below, above) == Windowed(adducts, below, above)
    {
      var a := adducts[i];
      assert adducts[i..] == [a] + adducts[i + 1..];
      if InOpenWindow(a, below, above) {
        temp := temp + [a];
      }
      if a.resultMZ > above {
        return;
      }
      i := i + 1;
    }
  }
}
