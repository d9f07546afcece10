/** The three IComparer classes: each orders its values by one integer key, answering -1, 1 or
    0 as the key is less, greater or equal, and ignores everything else. The endpoint lists are
    sorted with the first one. */
module Comparers {
  import opened Utilities
  import opened Seams

  /** KeyValuePair<Point, double> of the endpoint lists. The value is always a cumulative cost,
      an int, so it is modelled as one. */
  datatype Pair = Pair(key: Point, value: int)

  /** CumulativeEnergyComparePairs.Compare: by value. */
  function ComparePairs(a: Pair, b: Pair): (r: int)
    ensures r == -1 <==> a.value < b.value
    ensures r == 1 <==> a.value > b.value
    ensures r == 0 <==> a.value == b.value
  {
    if a.value < b.value then -1 else if a.value > b.value then 1 else 0
  }

  /** CompareSeam2.Compare: seams by start index. */
  function CompareSeams(a: Seam, b: Seam): (r: int)
    ensures r == -1 <==> a.startIndex < b.startIndex
    ensures r == 1 <==> a.startIndex > b.startIndex
    ensures r == 0 <==> a.startIndex == b.startIndex
  {
    if a.startIndex < b.startIndex then -1 else if a.startIndex > b.startIndex then 1 else 0
  }

  /** CompareSeam.Compare: points by x. */
  function ComparePoints(a: Point, b: Point): (r: int)
    ensures r == -1 <==> a.x < b.x
    ensures r == 1 <==> a.x > b.x
    ensures r == 0 <==> a.x == b.x
  {
    if a.x < b.x then -1 else if a.x > b.x then 1 else 0
  }

  lemma ComparePairsAntisymmetric(a: Pair, b: Pair)
    ensures ComparePairs(a, b) == -ComparePairs(b, a)
  {
  }

  /** Equal costs compare equal whatever their cells are. */
  lemma ComparePairsIgnoresKey(a: Pair, b: Pair, p: Point, q: Point)
    ensures ComparePairs(a, b) == ComparePairs(Pair(p, a.value), Pair(q, b.value))
  {
  }

  lemma ComparePairsTransitive(a: Pair, b: Pair, c: Pair)
    ensures ComparePairs(a, b) <= 0 && ComparePairs(b, c) <= 0 ==> ComparePairs(a, c) <= 0
    ensures ComparePairs(a, b) < 0 && ComparePairs(b, c) <= 0 ==> ComparePairs(a, c) < 0
  {
  }

  lemma ComparePairsTotal(a: Pair, b: Pair)
    ensures ComparePairs(a, b) <= 0 || ComparePairs(b, a) <= 0
  {
  }

  lemma CompareSeamsAntisymmetric(a: Seam, b: Seam)
    ensures CompareSeams(a, b) == -CompareSeams(b, a)
  {
  }

  /** Only the start index takes part: the step codes, direction and value do not. */
  lemma CompareSeamsIgnoresOtherFields(a: Seam, b: Seam, a': Seam, b': Seam)
    requires a.startIndex == a'.startIndex && b.startIndex == b'.startIndex
    ensures CompareSeams(a, b) == CompareSeams(a', b')
  {
  }

  lemma CompareSeamsTransitive(a: Seam, b: Seam, c: Seam)
    ensures CompareSeams(a, b) <= 0 && CompareSeams(b, c) <= 0 ==> CompareSeams(a, c) <= 0
    ensures CompareSeams(a, b) < 0 && CompareSeams(b, c) <= 0 ==> CompareSeams(a, c) < 0
  {
  }

  lemma ComparePointsAntisymmetric(a: Point, b: Point)
    ensures ComparePoints(a, b) == -ComparePoints(b, a)
  {
  }

  /** Points in the same column compare equal. */
  lemma ComparePointsIgnoresY(a: Point, b: Point)
    requires a.x == b.x
    ensures ComparePoints(a, b) == 0
  {
  }

  lemma ComparePointsTransitive(a: Point, b: Point, c: Point)
    ensures ComparePoints(a, b) <= 0 && ComparePoints(b, c) <= 0 ==> ComparePoints(a, c) <= 0
    ensures ComparePoints(a, b) < 0 && ComparePoints(b, c) <= 0 ==> ComparePoints(a, c) < 0
  {
  }

  /** Ascending under ComparePairs: no pair compares greater than a later one. */
  predicate SortedByValue(xs: seq<Pair>)
  {
    forall i, j :: 0 <= i < j < |xs| ==> ComparePairs(xs[i], xs[j]) <= 0
  }

  /** Insert p into a sorted list before the first pair that compares greater. */
  function Insert(p: Pair, xs: seq<Pair>): (r: seq<Pair>)
  {
    if xs == [] || ComparePairs(p, xs[0]) <= 0 then [p] + xs else [xs[0]] + Insert(p, xs[1..])
  }

  /** List.Sort with CumulativeEnergyComparePairs, as an insertion sort. */
  function SortPairs(xs: seq<Pair>): (r: seq<Pair>)
  {
    if xs == [] then [] else Insert(xs[0], SortPairs(xs[1..]))
  }

  lemma {:induction false} InsertPermutes(p: Pair, xs: seq<Pair>)
    ensures multiset(Insert(p, xs)) == multiset(xs) + multiset{p}
  {
    if xs != [] && ComparePairs(p, xs[0]) > 0 {
      InsertPermutes(p, xs[1..]);
      assert xs == [xs[0]] + xs[1..];
    }
  }

  lemma {:induction false} InsertSorted(p: Pair, xs: seq<Pair>)
    requires SortedByValue(xs)
    ensures SortedByValue(Insert(p, xs))
  {
    if xs != [] && ComparePairs(p, xs[0]) > 0 {
      InsertSorted(p, xs[1..]);
      InsertPermutes(p, xs[1..]);
      var r := Insert(p, xs[1..]);
      forall k | 0 <= k < |r|
        ensures xs[0].value <= r[k].value
      {
        assert r[k] in multiset(r);
        assert r[k] in multiset(xs[1..]) + multiset{p};
        if r[k] != p {
          assert r[k] in xs[1..];
        }
      }
    }
  }

  lemma {:induction false} SortPairsPermutes(xs: seq<Pair>)
    ensures multiset(SortPairs(xs)) == multiset(xs)
  {
    if xs != [] {
      SortPairsPermutes(xs[1..]);
      InsertPermutes(xs[0], SortPairs(xs[1..]));
      assert xs == [xs[0]] + xs[1..];
    }
  }

  lemma {:induction false} SortPairsSorted(xs: seq<Pair>)
    ensures SortedByValue(SortPairs(xs))
  {
    if xs != [] {
      SortPairsSorted(xs[1..]);
      InsertSorted(xs[0], SortPairs(xs[1..]));
    }
  }

  /** What the sort leaves: an ascending rearrangement of its input, the same length. */
  lemma SortPairsIsSortedPermutation(xs: seq<Pair>)
    ensures SortedByValue(SortPairs(xs)) && multiset(SortPairs(xs)) == multiset(xs)
    ensures |SortPairs(xs)| == |xs|
  {
    SortPairsSorted(xs);
    SortPairsPermutes(xs);
    assert |multiset(SortPairs(xs))| == |multiset(xs)|;
  }
}
