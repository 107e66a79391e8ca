/** Cutting the number line at a finite set of points: the sorted cut
    points, the pieces between neighbouring cuts, and the piece around a
    point. Shared by `RangeMap::reduce` (day5/src/main.rs) and its corrected
    counterpart. */
module Cuts {
  import Sorting

  /** `s` and `e` are neighbours in the sorted cut points. */
  ghost predicate Adjacent(bs: set<int>, s: int, e: int)
  {
    s in bs && e in bs && s < e && forall b :: b in bs ==> !(s < b < e)
  }

  /** The cut points collected into a vector and sorted (`collect` then
      `sort` in `reduce`). */
  method SortedCuts(bset: set<int>) returns (cuts: seq<int>)
    ensures forall i, j :: 0 <= i < j < |cuts| ==> cuts[i] < cuts[j]
    ensures forall x :: x in cuts <==> x in bset
    ensures multiset(cuts) == multiset(bset)
  {
    var xs := Sorting.Enumerate(bset);
    var b := new int[|xs|](k requires 0 <= k < |xs| => xs[k]);
    assert b[..] == xs;
    Sorting.SortWith(b, Sorting.IntLe);
    cuts := b[..];
    Sorting.SortedSetIncreasing(cuts, bset);
  }

  /** In a strictly increasing enumeration of a set, the pairs of
      consecutive elements are exactly the adjacent pairs of the set. */
  lemma ConsecutivePairs(xs: seq<int>, bs: set<int>)
    requires forall i, j :: 0 <= i < j < |xs| ==> xs[i] < xs[j]
    requires forall x :: x in xs <==> x in bs
    ensures forall j :: 0 <= j && j + 1 < |xs| ==> Adjacent(bs, xs[j], xs[j + 1])
    ensures forall s, e :: Adjacent(bs, s, e) ==> exists j :: 0 <= j && j + 1 < |xs| && xs[j] == s && xs[j + 1] == e
  {
    forall j | 0 <= j && j + 1 < |xs|
      ensures Adjacent(bs, xs[j], xs[j + 1])
    {
      forall b | b in bs
        ensures !(xs[j] < b < xs[j + 1])
      {
        var k :| 0 <= k < |xs| && xs[k] == b;
        assert k <= j || k >= j + 1;
      }
    }
    forall s, e | Adjacent(bs, s, e)
      ensures exists j :: 0 <= j && j + 1 < |xs| && xs[j] == s && xs[j + 1] == e
    {
      var i :| 0 <= i < |xs| && xs[i] == s;
      var k :| 0 <= k < |xs| && xs[k] == e;
      assert i < k;
      assert xs[i + 1] in bs;
      assert xs[i + 1] >= e;
      assert i + 1 == k;
    }
  }

  /** Between two cut points there is a pair of neighbours around any point. */
  lemma EnclosingPair(bs: set<int>, lo: int, hi: int, x: int) returns (s: int, e: int)
    requires lo in bs && hi in bs && lo <= x < hi
    ensures Adjacent(bs, s, e) && s <= x < e
    decreases hi - lo
  {
    if exists b :: b in bs && lo < b < hi {
      var b :| b in bs && lo < b < hi;
      if b <= x {
        s, e := EnclosingPair(bs, b, hi, x);
      } else {
        s, e := EnclosingPair(bs, lo, b, x);
      }
    } else {
      s, e := lo, hi;
    }
  }

  /** Two pairs of neighbours that share a point are the same pair. */
  lemma AdjacentUnique(bs: set<int>, s: int, e: int, s': int, e': int, x: int)
    requires Adjacent(bs, s, e) && s <= x < e
    requires Adjacent(bs, s', e') && s' <= x < e'
    ensures s == s' && e == e'
  {
  }

  /** A sequence whose multiset is that of a set holds exactly its elements. */
  lemma SameElements<T>(xs: seq<T>, s: set<T>)
    requires multiset(xs) == multiset(s)
    ensures forall x :: x in xs <==> x in s
  {
    forall x
      ensures x in xs <==> x in s
    {
      assert x in xs <==> x in multiset(xs);
    }
  }
}
