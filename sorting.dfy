/** Rust's `slice::sort` and `sort_by_key`, which several of the solutions
    call: an in-place sort of an array by a total preorder. Insertion sort
    stands in for the library's merge sort; only sortedness and the
    permutation property are relied on. */
module Sorting {

  /** `le` is total and transitive: the "less than or equal" of an `Ord`
      implementation. */
  ghost predicate TotalPreorder<T(!new)>(le: (T, T) -> bool)
  {
    (forall x, y :: le(x, y) || le(y, x))
    && (forall x, y, z :: le(x, y) && le(y, z) ==> le(x, z))
  }

  ghost predicate Sorted<T>(s: seq<T>, le: (T, T) -> bool)
  {
    forall i, j :: 0 <= i < j < |s| ==> le(s[i], s[j])
  }

  function IntLe(x: int, y: int): bool { x <= y }

  /** Exchanges two neighbouring elements. */
  method SwapDown<T>(a: array<T>, j: int)
    requires 0 < j < a.Length
    modifies a
    ensures a[j - 1] == old(a[j]) && a[j] == old(a[j - 1])
    ensures forall k :: 0 <= k < a.Length && k != j - 1 && k != j ==> a[k] == old(a[k])
    ensures multiset(a[..]) == multiset(old(a[..]))
  {
    ghost var before := a[..];
    a[j - 1], a[j] := a[j], a[j - 1];
    assert a[..] == before[..j - 1] + [before[j], before[j - 1]] + before[j + 1..];
    assert before == before[..j - 1] + [before[j - 1], before[j]] + before[j + 1..];
  }

  /** Moves `a[i]` left until `a[..i + 1]` is sorted, given that `a[..i]` is. */
  method InsertAt<T(!new)>(a: array<T>, i: int, le: (T, T) -> bool)
    requires TotalPreorder(le)
    requires 0 <= i < a.Length
    requires forall p, q :: 0 <= p < q < i ==> le(a[p], a[q])
    modifies a
    ensures forall p, q :: 0 <= p < q <= i ==> le(a[p], a[q])
    ensures multiset(a[..]) == multiset(old(a[..]))
  {
    var j := i;
    while j > 0 && !le(a[j - 1], a[j])
      invariant 0 <= j <= i
      invariant forall p, q :: 0 <= p < q <= i && p != j && q != j ==> le(a[p], a[q])
      invariant forall q :: j < q <= i ==> le(a[j], a[q])
      invariant multiset(a[..]) == multiset(old(a[..]))
    {
      SwapDown(a, j);
      j := j - 1;
    }
  }

  /** An in-place sort by a total preorder. */
  method SortWith<T(!new)>(a: array<T>, le: (T, T) -> bool)
    requires TotalPreorder(le)
    modifies a
    ensures Sorted(a[..], le)
    ensures multiset(a[..]) == multiset(old(a[..]))
  {
    var i := 0;
    while i < a.Length
      invariant 0 <= i <= a.Length
      invariant forall p, q :: 0 <= p < q < i ==> le(a[p], a[q])
      invariant multiset(a[..]) == multiset(old(a[..]))
    {
      InsertAt(a, i, le);
      i := i + 1;
    }
  }

  /** The elements of a hash set in the order iteration yields them, which
      the model leaves open. */
  method Enumerate<T>(s: set<T>) returns (xs: seq<T>)
    ensures multiset(xs) == multiset(s)
  {
    xs := [];
    var rest := s;
    while rest != {}
      invariant rest <= s
      invariant multiset(xs) == multiset(s - rest)
    {
      var x :| x in rest;
      assert s - (rest - {x}) == (s - rest) + {x};
      xs := xs + [x];
      rest := rest - {x};
    }
    assert s - rest == s;
  }

  /** A sorted enumeration of a set of integers is strictly increasing. */
  lemma SortedSetIncreasing(xs: seq<int>, s: set<int>)
    requires Sorted(xs, IntLe) && multiset(xs) == multiset(s)
    ensures forall i, j :: 0 <= i < j < |xs| ==> xs[i] < xs[j]
    ensures forall x :: x in xs <==> x in s
  {
    forall i, j | 0 <= i < j < |xs|
      ensures xs[i] < xs[j]
    {
      assert xs == xs[..j] + xs[j..];
      assert xs[i] in xs[..j] && xs[j] in xs[j..];
      assert multiset(xs)[xs[i]] == multiset(xs[..j])[xs[i]] + multiset(xs[j..])[xs[i]];
      assert multiset(s)[xs[i]] <= 1;
    }
    forall x
      ensures x in xs <==> x in s
    {
      assert x in xs <==> x in multiset(xs);
    }
  }
}
