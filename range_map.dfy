/** `RangeMap` (day5/src/main.rs): a list of rules kept sorted by the start of
    their source range. A point is mapped through the first rule that contains
    it and is left unchanged when no rule does. */
module RangeMaps {
  import opened RangeRules
  import Sorting

  datatype RangeMap = RangeMap(rules: seq<Rule>)

  /** The order of `from_iter`'s `sort_by_key(|x| x.src.start)`. */
  function StartLe(a: Rule, b: Rule): bool { a.src.start <= b.src.start }

  ghost predicate SortedByStart(rules: seq<Rule>)
  {
    Sorting.Sorted(rules, StartLe)
  }

  /** The value `RangeMap::map` computes: the first rule, in list order, that
      contains `i` in direction `dir` maps it; without one, `i` is returned. */
  function Lookup(rules: seq<Rule>, i: int, dir: Direction): int
  {
    if |rules| == 0 then i
    else if Contains(rules[0], i, dir) then Apply(rules[0], i, dir)
    else Lookup(rules[1..], i, dir)
  }

  /** A point that no rule contains is mapped to itself. */
  lemma {:induction false} LookupNone(rules: seq<Rule>, i: int, dir: Direction)
    requires forall r :: r in rules ==> !Contains(r, i, dir)
    ensures Lookup(rules, i, dir) == i
  {
    if |rules| > 0 {
      LookupNone(rules[1..], i, dir);
    }
  }

  /** A point is mapped by the first rule that contains it. */
  lemma {:induction false} LookupFirst(rules: seq<Rule>, i: int, dir: Direction, k: nat)
    requires k < |rules| && Contains(rules[k], i, dir)
    requires forall j :: 0 <= j < k ==> !Contains(rules[j], i, dir)
    ensures Lookup(rules, i, dir) == Apply(rules[k], i, dir)
  {
    if k > 0 {
      LookupFirst(rules[1..], i, dir, k - 1);
    }
  }

  /** The first rule that contains a point, given one that does. */
  lemma FirstContaining(rules: seq<Rule>, i: int, dir: Direction, k: nat) returns (f: nat)
    requires k < |rules| && Contains(rules[k], i, dir)
    ensures f <= k && Contains(rules[f], i, dir)
    ensures forall j :: 0 <= j < f ==> !Contains(rules[j], i, dir)
    ensures Lookup(rules, i, dir) == Apply(rules[f], i, dir)
  {
    f := 0;
    while !Contains(rules[f], i, dir)
      invariant f <= k
      invariant forall j :: 0 <= j < f ==> !Contains(rules[j], i, dir)
      decreases k - f
    {
      f := f + 1;
    }
    LookupFirst(rules, i, dir, f);
  }

  /** When every rule that contains the point is the same rule, the order of
      the list does not matter. */
  lemma {:induction false} LookupOnly(rules: seq<Rule>, i: int, dir: Direction, only: Rule)
    requires only in rules && Contains(only, i, dir)
    requires forall r :: r in rules && Contains(r, i, dir) ==> r == only
    ensures Lookup(rules, i, dir) == Apply(only, i, dir)
  {
    if rules[0] != only {
      LookupOnly(rules[1..], i, dir, only);
    }
  }

  /** Between two points with no source boundary of any rule in (s, x], the
      forward lookup is a single shift. */
  lemma {:induction false} LookupShift(rules: seq<Rule>, s: int, x: int)
    requires s <= x
    requires forall r :: r in rules ==> !(s < r.src.start <= x) && !(s < r.src.end <= x)
    ensures Lookup(rules, x, Forward) == Lookup(rules, s, Forward) + (x - s)
  {
    if |rules| > 0 {
      assert Contains(rules[0], x, Forward) <==> Contains(rules[0], s, Forward);
      LookupShift(rules[1..], s, x);
    }
  }

  /** A forward lookup either leaves the point alone or shifts it by the
      offset of one of the rules. */
  lemma {:induction false} LookupOffset(rules: seq<Rule>, i: int)
    ensures Lookup(rules, i, Forward) == i
         || exists r :: r in rules && Lookup(rules, i, Forward) == i + (r.dest.start - r.src.start)
  {
    if |rules| > 0 && !Contains(rules[0], i, Forward) {
      LookupOffset(rules[1..], i);
      if Lookup(rules, i, Forward) != i {
        var r :| r in rules[1..] && Lookup(rules[1..], i, Forward) == i + (r.dest.start - r.src.start);
        assert r in rules;
      }
    }
  }

  /** When no two rules share a destination point, mapping a covered point
      forward and the result in reverse gives back the point. */
  lemma LookupRoundTrip(m: RangeMap, i: int, k: nat)
    requires forall r :: r in m.rules ==> SameLength(r)
    requires forall a, b, j :: a in m.rules && b in m.rules && Contains(a, j, Reverse) && Contains(b, j, Reverse) ==> a == b
    requires k < |m.rules| && Contains(m.rules[k], i, Forward)
    ensures Lookup(m.rules, Lookup(m.rules, i, Forward), Reverse) == i
  {
    var f := FirstContaining(m.rules, i, Forward, k);
    var o := Apply(m.rules[f], i, Forward);
    LookupOnly(m.rules, o, Reverse, m.rules[f]);
  }

  /** `RangeMap::map`: a linear scan that returns at the first rule that
      contains the point. */
  method MapPoint(m: RangeMap, i: int, dir: Direction) returns (r: int)
    ensures r == Lookup(m.rules, i, dir)
  {
    var k := 0;
    while k < |m.rules|
      invariant 0 <= k <= |m.rules|
      invariant Lookup(m.rules, i, dir) == Lookup(m.rules[k..], i, dir)
    {
      var rule := m.rules[k];
      assert m.rules[k..][1..] == m.rules[k + 1..];
      if Contains(rule, i, dir) {
        return Apply(rule, i, dir);
      }
      k := k + 1;
    }
    return i;
  }

  /** `FromIterator for RangeMap` over a `HashSet` of rules: the set's
      elements, in whatever order the set yields them, sorted in place by
      source start. */
  method FromIter(rules: set<Rule>) returns (m: RangeMap)
    ensures SortedByStart(m.rules)
    ensures multiset(m.rules) == multiset(rules)
  {
    var xs := Sorting.Enumerate(rules);
    var a := new Rule[|xs|](k requires 0 <= k < |xs| => xs[k]);
    assert a[..] == xs;
    Sorting.SortWith(a, StartLe);
    m := RangeMap(a[..]);
  }
}
