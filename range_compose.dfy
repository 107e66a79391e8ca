/** The composition `reduce` sets out to compute (day5/src/main.rs, "the
    mapping x -> |self| -> |other| -> y into x -> |new| -> y"), cut on the
    domain instead of the intermediate line: the pieces are bounded by the
    source boundaries of `first`, the source boundaries of `second` pulled
    back through each rule of `first`, and the source boundaries of `second`
    themselves (for points `first` leaves alone). On each piece both maps are
    a single shift, so one rule per piece reproduces the chain exactly. */
module RangeCompose {
  import opened RangeRules
  import opened RangeMaps
  import opened Cuts

  function Offset(r: Rule): int { r.dest.start - r.src.start }

  /** Both ends of every source range. */
  function SrcBounds(m: RangeMap): set<int>
  {
    (set r | r in m.rules :: r.src.start) + (set r | r in m.rules :: r.src.end)
  }

  function DomainBoundaries(first: RangeMap, second: RangeMap): set<int>
  {
    SrcBounds(first) + SrcBounds(second)
    + (set r, b | r in first.rules && b in SrcBounds(second) :: b - Offset(r))
  }

  /** The chain `second(first(x))` that the solution's seed walk evaluates. */
  function Chain(first: RangeMap, second: RangeMap, x: int): int
  {
    Lookup(second.rules, Lookup(first.rules, x, Forward), Forward)
  }

  /** The rule for the piece [s, e): it shifts the piece to where the chain
      sends its first point. */
  function ComposedRule(first: RangeMap, second: RangeMap, s: int, e: int): Rule
  {
    var d := Chain(first, second, s);
    Rule(Range(s, e), Range(d, d + (e - s)))
  }

  ghost function ComposedRules(first: RangeMap, second: RangeMap): set<Rule>
  {
    var bs := DomainBoundaries(first, second);
    set s, e | s in bs && e in bs && Adjacent(bs, s, e) :: ComposedRule(first, second, s, e)
  }

  function ComposedPair(first: RangeMap, second: RangeMap, cuts: seq<int>, j: int): Rule
    requires 0 <= j && j + 1 < |cuts|
  {
    ComposedRule(first, second, cuts[j], cuts[j + 1])
  }

  function ComposedPairs(first: RangeMap, second: RangeMap, cuts: seq<int>, n: int): set<Rule>
  {
    set j | 0 <= j && j + 1 < n && j + 1 < |cuts| :: ComposedPair(first, second, cuts, j)
  }

  lemma ComposedPairsStep(first: RangeMap, second: RangeMap, cuts: seq<int>, k: int)
    requires 0 <= k && k + 1 < |cuts|
    ensures ComposedPairs(first, second, cuts, k + 2)
         == ComposedPairs(first, second, cuts, k + 1) + {ComposedPair(first, second, cuts, k)}
  {
  }

  lemma ComposedPairsAll(first: RangeMap, second: RangeMap, cuts: seq<int>)
    requires forall i, j :: 0 <= i < j < |cuts| ==> cuts[i] < cuts[j]
    requires forall x :: x in cuts <==> x in DomainBoundaries(first, second)
    ensures ComposedPairs(first, second, cuts, |cuts|) == ComposedRules(first, second)
  {
    ConsecutivePairs(cuts, DomainBoundaries(first, second));
    ComposedInPairs(first, second, cuts);
    PairsInComposed(first, second, cuts);
  }

  lemma ComposedInPairs(first: RangeMap, second: RangeMap, cuts: seq<int>)
    requires forall s, e :: Adjacent(DomainBoundaries(first, second), s, e) ==>
      exists j :: 0 <= j && j + 1 < |cuts| && cuts[j] == s && cuts[j + 1] == e
    ensures ComposedRules(first, second) <= ComposedPairs(first, second, cuts, |cuts|)
  {
    forall r | r in ComposedRules(first, second)
      ensures r in ComposedPairs(first, second, cuts, |cuts|)
    {
      var bs := DomainBoundaries(first, second);
      var s, e :| Adjacent(bs, s, e) && r == ComposedRule(first, second, s, e);
      ComposedPairAt(first, second, cuts, s, e);
    }
  }

  lemma ComposedPairAt(first: RangeMap, second: RangeMap, cuts: seq<int>, s: int, e: int)
    requires exists j :: 0 <= j && j + 1 < |cuts| && cuts[j] == s && cuts[j + 1] == e
    ensures ComposedRule(first, second, s, e) in ComposedPairs(first, second, cuts, |cuts|)
  {
    var j :| 0 <= j && j + 1 < |cuts| && cuts[j] == s && cuts[j + 1] == e;
    assert ComposedRule(first, second, s, e) == ComposedPair(first, second, cuts, j);
  }

  lemma PairsInComposed(first: RangeMap, second: RangeMap, cuts: seq<int>)
    requires forall j :: 0 <= j && j + 1 < |cuts| ==> Adjacent(DomainBoundaries(first, second), cuts[j], cuts[j + 1])
    ensures ComposedPairs(first, second, cuts, |cuts|) <= ComposedRules(first, second)
  {
    var bs := DomainBoundaries(first, second);
    forall r | r in ComposedPairs(first, second, cuts, |cuts|)
      ensures r in ComposedRules(first, second)
    {
      var j :| 0 <= j && j + 1 < |cuts| && r == ComposedPair(first, second, cuts, j);
      assert Adjacent(bs, cuts[j], cuts[j + 1]);
    }
  }

  /** One rule per pair of consecutive domain cut points. */
  method CollectComposed(first: RangeMap, second: RangeMap, cuts: seq<int>) returns (rules: set<Rule>)
    ensures rules == ComposedPairs(first, second, cuts, |cuts|)
  {
    rules := {};
    var k := 0;
    while k + 1 < |cuts|
      invariant 0 <= k <= |cuts| && (k == 0 || k < |cuts|)
      invariant rules == ComposedPairs(first, second, cuts, k + 1)
    {
      var s, e := cuts[k], cuts[k + 1];
      var mid := MapPoint(first, s, Forward);
      var d := MapPoint(second, mid, Forward);
      var rule := Rule(Range(s, e), Range(d, d + (e - s)));
      assert rule == ComposedPair(first, second, cuts, k);
      ComposedPairsStep(first, second, cuts, k);
      rules := rules + {rule};
      k := k + 1;
    }
    assert ComposedPairs(first, second, cuts, k + 1) == ComposedPairs(first, second, cuts, |cuts|);
  }

  /** The corrected `reduce`: the same pipeline over the domain cut points. */
  method Compose(first: RangeMap, second: RangeMap) returns (composed: RangeMap)
    ensures SortedByStart(composed.rules)
    ensures multiset(composed.rules) == multiset(ComposedRules(first, second))
  {
    var cuts := SortedCuts(DomainBoundaries(first, second));
    var rules := CollectComposed(first, second, cuts);
    ComposedPairsAll(first, second, cuts);
    composed := FromIter(rules);
  }

  lemma PulledBack(first: RangeMap, second: RangeMap, q: Rule, b: int)
    requires q in first.rules && b in SrcBounds(second)
    ensures b - Offset(q) in DomainBoundaries(first, second)
  {
  }

  /** Shifted by no offset, or by the offset of a rule of `first`, a piece of
      the domain holds no source boundary of `second` inside it: none lies
      after its first point and at or before any other. */
  lemma NoSecondBoundary(first: RangeMap, second: RangeMap, s: int, e: int, x: int, delta: int)
    requires Adjacent(DomainBoundaries(first, second), s, e) && s <= x < e
    requires delta == 0 || exists q :: q in first.rules && delta == Offset(q)
    ensures forall r :: r in second.rules ==>
      !(s + delta < r.src.start <= x + delta) && !(s + delta < r.src.end <= x + delta)
  {
    var bs := DomainBoundaries(first, second);
    forall r | r in second.rules
      ensures !(s + delta < r.src.start <= x + delta) && !(s + delta < r.src.end <= x + delta)
    {
      assert r.src.start in SrcBounds(second) && r.src.end in SrcBounds(second);
      if delta == 0 {
        assert r.src.start in bs && r.src.end in bs;
      } else {
        var q :| q in first.rules && delta == Offset(q);
        PulledBack(first, second, q, r.src.start);
        PulledBack(first, second, q, r.src.end);
      }
    }
  }

  /** Pieces of the domain hold no boundary of either map inside them, so the
      chain is one shift across a piece. */
  lemma ChainShift(first: RangeMap, second: RangeMap, s: int, e: int, x: int)
    requires Adjacent(DomainBoundaries(first, second), s, e) && s <= x < e
    ensures Chain(first, second, x) == Chain(first, second, s) + (x - s)
  {
    var ys, yx := Lookup(first.rules, s, Forward), Lookup(first.rules, x, Forward);
    FirstShift(first, second, s, e, x);
    assert yx == ys + (x - s);
    LookupOffset(first.rules, s);
    NoSecondBoundary(first, second, s, e, x, ys - s);
    LookupShift(second.rules, ys, yx);
    assert Chain(first, second, x) == Lookup(second.rules, yx, Forward);
    assert Chain(first, second, s) == Lookup(second.rules, ys, Forward);
  }

  /** Across a piece of the domain, `first` is one shift. */
  lemma FirstShift(first: RangeMap, second: RangeMap, s: int, e: int, x: int)
    requires Adjacent(DomainBoundaries(first, second), s, e) && s <= x < e
    ensures Lookup(first.rules, x, Forward) == Lookup(first.rules, s, Forward) + (x - s)
  {
    forall r | r in first.rules
      ensures !(s < r.src.start <= x) && !(s < r.src.end <= x)
    {
      assert r.src.start in SrcBounds(first) && r.src.end in SrcBounds(first);
    }
    LookupShift(first.rules, s, x);
  }

  /** The corrected reduction is the composition: for every point, any
      enumeration of the composed rules sends it where the chain does. No
      assumption about the two maps is needed. */
  lemma ComposeMatchesChain(first: RangeMap, second: RangeMap, rs: seq<Rule>, x: int)
    requires multiset(rs) == multiset(ComposedRules(first, second))
    ensures Lookup(rs, x, Forward) == Chain(first, second, x)
  {
    var bs := DomainBoundaries(first, second);
    SameElements(rs, ComposedRules(first, second));
    if exists s, e :: Adjacent(bs, s, e) && s <= x < e {
      var s, e :| Adjacent(bs, s, e) && s <= x < e;
      MatchesInPiece(first, second, rs, x, s, e);
    } else {
      MatchesOffPieces(first, second, rs, x);
    }
  }

  /** In the piece [s, e) around `x`, only the rule of that piece holds
      `x`, and the chain is one shift across the piece. */
  lemma MatchesInPiece(first: RangeMap, second: RangeMap, rs: seq<Rule>, x: int, s: int, e: int)
    requires forall r :: r in rs <==> r in ComposedRules(first, second)
    requires Adjacent(DomainBoundaries(first, second), s, e) && s <= x < e
    ensures Lookup(rs, x, Forward) == Chain(first, second, x)
  {
    var bs := DomainBoundaries(first, second);
    var only := ComposedRule(first, second, s, e);
    assert only in ComposedRules(first, second);
    forall r | r in rs && Contains(r, x, Forward)
      ensures r == only
    {
      var s', e' :| Adjacent(bs, s', e') && r == ComposedRule(first, second, s', e');
      AdjacentUnique(bs, s, e, s', e', x);
    }
    LookupOnly(rs, x, Forward, only);
    ChainShift(first, second, s, e, x);
  }

  /** Outside every piece, no composed rule and no rule of either map holds
      `x`, so every lookup leaves it alone. */
  lemma MatchesOffPieces(first: RangeMap, second: RangeMap, rs: seq<Rule>, x: int)
    requires forall r :: r in rs <==> r in ComposedRules(first, second)
    requires !exists s, e :: Adjacent(DomainBoundaries(first, second), s, e) && s <= x < e
    ensures Lookup(rs, x, Forward) == x == Chain(first, second, x)
  {
    var bs := DomainBoundaries(first, second);
    forall r | r in rs
      ensures !Contains(r, x, Forward)
    {
      var s', e' :| Adjacent(bs, s', e') && r == ComposedRule(first, second, s', e');
    }
    LookupNone(rs, x, Forward);
    forall r | r in first.rules
      ensures !Contains(r, x, Forward)
    {
      if Contains(r, x, Forward) {
        var s, e := EnclosingPair(bs, r.src.start, r.src.end, x);
      }
    }
    LookupNone(first.rules, x, Forward);
    forall r | r in second.rules
      ensures !Contains(r, x, Forward)
    {
      if Contains(r, x, Forward) {
        var s, e := EnclosingPair(bs, r.src.start, r.src.end, x);
      }
    }
    LookupNone(second.rules, x, Forward);
  }

  /** The maps applied one after another, as the seed walk applies the
      seven named maps. */
  function ChainAll(maps: seq<RangeMap>, x: int): int
  {
    if |maps| == 0 then x else Lookup(maps[|maps| - 1].rules, ChainAll(maps[..|maps| - 1], x), Forward)
  }

  /** The driver loop of `main` with the corrected reduction: start from the
      first map and fold the rest in. The result sends every point where the
      whole chain does. */
  method ComposeAll(maps: seq<RangeMap>) returns (reduced: RangeMap)
    requires |maps| > 0
    ensures forall x :: Lookup(reduced.rules, x, Forward) == ChainAll(maps, x)
  {
    reduced := maps[0];
    assert maps[..1][..0] == [];
    var k := 1;
    while k < |maps|
      invariant 1 <= k <= |maps|
      invariant forall x :: Lookup(reduced.rules, x, Forward) == ChainAll(maps[..k], x)
    {
      var next := Compose(reduced, maps[k]);
      forall x
        ensures Lookup(next.rules, x, Forward) == ChainAll(maps[..k + 1], x)
      {
        ComposeMatchesChain(reduced, maps[k], next.rules, x);
        assert maps[..k + 1][..k] == maps[..k];
      }
      reduced := next;
      k := k + 1;
    }
    assert maps[..k] == maps;
  }
}
