/** `RangeMap::reduce` (day5/src/main.rs), as written: it cuts the
    intermediate number line at every destination boundary of the first map
    and every source boundary of the second, and for each piece [s, e) emits
    the rule from [first⁻¹(s), first⁻¹(s) + (e - s)) to
    [second(s), second(s) + (e - s)). The first map is the receiver `self`. */
module RangeReduce {
  import opened RangeRules
  import opened RangeMaps
  import Sorting
  import opened Cuts

  /** The cut points: both ends of every destination range of `first` and of
      every source range of `second`. */
  function Boundaries(first: RangeMap, second: RangeMap): set<int>
  {
    (set r | r in first.rules :: r.dest.start) + (set r | r in first.rules :: r.dest.end)
    + (set r | r in second.rules :: r.src.start) + (set r | r in second.rules :: r.src.end)
  }

  /** The rule `reduce` emits for the piece [s, e). */
  function ReducedRule(first: RangeMap, second: RangeMap, s: int, e: int): Rule
  {
    var src := Lookup(first.rules, s, Reverse);
    var dest := Lookup(second.rules, s, Forward);
    Rule(Range(src, src + (e - s)), Range(dest, dest + (e - s)))
  }

  /** The set of rules `reduce` collects into a `HashSet`. */
  ghost function ReducedRules(first: RangeMap, second: RangeMap): set<Rule>
  {
    var bs := Boundaries(first, second);
    set s, e | s in bs && e in bs && Adjacent(bs, s, e) :: ReducedRule(first, second, s, e)
  }

  /** The rule for the `j`-th pair of consecutive cut points. */
  function PairRule(first: RangeMap, second: RangeMap, cuts: seq<int>, j: int): Rule
    requires 0 <= j && j + 1 < |cuts|
  {
    ReducedRule(first, second, cuts[j], cuts[j + 1])
  }

  /** The rules for the pairs among the first `n` cut points. */
  function PairSet(first: RangeMap, second: RangeMap, cuts: seq<int>, n: int): set<Rule>
  {
    set j | 0 <= j && j + 1 < n && j + 1 < |cuts| :: PairRule(first, second, cuts, j)
  }

  lemma PairSetStep(first: RangeMap, second: RangeMap, cuts: seq<int>, k: int)
    requires 0 <= k && k + 1 < |cuts|
    ensures PairSet(first, second, cuts, k + 2) == PairSet(first, second, cuts, k + 1) + {PairRule(first, second, cuts, k)}
  {
  }

  /** The rules built from consecutive sorted cut points are `ReducedRules`. */
  lemma PairRules(first: RangeMap, second: RangeMap, cuts: seq<int>)
    requires forall i, j :: 0 <= i < j < |cuts| ==> cuts[i] < cuts[j]
    requires forall x :: x in cuts <==> x in Boundaries(first, second)
    ensures PairSet(first, second, cuts, |cuts|) == ReducedRules(first, second)
  {
    ConsecutivePairs(cuts, Boundaries(first, second));
    ReducedInPairs(first, second, cuts);
    PairsInReduced(first, second, cuts);
  }

  lemma ReducedInPairs(first: RangeMap, second: RangeMap, cuts: seq<int>)
    requires forall s, e :: Adjacent(Boundaries(first, second), s, e) ==>
      exists j :: 0 <= j && j + 1 < |cuts| && cuts[j] == s && cuts[j + 1] == e
    ensures ReducedRules(first, second) <= PairSet(first, second, cuts, |cuts|)
  {
    forall r | r in ReducedRules(first, second)
      ensures r in PairSet(first, second, cuts, |cuts|)
    {
      var bs := Boundaries(first, second);
      var s, e :| Adjacent(bs, s, e) && r == ReducedRule(first, second, s, e);
      ReducedPair(first, second, cuts, s, e);
    }
  }

  lemma ReducedPair(first: RangeMap, second: RangeMap, cuts: seq<int>, s: int, e: int)
    requires exists j :: 0 <= j && j + 1 < |cuts| && cuts[j] == s && cuts[j + 1] == e
    ensures ReducedRule(first, second, s, e) in PairSet(first, second, cuts, |cuts|)
  {
    var j :| 0 <= j && j + 1 < |cuts| && cuts[j] == s && cuts[j + 1] == e;
    assert ReducedRule(first, second, s, e) == PairRule(first, second, cuts, j);
  }

  lemma PairsInReduced(first: RangeMap, second: RangeMap, cuts: seq<int>)
    requires forall j :: 0 <= j && j + 1 < |cuts| ==> Adjacent(Boundaries(first, second), cuts[j], cuts[j + 1])
    ensures PairSet(first, second, cuts, |cuts|) <= ReducedRules(first, second)
  {
    var bs := Boundaries(first, second);
    forall r | r in PairSet(first, second, cuts, |cuts|)
      ensures r in ReducedRules(first, second)
    {
      var j :| 0 <= j && j + 1 < |cuts| && r == PairRule(first, second, cuts, j);
      assert Adjacent(bs, cuts[j], cuts[j + 1]);
    }
  }

  /** The `zip`/`map`/`collect` pipeline: one rule per pair of consecutive
      cut points, gathered into a set. */
  method CollectRules(first: RangeMap, second: RangeMap, cuts: seq<int>) returns (rules: set<Rule>)
    ensures rules == PairSet(first, second, cuts, |cuts|)
    ensures |rules| == 0 || |rules| < |cuts|
  {
    rules := {};
    var k := 0;
    while k + 1 < |cuts|
      invariant 0 <= k <= |cuts| && (k == 0 || k < |cuts|)
      invariant rules == PairSet(first, second, cuts, k + 1)
      invariant |rules| <= k
    {
      var s, e := cuts[k], cuts[k + 1];
      var srcStart := MapPoint(first, s, Reverse);
      var destStart := MapPoint(second, s, Forward);
      var rule := Rule(Range(srcStart, srcStart + (e - s)), Range(destStart, destStart + (e - s)));
      assert rule == PairRule(first, second, cuts, k);
      PairSetStep(first, second, cuts, k);
      rules := rules + {rule};
      k := k + 1;
    }
    assert PairSet(first, second, cuts, k + 1) == PairSet(first, second, cuts, |cuts|);
  }

  /** `RangeMap::reduce`: sort the cut points, emit one rule per pair of
      neighbours into a set, and build the sorted map from the set. There are
      fewer rules than cut points. */
  method Reduce(first: RangeMap, second: RangeMap) returns (reduced: RangeMap)
    ensures SortedByStart(reduced.rules)
    ensures multiset(reduced.rules) == multiset(ReducedRules(first, second))
    ensures |reduced.rules| == 0 || |reduced.rules| < |Boundaries(first, second)|
  {
    var bset := Boundaries(first, second);
    var cuts := SortedCuts(bset);
    var rules := CollectRules(first, second, cuts);
    PairRules(first, second, cuts);
    reduced := FromIter(rules);
    CountBound(reduced.rules, rules, cuts, bset);
  }

  lemma CountBound(rs: seq<Rule>, rules: set<Rule>, cuts: seq<int>, bset: set<int>)
    requires multiset(rs) == multiset(rules)
    requires multiset(cuts) == multiset(bset)
    requires |rules| == 0 || |rules| < |cuts|
    ensures |rs| == 0 || |rs| < |bset|
  {
    assert |multiset(rs)| == |multiset(rules)|;
    assert |multiset(cuts)| == |multiset(bset)|;
  }

  /** Every reduced rule has a source and a destination of the same,
      strictly positive length: the length of its piece. */
  lemma ReducedRulesShape(first: RangeMap, second: RangeMap, r: Rule)
    requires r in ReducedRules(first, second)
    ensures SameLength(r) && r.src.start < r.src.end
  {
    var bs := Boundaries(first, second);
    var s, e :| s in bs && e in bs && Adjacent(bs, s, e) && r == ReducedRule(first, second, s, e);
  }

  /** The source range of a reduced rule either is its own piece [s, e)
      (when no destination of `first` holds `s`) or lies inside the source
      range of a rule of `first`. */
  lemma ReducedSource(first: RangeMap, second: RangeMap, s: int, e: int)
    requires forall r :: r in first.rules ==> SameLength(r)
    requires Adjacent(Boundaries(first, second), s, e)
    ensures var src := ReducedRule(first, second, s, e).src;
      src == Range(s, e)
      || exists q :: q in first.rules && q.src.start <= src.start && src.end <= q.src.end
  {
    var bs := Boundaries(first, second);
    if exists k :: 0 <= k < |first.rules| && Contains(first.rules[k], s, Reverse) {
      var k :| 0 <= k < |first.rules| && Contains(first.rules[k], s, Reverse);
      var f := FirstContaining(first.rules, s, Reverse, k);
      var q := first.rules[f];
      var src := ReducedRule(first, second, s, e).src;
      assert q.dest.end in bs;
      assert SameLength(q);
      assert src.start == q.src.start + (s - q.dest.start);
      assert q.src.start <= src.start && src.end <= q.src.end;
    } else {
      LookupNone(first.rules, s, Reverse);
    }
  }

  /** Off the ranges of `first`, the reduced map is the chain: a point that
      is in no source and no destination range of `first` goes, through
      any enumeration of the reduced rules, where `second` sends it. */
  lemma ReduceAgreesOffFirst(first: RangeMap, second: RangeMap, rs: seq<Rule>, x: int)
    requires forall r :: r in first.rules ==> SameLength(r)
    requires forall r :: r in first.rules ==> !Contains(r, x, Forward) && !Contains(r, x, Reverse)
    requires multiset(rs) == multiset(ReducedRules(first, second))
    ensures Lookup(rs, x, Forward) == Lookup(second.rules, Lookup(first.rules, x, Forward), Forward)
  {
    LookupNone(first.rules, x, Forward);
    SameElements(rs, ReducedRules(first, second));
    var bs := Boundaries(first, second);
    if exists s, e :: Adjacent(bs, s, e) && s <= x < e {
      var s, e :| Adjacent(bs, s, e) && s <= x < e;
      AgreesInPiece(first, second, rs, x, s, e);
    } else {
      AgreesOffPieces(first, second, rs, x);
    }
  }

  /** `x` lies in the piece [s, e), which `first` does not touch: the only
      reduced rule that holds `x` is the one for that piece, and it shifts
      the piece as `second` does. */
  lemma AgreesInPiece(first: RangeMap, second: RangeMap, rs: seq<Rule>, x: int, s: int, e: int)
    requires forall r :: r in first.rules ==> SameLength(r)
    requires forall r :: r in first.rules ==> !Contains(r, x, Forward) && !Contains(r, x, Reverse)
    requires forall r :: r in rs <==> r in ReducedRules(first, second)
    requires Adjacent(Boundaries(first, second), s, e) && s <= x < e
    ensures Lookup(rs, x, Forward) == Lookup(second.rules, x, Forward)
  {
    var bs := Boundaries(first, second);
    forall r | r in first.rules
      ensures !Contains(r, s, Reverse)
    {
      assert r.dest.start in bs && r.dest.end in bs;
    }
    LookupNone(first.rules, s, Reverse);
    var only := ReducedRule(first, second, s, e);
    assert only in ReducedRules(first, second);
    forall r | r in rs && Contains(r, x, Forward)
      ensures r == only
    {
      OnlyPieceRule(first, second, r, x, s, e);
    }
    LookupOnly(rs, x, Forward, only);
    forall r | r in second.rules
      ensures !(s < r.src.start <= x) && !(s < r.src.end <= x)
    {
      assert r.src.start in bs && r.src.end in bs;
    }
    LookupShift(second.rules, s, x);
  }

  /** A reduced rule that holds `x`, off the ranges of `first`, is the rule
      of the piece around `x`. */
  lemma OnlyPieceRule(first: RangeMap, second: RangeMap, r: Rule, x: int, s: int, e: int)
    requires forall r :: r in first.rules ==> SameLength(r)
    requires forall r :: r in first.rules ==> !Contains(r, x, Forward)
    requires r in ReducedRules(first, second) && Contains(r, x, Forward)
    requires Adjacent(Boundaries(first, second), s, e) && s <= x < e
    ensures r == ReducedRule(first, second, s, e)
  {
    var bs := Boundaries(first, second);
    var s', e' :| Adjacent(bs, s', e') && r == ReducedRule(first, second, s', e');
    ReducedSource(first, second, s', e');
    if r.src == Range(s', e') {
      AdjacentUnique(bs, s, e, s', e', x);
    }
  }

  /** `x` lies in no piece: no reduced rule and no rule of `second` holds
      it. */
  lemma AgreesOffPieces(first: RangeMap, second: RangeMap, rs: seq<Rule>, x: int)
    requires forall r :: r in first.rules ==> SameLength(r)
    requires forall r :: r in first.rules ==> !Contains(r, x, Forward) && !Contains(r, x, Reverse)
    requires forall r :: r in rs <==> r in ReducedRules(first, second)
    requires !exists s, e :: Adjacent(Boundaries(first, second), s, e) && s <= x < e
    ensures Lookup(rs, x, Forward) == x == Lookup(second.rules, x, Forward)
  {
    var bs := Boundaries(first, second);
    forall r | r in rs
      ensures !Contains(r, x, Forward)
    {
      var s', e' :| Adjacent(bs, s', e') && r == ReducedRule(first, second, s', e');
      ReducedSource(first, second, s', e');
    }
    LookupNone(rs, x, Forward);
    forall r | r in second.rules
      ensures !Contains(r, x, Forward)
    {
      if Contains(r, x, Forward) {
        var s, e := EnclosingPair(bs, r.src.start, r.src.end, x);
      }
    }
    LookupNone(second.rules, x, Forward);
  }

  /** The first map of the counterexample: 98, 99 go to 50, 51. */
  function CounterFirst(): RangeMap
  {
    RangeMap([Rule(Range(98, 100), Range(50, 52))])
  }

  /** The second map of the counterexample: 50, 51 go to 0, 1. */
  function CounterSecond(): RangeMap
  {
    RangeMap([Rule(Range(50, 52), Range(0, 2))])
  }

  /** The cut points of the counterexample: 50 and 52. */
  lemma CounterBoundaries()
    ensures Boundaries(CounterFirst(), CounterSecond()) == {50, 52}
  {
    var first, second := CounterFirst(), CounterSecond();
    assert (set r | r in first.rules :: r.dest.start) == {50};
    assert (set r | r in first.rules :: r.dest.end) == {52};
    assert (set r | r in second.rules :: r.src.start) == {50};
    assert (set r | r in second.rules :: r.src.end) == {52};
  }

  /** `reduce` is not composition: with the two maps above the chain sends 50
      (which the first map leaves alone) to 0, but the only reduced rule
      covers 98 and 99, so the reduced map leaves 50 at 50. */
  lemma ReduceCounterexample()
    ensures ReducedRules(CounterFirst(), CounterSecond()) == {Rule(Range(98, 100), Range(0, 2))}
    ensures Lookup([Rule(Range(98, 100), Range(0, 2))], 50, Forward) == 50
    ensures Lookup(CounterSecond().rules, Lookup(CounterFirst().rules, 50, Forward), Forward) == 0
  {
    var first, second := CounterFirst(), CounterSecond();
    var bs := Boundaries(first, second);
    CounterBoundaries();
    assert Adjacent(bs, 50, 52);
    var only := ReducedRule(first, second, 50, 52);
    assert only == Rule(Range(98, 100), Range(0, 2));
    forall r | r in ReducedRules(first, second)
      ensures r == only
    {
      var s, e :| s in bs && e in bs && Adjacent(bs, s, e) && r == ReducedRule(first, second, s, e);
    }
    assert only in ReducedRules(first, second);
  }
}
