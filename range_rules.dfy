/** Intervals and offset rules of the seed-map engine (day5/src/main.rs):
    `Range` is the half-open interval [start, end) and `RangeMapRule` pairs a
    source and a destination range, shifting points of one onto the other. */
module RangeRules {
  import opened Text

  /** The half-open interval [start, end). */
  datatype Range = Range(start: int, end: int)

  /** The source's `reverse: Option<bool>`: `None` and `Some(false)` select
      the forward direction, `Some(true)` the reverse one. */
  datatype Direction = Forward | Reverse

  datatype Rule = Rule(src: Range, dest: Range)

  function Opposite(dir: Direction): Direction
  {
    if dir == Forward then Reverse else Forward
  }

  /** The range a membership test in direction `dir` looks at: `src` going
      forward, `dest` in reverse. */
  function Side(rule: Rule, dir: Direction): Range
  {
    if dir == Reverse then rule.dest else rule.src
  }

  /** `RangeMapRule::contains`: half-open membership in the selected range. */
  predicate Contains(rule: Rule, i: int, dir: Direction)
  {
    Side(rule, dir).start <= i < Side(rule, dir).end
  }

  /** The source and destination ranges have the same length, as every rule
      built by `from_string` has. */
  predicate SameLength(rule: Rule)
  {
    rule.src.end - rule.src.start == rule.dest.end - rule.dest.start
  }

  /** `RangeMapRule::map`: the point at the same offset in the opposite range.
      The source asserts `contains` first; every caller checks it. */
  function Apply(rule: Rule, i: int, dir: Direction): (j: int)
    requires Contains(rule, i, dir)
    ensures j - Side(rule, Opposite(dir)).start == i - Side(rule, dir).start
    ensures SameLength(rule) ==> Contains(rule, j, Opposite(dir))
  {
    if dir == Reverse then rule.src.start + (i - rule.dest.start)
    else rule.dest.start + (i - rule.src.start)
  }

  /** Mapping forward and then in reverse (or the other way round) gives back
      the point. */
  lemma ApplyRoundTrip(rule: Rule, i: int, dir: Direction)
    requires SameLength(rule) && Contains(rule, i, dir)
    ensures Contains(rule, Apply(rule, i, dir), Opposite(dir))
    ensures Apply(rule, Apply(rule, i, dir), Opposite(dir)) == i
  {
  }

  /** Every token parsed as an integer, failing if any token does not parse
      (`parse::<i64>().expect(..)` on each token). */
  function ParseAll(tokens: seq<string>): (r: Option<seq<int>>)
    ensures r.Some? <==> forall k :: 0 <= k < |tokens| ==> ParseInt(tokens[k]).Some?
    ensures r.Some? ==> |r.value| == |tokens|
    ensures r.Some? ==> forall k :: 0 <= k < |tokens| ==> r.value[k] == ParseInt(tokens[k]).value
  {
    if |tokens| == 0 then Some([])
    else match (ParseInt(tokens[0]), ParseAll(tokens[1..]))
      case (Some(n), Some(ns)) => Some([n] + ns)
      case _ => None
  }

  /** `RangeMapRule::from_string`: the line "d s l" gives the rule from
      [s, s + l) to [d, d + l). A token that is not an integer, or a token
      count other than three, is a panic. */
  function RuleFromString(s: string): (r: Option<Rule>)
    ensures r.Some? <==> |Split(s, " ")| == 3 && forall k :: 0 <= k < 3 ==> ParseInt(Split(s, " ")[k]).Some?
    ensures r.Some? ==> SameLength(r.value)
    ensures r.Some? ==> var t := Split(s, " ");
      && r.value.dest.start == ParseInt(t[0]).value
      && r.value.src.start == ParseInt(t[1]).value
      && r.value.src.end - r.value.src.start == ParseInt(t[2]).value
  {
    match ParseAll(Split(s, " "))
    case None => None
    case Some(ns) =>
      if |ns| != 3 then None
      else Some(Rule(Range(ns[1], ns[1] + ns[2]), Range(ns[0], ns[0] + ns[2])))
  }

  /** The input line a rule is written as: destination start, source start,
      length. */
  function ShowRule(rule: Rule): string
  {
    Join([ShowInt(rule.dest.start), ShowInt(rule.src.start), ShowInt(rule.src.end - rule.src.start)], " ")
  }

  lemma ShowIntHasNoSpace(n: int)
    ensures ' ' !in ShowInt(n)
  {
    if ' ' in ShowInt(n) {
      ShowIntChars(n, ' ');
    }
  }

  /** Numbers written out parse back, token by token. */
  lemma ParseShown(xs: seq<int>, tokens: seq<string>)
    requires |tokens| == |xs| && forall k :: 0 <= k < |xs| ==> tokens[k] == ShowInt(xs[k])
    ensures ParseAll(tokens) == Some(xs)
  {
    forall k | 0 <= k < |xs|
      ensures ParseInt(tokens[k]) == Some(xs[k])
    {
      ParseShowInt(xs[k]);
    }
    var ns := ParseAll(tokens).value;
    assert forall k :: 0 <= k < |xs| ==> ns[k] == xs[k];
    assert ns == xs;
  }

  /** Numbers written out and joined by spaces split back into their
      tokens. */
  lemma SplitShown(xs: seq<int>, tokens: seq<string>)
    requires |xs| > 0
    requires |tokens| == |xs| && forall k :: 0 <= k < |xs| ==> tokens[k] == ShowInt(xs[k])
    ensures Split(Join(tokens, " "), " ") == tokens
  {
    forall k | 0 <= k < |xs|
      ensures ' ' !in tokens[k]
    {
      ShowIntHasNoSpace(xs[k]);
    }
    SplitJoin(tokens, " ");
  }

  /** Every rule whose two ranges have the same length is read back from the
      line it is written as. */
  lemma RuleFromShowRule(rule: Rule)
    requires SameLength(rule)
    ensures RuleFromString(ShowRule(rule)) == Some(rule)
  {
    var xs := [rule.dest.start, rule.src.start, rule.src.end - rule.src.start];
    var tokens := [ShowInt(xs[0]), ShowInt(xs[1]), ShowInt(xs[2])];
    SplitShown(xs, tokens);
    ParseShown(xs, tokens);
    assert ShowRule(rule) == Join(tokens, " ");
  }

  /** A rule line is not blank and holds nothing but digits, minus signs and
      spaces; in particular no `:`. */
  lemma ShowRuleChars(rule: Rule, c: char)
    requires c in ShowRule(rule)
    ensures IsDigit(c) || c == '-' || c == ' '
  {
    var parts := [ShowInt(rule.dest.start), ShowInt(rule.src.start), ShowInt(rule.src.end - rule.src.start)];
    JoinChars(parts, " ", c);
    if c != ' ' {
      var k :| 0 <= k < |parts| && c in parts[k];
      ShowIntChars([rule.dest.start, rule.src.start, rule.src.end - rule.src.start][k], c);
    }
  }
}
