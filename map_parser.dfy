/** `parse_maps` (day5/src/main.rs): the blocks of the almanac, each a
    header line holding `:` and then one rule per line, separated by blank
    lines. The current name and rule set are reassigned line by line, and a
    block is stored in the output only when a blank line is reached. */
module MapParser {
  import opened Text
  import opened RangeRules
  import opened RangeMaps

  /** The loop state: the maps stored so far (as rule sets), the current
      name and the current rule set. */
  datatype Parse = Parse(output: map<string, set<Rule>>, name: string, rules: set<Rule>)

  /** The state before the first line: no maps, empty name, no rules. */
  function Start(): Parse
  {
    Parse(map[], "", {})
  }

  /** A line that is neither blank nor a header and is not a rule:
      `from_string` panics on it. */
  predicate BadLine(line: string)
  {
    |line| > 0 && ':' !in line && RuleFromString(line).None?
  }

  /** One iteration of the loop body; `None` is the panic. */
  function Step(p: Parse, line: string): Option<Parse>
  {
    if |line| == 0 then Some(Parse(p.output[p.name := p.rules], "", {}))
    else if ':' in line then Some(p.(name := Split(line, " ")[0]))
    else match RuleFromString(line)
      case None => None
      case Some(rule) => Some(p.(rules := p.rules + {rule}))
  }

  /** The loop run over `lines` from the state `from`. */
  function Fold(from: Option<Parse>, lines: seq<string>): Option<Parse>
  {
    if |lines| == 0 then from
    else match Fold(from, lines[..|lines| - 1])
      case None => None
      case Some(p) => Step(p, lines[|lines| - 1])
  }

  function Run(lines: seq<string>): Option<Parse>
  {
    Fold(Some(Start()), lines)
  }

  /** The maps `parse_maps` stores, each as the set of its rules. */
  function ParseSpec(lines: seq<string>): Option<map<string, set<Rule>>>
  {
    match Run(lines)
    case None => None
    case Some(p) => Some(p.output)
  }

  /** A map of `RangeMap`s holds, under the same names, each rule set sorted
      by source start, as `from_iter` builds it. */
  ghost predicate Realizes(out: map<string, RangeMap>, spec: map<string, set<Rule>>)
  {
    out.Keys == spec.Keys
    && forall n :: n in out ==> SortedByStart(out[n].rules) && multiset(out[n].rules) == multiset(spec[n])
  }

  /** `parse_maps`, with the panic of `from_string` as `None`. */
  method ParseMaps(lines: seq<string>) returns (out: Option<map<string, RangeMap>>)
    ensures out.None? <==> ParseSpec(lines).None?
    ensures out.Some? ==> Realizes(out.value, ParseSpec(lines).value)
  {
    var output: map<string, RangeMap> := map[];
    var name := "";
    var rules: set<Rule> := {};
    var k := 0;
    while k < |lines|
      invariant 0 <= k <= |lines|
      invariant Run(lines[..k]).Some?
      invariant Run(lines[..k]) == Some(Parse(Run(lines[..k]).value.output, name, rules))
      invariant Realizes(output, Run(lines[..k]).value.output)
    {
      var line := lines[k];
      assert lines[..k + 1][..k] == lines[..k];
      if |line| == 0 {
        var m := FromIter(rules);
        output := output[name := m];
        name := "";
        rules := {};
      } else if ':' in line {
        name := Split(line, " ")[0];
      } else {
        var rule := RuleFromString(line);
        if rule.None? {
          assert BadLine(lines[k]);
          assert HasBadLine(lines);
          RunFails(lines);
          return None;
        }
        rules := rules + {rule.value};
      }
      k := k + 1;
    }
    assert lines[..k] == lines;
    return Some(output);
  }

  /** Some line of `lines` is a bad rule line. */
  ghost predicate HasBadLine(lines: seq<string>)
  {
    exists k :: 0 <= k < |lines| && BadLine(lines[k])
  }

  lemma HasBadLineSnoc(init: seq<string>, last: string)
    ensures HasBadLine(init + [last]) <==> HasBadLine(init) || BadLine(last)
  {
    var lines := init + [last];
    if HasBadLine(init) {
      var k :| 0 <= k < |init| && BadLine(init[k]);
      assert lines[k] == init[k];
    }
    if HasBadLine(lines) {
      var k :| 0 <= k < |lines| && BadLine(lines[k]);
      if k < |init| {
        assert lines[k] == init[k];
      }
    }
    assert lines[|init|] == last;
  }

  /** The loop panics exactly when some line is a bad rule line. */
  lemma {:induction false} RunFails(lines: seq<string>)
    ensures Run(lines).None? <==> HasBadLine(lines)
  {
    if |lines| > 0 {
      var init, last := lines[..|lines| - 1], lines[|lines| - 1];
      RunFails(init);
      SplitLast(lines);
      FoldSnoc(Some(Start()), init, last);
      HasBadLineSnoc(init, last);
    }
  }

  /** Running over two pieces one after the other is running over both. */
  lemma {:induction false} FoldAppend(from: Option<Parse>, a: seq<string>, b: seq<string>)
    ensures Fold(from, a + b) == Fold(Fold(from, a), b)
  {
    if |b| > 0 {
      FoldAppend(from, a, b[..|b| - 1]);
      assert (a + b)[..|a + b| - 1] == a + b[..|b| - 1];
      assert (a + b)[|a + b| - 1] == b[|b| - 1];
    } else {
      assert a + b == a;
    }
  }

  /** Running over one line is one step. */
  lemma FoldOne(p: Parse, line: string)
    ensures Fold(Some(p), [line]) == Step(p, line)
  {
    var one: seq<string> := [line];
    assert one[..0] == [];
  }

  /** Lines after the last blank line never reach the output: a tail
      without a blank line leaves the stored maps as they were. */
  lemma {:induction false} TailDropped(p: Parse, tail: seq<string>)
    requires forall k :: 0 <= k < |tail| ==> |tail[k]| > 0
    ensures Fold(Some(p), tail).Some? ==> Fold(Some(p), tail).value.output == p.output
  {
    if |tail| > 0 {
      TailDropped(p, tail[..|tail| - 1]);
    }
  }

  /** The rule lines of a block, one per rule. */
  function RuleLines(rules: seq<Rule>): (lines: seq<string>)
    ensures |lines| == |rules|
  {
    seq(|rules|, k requires 0 <= k < |rules| => ShowRule(rules[k]))
  }

  /** The rules of a list, as a set. */
  function RuleSet(rules: seq<Rule>): set<Rule>
  {
    set r | r in rules
  }

  /** `line` is a rule line that `from_string` reads as `rule`. */
  predicate IsRuleLine(line: string, rule: Rule)
  {
    |line| > 0 && ':' !in line && RuleFromString(line) == Some(rule)
  }

  /** Running over lines that end in `line` is a step after the rest. */
  lemma FoldSnoc(from: Option<Parse>, lines: seq<string>, line: string)
    ensures Fold(from, lines + [line])
         == match Fold(from, lines) case None => None case Some(q) => Step(q, line)
  {
    assert (lines + [line])[..|lines|] == lines;
  }

  /** A printed rule is a rule line for that rule. */
  lemma ShownRuleLine(rule: Rule)
    requires SameLength(rule)
    ensures IsRuleLine(ShowRule(rule), rule)
  {
    var line := ShowRule(rule);
    assert |line| > 0 by {
      assert line == ShowInt(rule.dest.start) + " " + Join([ShowInt(rule.src.start), ShowInt(rule.src.end - rule.src.start)], " ");
    }
    if ':' in line {
      ShowRuleChars(rule, ':');
    }
    RuleFromShowRule(rule);
  }

  /** Reading rule lines adds exactly their rules to the current set. */
  lemma {:induction false} ReadRuleLines(p: Parse, lines: seq<string>, rules: seq<Rule>)
    requires |lines| == |rules|
    requires forall k :: 0 <= k < |lines| ==> IsRuleLine(lines[k], rules[k])
    ensures Fold(Some(p), lines) == Some(p.(rules := p.rules + RuleSet(rules)))
  {
    if |rules| == 0 {
      assert RuleSet(rules) == {};
      assert p.rules + RuleSet(rules) == p.rules;
      assert p.(rules := p.rules) == p;
    } else {
      var n := |rules| - 1;
      var init, initRules := lines[..n], rules[..n];
      assert forall k :: 0 <= k < n ==> init[k] == lines[k] && initRules[k] == rules[k];
      ReadRuleLines(p, init, initRules);
      RuleLineStep(p, init, lines[n], initRules, rules[n]);
      SplitLast(lines);
      SplitLast(rules);
    }
  }

  lemma SplitLast<T>(s: seq<T>)
    requires |s| > 0
    ensures s == s[..|s| - 1] + [s[|s| - 1]]
  {
  }

  /** One more rule line adds its rule to the current set. */
  lemma RuleLineStep(p: Parse, lines: seq<string>, line: string, rules: seq<Rule>, rule: Rule)
    requires Fold(Some(p), lines) == Some(p.(rules := p.rules + RuleSet(rules)))
    requires IsRuleLine(line, rule)
    ensures Fold(Some(p), lines + [line]) == Some(p.(rules := p.rules + RuleSet(rules + [rule])))
  {
    var q := p.(rules := p.rules + RuleSet(rules));
    FoldSnoc(Some(p), lines, line);
    assert Fold(Some(p), lines + [line]) == Step(q, line);
    StepRule(q, line, rule);
    assert RuleSet(rules + [rule]) == RuleSet(rules) + {rule};
    assert q.rules + {rule} == p.rules + RuleSet(rules + [rule]);
  }

  /** A rule line adds its rule to the current set. */
  lemma StepRule(q: Parse, line: string, rule: Rule)
    requires IsRuleLine(line, rule)
    ensures Step(q, line) == Some(q.(rules := q.rules + {rule}))
  {
  }

  /** A header line names the block: the first space-separated token. */
  lemma ReadHeader(p: Parse, name: string)
    requires |name| > 0 && ' ' !in name
    ensures Step(p, name + " map:") == Some(p.(name := name))
  {
    var header := name + " map:";
    assert header == Join([name, "map:"], " ");
    SplitJoin([name, "map:"], " ");
    assert header[|header| - 1] == ':';
  }

  /** A header, rule lines and a blank line, read from a state with no
      pending rules, store exactly those rules under the header's name. */
  lemma ReadBlockLines(p: Parse, name: string, lines: seq<string>, rules: seq<Rule>)
    requires p.rules == {}
    requires |name| > 0 && ' ' !in name
    requires |lines| == |rules|
    requires forall k :: 0 <= k < |lines| ==> IsRuleLine(lines[k], rules[k])
    ensures Fold(Some(p), [name + " map:"] + lines + [""])
         == Some(Parse(p.output[name := RuleSet(rules)], "", {}))
  {
    var header := name + " map:";
    var named := p.(name := name);
    assert Fold(Some(p), [header]) == Some(named) by {
      FoldOne(p, header);
      ReadHeader(p, name);
    }
    assert Fold(Some(p), [header] + lines) == Some(named.(rules := RuleSet(rules))) by {
      FoldAppend(Some(p), [header], lines);
      ReadRuleLines(named, lines, rules);
      assert named.rules + RuleSet(rules) == RuleSet(rules);
    }
    FoldSnoc(Some(p), [header] + lines, "");
  }

  lemma RuleLinesRead(rules: seq<Rule>)
    requires forall r :: r in rules ==> SameLength(r)
    ensures forall k :: 0 <= k < |rules| ==> IsRuleLine(RuleLines(rules)[k], rules[k])
  {
    forall k | 0 <= k < |rules|
      ensures IsRuleLine(RuleLines(rules)[k], rules[k])
    {
      ShownRuleLine(rules[k]);
    }
  }

  /** A block read from a fresh state: its header names it, its rule lines
      give its rules, and the blank line that ends it stores exactly those
      rules under that name. */
  lemma ReadBlock(p: Parse, name: string, rules: seq<Rule>)
    requires p.rules == {}
    requires |name| > 0 && ' ' !in name
    requires forall r :: r in rules ==> SameLength(r)
    ensures Fold(Some(p), [name + " map:"] + RuleLines(rules) + [""])
         == Some(Parse(p.output[name := RuleSet(rules)], "", {}))
  {
    RuleLinesRead(rules);
    ReadBlockLines(p, name, RuleLines(rules), rules);
  }
}
