/** The scan of one schematic line that day3/src/main.rs delegates to the
    `regex` crate: `\d+` finds the maximal runs of decimal digits, left to
    right, and `[^\d\n\.]` finds every single symbol character. Digits are
    the ASCII digits and positions are character indices. */
module GridScan {
  import opened Text

  /** A symbol: any character but a digit, a newline or a period. */
  predicate IsSymbol(c: char)
  {
    !IsDigit(c) && c != '\n' && c != '.'
  }

  /** Where the run of digits starting at `i` ends. */
  function RunEnd(line: string, i: nat): (e: nat)
    requires i <= |line|
    ensures i <= e <= |line|
    ensures forall p :: i <= p < e ==> IsDigit(line[p])
    ensures e == |line| || !IsDigit(line[e])
    decreases |line| - i
  {
    if i < |line| && IsDigit(line[i]) then RunEnd(line, i + 1) else i
  }

  /** A run of digits found in a line: its start column and its text. */
  datatype Run = Run(start: nat, digits: string)

  function End(r: Run): nat { r.start + |r.digits| }

  /** A run found at or after column `i`: non-empty digits copied from the
      line, with no digit right after it, nor right before it unless it
      starts at `i`. */
  ghost predicate MaximalRun(line: string, i: nat, r: Run)
  {
    && i <= r.start && End(r) <= |line|
    && |r.digits| > 0 && r.digits == line[r.start..End(r)] && AllDigits(r.digits)
    && (End(r) == |line| || !IsDigit(line[End(r)]))
    && (r.start == i || !IsDigit(line[r.start - 1]))
  }

  /** Runs that come one after another, apart. */
  ghost predicate Apart(runs: seq<Run>)
  {
    forall k, j :: 0 <= k < j < |runs| ==> End(runs[k]) < runs[j].start
  }

  /** The matches of `\d+` at or after column `i`: maximal runs of digits,
      in order and apart from one another. */
  function Runs(line: string, i: nat): (runs: seq<Run>)
    requires i <= |line|
    ensures forall r :: r in runs ==> MaximalRun(line, i, r)
    ensures forall r :: r in runs ==> AllDigits(r.digits)
    ensures Apart(runs)
    decreases |line| - i
  {
    if i == |line| then []
    else if IsDigit(line[i]) then
      var e := RunEnd(line, i);
      var rest := Runs(line, e);
      PrependRun(line, i, e, rest);
      [Run(i, line[i..e])] + rest
    else
      Runs(line, i + 1)
  }

  /** The run from `i` to `e`, put in front of maximal runs found from `e`
      on, gives maximal runs from `i` on, still apart. */
  lemma PrependRun(line: string, i: nat, e: nat, rest: seq<Run>)
    requires i < e <= |line| && (e == |line| || !IsDigit(line[e]))
    requires forall p :: i <= p < e ==> IsDigit(line[p])
    requires forall r :: r in rest ==> MaximalRun(line, e, r)
    requires Apart(rest)
    ensures forall r :: r in [Run(i, line[i..e])] + rest ==> MaximalRun(line, i, r)
    ensures Apart([Run(i, line[i..e])] + rest)
  {
    var runs := [Run(i, line[i..e])] + rest;
    forall r | r in rest
      ensures e < r.start
    {
      assert line[r.start] == r.digits[0];
    }
    forall k, j | 0 <= k < j < |runs|
      ensures End(runs[k]) < runs[j].start
    {
      assert runs[j] == rest[j - 1] && rest[j - 1] in rest;
      if k > 0 {
        assert runs[k] == rest[k - 1];
      }
    }
  }

  /** Whether column `p` lies inside one of the runs. */
  ghost predicate Covered(runs: seq<Run>, p: int)
  {
    exists k :: 0 <= k < |runs| && runs[k].start <= p < End(runs[k])
  }

  /** The runs cover exactly the digits of the line from column `i` on. */
  lemma {:induction false} RunsCover(line: string, i: nat, p: nat)
    requires i <= p < |line|
    ensures IsDigit(line[p]) <==> Covered(Runs(line, i), p)
    decreases |line| - i
  {
    var runs := Runs(line, i);
    if IsDigit(line[i]) {
      var e := RunEnd(line, i);
      var rest := Runs(line, e);
      assert runs == [Run(i, line[i..e])] + rest;
      if p < e {
        assert runs[0].start <= p < End(runs[0]);
      } else {
        RunsCover(line, e, p);
        if Covered(rest, p) {
          var k :| 0 <= k < |rest| && rest[k].start <= p < End(rest[k]);
          assert runs[k + 1] == rest[k];
        }
        if Covered(runs, p) {
          var k :| 0 <= k < |runs| && runs[k].start <= p < End(runs[k]);
          assert k > 0;
          assert rest[k - 1] == runs[k];
        }
      }
    } else if p > i {
      RunsCover(line, i + 1, p);
    }
  }

  /** The matches of `[^\d\n\.]` at or after column `i`: the column and
      character of each symbol. */
  function Symbols(line: string, i: nat): (syms: seq<(nat, char)>)
    requires i <= |line|
    ensures forall k :: 0 <= k < |syms| ==>
      i <= syms[k].0 < |line| && line[syms[k].0] == syms[k].1 && IsSymbol(syms[k].1)
    ensures forall c :: i <= c < |line| && IsSymbol(line[c]) ==> (c, line[c]) in syms
    decreases |line| - i
  {
    if i == |line| then []
    else if IsSymbol(line[i]) then [(i, line[i])] + Symbols(line, i + 1)
    else Symbols(line, i + 1)
  }
}
