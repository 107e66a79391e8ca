/** Trebuchet calibration (day1/src/main.rs): every digit character and every
    spelled-out digit word of a line is found with its position; the
    calibration value is the first found digit followed by the last, read as a
    two-digit number. */
module Trebuchet {
  import opened Text
  import Sorting

  /** `INT_STR_MAP`: the word for each digit, indexed by its value. */
  const Words: seq<string> := ["zero", "one", "two", "three", "four", "five", "six", "seven", "eight", "nine"]

  /** A pattern no two occurrences of which can overlap: no proper suffix
      of it is also a prefix. */
  ghost predicate NoSelfOverlap(pat: string)
  {
    forall d :: 0 < d < |pat| ==> pat[d..] != pat[..|pat| - d]
  }

  /** `str::match_indices`: the starts of the leftmost non-overlapping
      occurrences of `pat` at or after `from`, in increasing order. */
  function MatchIndices(s: string, pat: string, from: nat): (idx: seq<nat>)
    requires |pat| > 0 && from <= |s|
    ensures forall k :: 0 <= k < |idx| ==> from <= idx[k] && OccursAt(s, pat, idx[k])
    decreases |s| - from
  {
    match FindFrom(s, pat, from)
    case None => []
    case Some(i) => [i] + MatchIndices(s, pat, i + |pat|)
  }

  /** Two occurrences less than a pattern's length apart would be a proper
      suffix equal to a prefix. */
  lemma OverlapSelf(s: string, pat: string, j: nat, i: nat)
    requires OccursAt(s, pat, j) && OccursAt(s, pat, i) && j < i < j + |pat|
    ensures pat[i - j..] == pat[..|pat| - (i - j)]
  {
    var d := i - j;
    assert pat[d..] == s[i..j + |pat|] by {
      assert s[j..j + |pat|] == pat;
    }
    assert pat[..|pat| - d] == s[i..j + |pat|] by {
      assert s[i..i + |pat|] == pat;
    }
  }

  /** For a pattern that cannot overlap itself, `match_indices` reports
      every occurrence. */
  lemma {:induction false} MatchIndicesComplete(s: string, pat: string, from: nat, i: nat)
    requires |pat| > 0 && from <= i && from <= |s| && NoSelfOverlap(pat)
    requires OccursAt(s, pat, i)
    ensures i in MatchIndices(s, pat, from)
    decreases |s| - from
  {
    var j := FindFrom(s, pat, from).value;
    if j < i {
      if i < j + |pat| {
        OverlapSelf(s, pat, j, i);
        assert false;
      }
      MatchIndicesComplete(s, pat, j + |pat|, i);
    }
  }

  /** A digit word: `INT_STR_MAP[v]`. */
  function Word(v: nat): (w: string)
    requires v < 10
    ensures |w| > 0
  {
    Words[v]
  }

  lemma WordsNoSelfOverlap()
    ensures forall v :: 0 <= v < 10 ==> |Words[v]| > 0 && NoSelfOverlap(Words[v])
  {
    forall v | 0 <= v < 10
      ensures |Words[v]| > 0 && NoSelfOverlap(Words[v])
    {
      var w := Words[v];
      forall d | 0 < d < |w|
        ensures w[d..] != w[..|w| - d]
      {
        if w[d] == w[0] {
          assert w[d + 1] != w[1];
          assert w[d..][1] != w[..|w| - d][1];
        } else {
          assert w[d..][0] != w[..|w| - d][0];
        }
      }
    }
  }

  /** An occurrence list tagged with the value it stands for: the
      `map(|occ| (occ.0, i))` of the source. */
  function Tagged(idx: seq<nat>, v: nat): (found: seq<(nat, nat)>)
    ensures |found| == |idx|
    ensures forall k :: 0 <= k < |idx| ==> found[k] == (idx[k], v)
  {
    if |idx| == 0 then [] else [(idx[0], v)] + Tagged(idx[1..], v)
  }

  /** What the first loop has collected after the digits below `n`. */
  function DigitMatches(s: string, n: nat): seq<(nat, nat)>
    requires n <= 10
  {
    if n == 0 then [] else DigitMatches(s, n - 1) + Tagged(MatchIndices(s, [DigitChar(n - 1)], 0), n - 1)
  }

  /** What the second loop adds after the words below `n`. */
  function WordMatches(s: string, n: nat): seq<(nat, nat)>
    requires n <= 10
  {
    if n == 0 then [] else WordMatches(s, n - 1) + Tagged(MatchIndices(s, Word(n - 1), 0), n - 1)
  }

  /** Everything `find_digit_substrs` reports, in the order it reports it. */
  function Found(s: string): seq<(nat, nat)>
  {
    DigitMatches(s, 10) + WordMatches(s, 10)
  }

  /** Digit `v` starts at position `p`, as a character or as a word. */
  ghost predicate Starts(s: string, p: int, v: int)
  {
    0 <= v < 10 && (OccursAt(s, [DigitChar(v)], p) || OccursAt(s, Words[v], p))
  }

  /** The first loop of `find_digit_substrs`: the occurrences of each
      digit character in turn. The matched text of a digit parses to the digit
      itself, so its value is the loop index. */
  method CollectDigits(s: string) returns (digits: seq<(nat, nat)>)
    ensures digits == DigitMatches(s, 10)
  {
    digits := [];
    var i := 0;
    while i < 10
      invariant 0 <= i <= 10
      invariant digits == DigitMatches(s, i)
    {
      var occurrences := MatchIndices(s, [DigitChar(i)], 0);
      var tagged := Tagged(occurrences, i);
      assert DigitMatches(s, i + 1) == DigitMatches(s, i) + tagged;
      digits := digits + tagged;
      i := i + 1;
    }
  }

  /** The second loop: the occurrences of each digit word in turn, appended
      to what the first loop found. */
  method CollectWords(s: string, found: seq<(nat, nat)>) returns (digits: seq<(nat, nat)>)
    ensures digits == found + WordMatches(s, 10)
  {
    digits := found;
    var i := 0;
    while i < 10
      invariant 0 <= i <= 10
      invariant digits == found + WordMatches(s, i)
    {
      var occurrences := MatchIndices(s, Word(i), 0);
      var tagged := Tagged(occurrences, i);
      assert WordMatches(s, i + 1) == WordMatches(s, i) + tagged;
      assert digits + tagged == found + (WordMatches(s, i) + tagged);
      digits := digits + tagged;
      i := i + 1;
    }
  }

  /** `find_digit_substrs`: the digit characters, then the digit words. */
  method FindDigitSubstrs(s: string) returns (digits: seq<(nat, nat)>)
    ensures digits == Found(s)
  {
    digits := CollectDigits(s);
    digits := CollectWords(s, digits);
  }

  lemma {:induction false} DigitMatchesMeaning(s: string, n: nat, p: nat, v: nat)
    requires n <= 10
    ensures (p, v) in DigitMatches(s, n) <==> v < n && OccursAt(s, [DigitChar(v)], p)
  {
    if n > 0 {
      DigitMatchesMeaning(s, n - 1, p, v);
      var idx := MatchIndices(s, [DigitChar(n - 1)], 0);
      var t := Tagged(idx, n - 1);
      assert DigitMatches(s, n) == DigitMatches(s, n - 1) + t;
      if (p, v) in t {
        var k :| 0 <= k < |t| && t[k] == (p, v);
        assert idx[k] == p && v == n - 1;
      }
      if v == n - 1 && OccursAt(s, [DigitChar(v)], p) {
        MatchIndicesComplete(s, [DigitChar(v)], 0, p);
        var k :| 0 <= k < |idx| && idx[k] == p;
        assert t[k] == (p, v);
      }
    }
  }

  lemma {:induction false} WordMatchesMeaning(s: string, n: nat, p: nat, v: nat)
    requires n <= 10
    ensures (p, v) in WordMatches(s, n) <==> v < n && OccursAt(s, Words[v], p)
  {
    if n > 0 {
      WordMatchesMeaning(s, n - 1, p, v);
      var idx := MatchIndices(s, Word(n - 1), 0);
      var t := Tagged(idx, n - 1);
      assert WordMatches(s, n) == WordMatches(s, n - 1) + t;
      if (p, v) in t {
        var k :| 0 <= k < |t| && t[k] == (p, v);
        assert idx[k] == p && v == n - 1;
      }
      if v == n - 1 && OccursAt(s, Words[v], p) {
        WordsNoSelfOverlap();
        MatchIndicesComplete(s, Words[v], 0, p);
        var k :| 0 <= k < |idx| && idx[k] == p;
        assert t[k] == (p, v);
      }
    }
  }

  /** Exactly the occurrences are reported: every reported pair is a digit
      or a word starting at that position, and every such start, overlapping
      words included, is reported. */
  lemma FoundMeaning(s: string, p: nat, v: nat)
    ensures (p, v) in Found(s) <==> Starts(s, p, v)
  {
    DigitMatchesMeaning(s, 10, p, v);
    WordMatchesMeaning(s, 10, p, v);
  }

  /** No pattern is a prefix of another, so at most one digit starts at any
      position. */
  lemma StartsUnique(s: string, p: int, v: int, w: int)
    requires Starts(s, p, v) && Starts(s, p, w)
    ensures v == w
  {
    WordsDistinct();
    SharedPrefix(s, p, v, w);
  }

  /** The text of the pattern of `v` that occurs at `p`: the digit
      character when it does, else the word. */
  function Pattern(s: string, p: int, v: int): string
    requires 0 <= v < 10
  {
    if OccursAt(s, [DigitChar(v)], p) then [DigitChar(v)] else Words[v]
  }

  /** Two patterns that occur at the same position agree wherever both are
      defined. */
  lemma SharedPrefix(s: string, p: int, v: int, w: int)
    requires Starts(s, p, v) && Starts(s, p, w)
    ensures Pattern(s, p, v)[0] == Pattern(s, p, w)[0]
    ensures forall i :: 0 <= i < |Pattern(s, p, v)| && i < |Pattern(s, p, w)| ==> Pattern(s, p, v)[i] == Pattern(s, p, w)[i]
  {
    var pv, pw := Pattern(s, p, v), Pattern(s, p, w);
    assert s[p..p + |pv|] == pv && s[p..p + |pw|] == pw;
    forall i | 0 <= i < |pv| && i < |pw|
      ensures pv[i] == pw[i]
    {
      assert pv[i] == s[p + i] == pw[i];
    }
  }

  /** Two strings that differ at an index both have. */
  ghost predicate Differ(a: string, b: string)
  {
    exists i :: 0 <= i < |a| && i < |b| && a[i] != b[i]
  }

  /** `WordsDiffer` for every pair of digits at once. */
  lemma WordsDistinct()
    ensures forall v, w :: 0 <= v < 10 && 0 <= w < 10 && v != w ==> Differ(Words[v], Words[w])
    ensures forall v :: 0 <= v < 10 ==> !IsDigit(Words[v][0])
  {
    forall v, w | 0 <= v < 10 && 0 <= w < 10 && v != w
      ensures Differ(Words[v], Words[w])
    {
      WordsDiffer(v, w);
    }
    forall v | 0 <= v < 10
      ensures !IsDigit(Words[v][0])
    {
      WordsDiffer(v, (v + 1) % 10);
    }
  }

  /** Distinct digit words differ within their common length, and no word
      starts with a decimal digit. */
  lemma WordsDiffer(v: nat, w: nat)
    requires v < 10 && w < 10 && v != w
    ensures Differ(Words[v], Words[w])
    ensures !IsDigit(Words[v][0])
  {
    var a, b := Words[v], Words[w];
    if a[0] != b[0] {
      assert a[0] != b[0];
    } else if a[1] != b[1] {
      assert a[1] != b[1];
    } else {
      assert a[2] != b[2];
    }
  }

  /** The digits of a list of single-digit values written one after the
      other: the `map(to_string).collect::<String>()` of `parse_line`. */
  function DigitString(found: seq<(nat, nat)>): string
  {
    if |found| == 0 then "" else ShowInt(found[0].1) + DigitString(found[1..])
  }

  lemma {:induction false} DigitStringChars(found: seq<(nat, nat)>)
    requires forall k :: 0 <= k < |found| ==> found[k].1 < 10
    ensures |DigitString(found)| == |found|
    ensures forall k :: 0 <= k < |found| ==> DigitString(found)[k] == DigitChar(found[k].1)
  {
    if |found| > 0 {
      DigitStringChars(found[1..]);
      assert ShowInt(found[0].1) == [DigitChar(found[0].1)];
    }
  }

  lemma TwoDigits(a: nat, b: nat)
    requires a < 10 && b < 10
    ensures ParseInt([DigitChar(a), DigitChar(b)]) == Some(10 * a + b)
  {
    var t := [DigitChar(a), DigitChar(b)];
    assert t[..1][..0] == [];
    assert DigitsValue(t[..1]) == a;
  }

  /** The order of `sort_by_key(|x| x.0)`. */
  function PosLe(x: (nat, nat), y: (nat, nat)): bool { x.0 <= y.0 }

  /** Every start of a digit lies between `first` and `last`. */
  ghost predicate Between(s: string, first: int, last: int)
  {
    forall p, u :: Starts(s, p, u) ==> first <= p <= last
  }

  /** Any arrangement of the reported digits holds exactly the starts of
      digits. */
  lemma ArrangedFound(s: string, sorted: seq<(nat, nat)>)
    requires multiset(sorted) == multiset(Found(s))
    ensures forall k :: 0 <= k < |sorted| ==> Starts(s, sorted[k].0, sorted[k].1)
    ensures forall p: nat, u: nat :: Starts(s, p, u) ==> (p, u) in sorted
  {
    var digits := Found(s);
    forall k | 0 <= k < |sorted|
      ensures Starts(s, sorted[k].0, sorted[k].1)
    {
      assert sorted[k] in multiset(sorted);
      FoundMeaning(s, sorted[k].0, sorted[k].1);
    }
    forall p: nat, u: nat | Starts(s, p, u)
      ensures (p, u) in sorted
    {
      FoundMeaning(s, p, u);
      assert (p, u) in multiset(digits);
      assert (p, u) in multiset(sorted);
    }
  }

  /** In a list sorted by position, the first and last entries have the
      least and greatest positions. */
  lemma SortedEnds(sorted: seq<(nat, nat)>, x: (nat, nat))
    requires Sorting.Sorted(sorted, PosLe) && x in sorted
    ensures sorted[0].0 <= x.0 <= sorted[|sorted| - 1].0
  {
    var k :| 0 <= k < |sorted| && sorted[k] == x;
    assert PosLe(sorted[0], sorted[k]) || k == 0;
    assert PosLe(sorted[k], sorted[|sorted| - 1]) || k == |sorted| - 1;
  }

  /** No digit is reported exactly when the line has none. */
  lemma NoneFound(s: string, sorted: seq<(nat, nat)>)
    requires multiset(sorted) == multiset(Found(s))
    ensures |sorted| == 0 <==> forall p, v :: !Starts(s, p, v)
  {
    ArrangedFound(s, sorted);
    if |sorted| > 0 {
      assert Starts(s, sorted[0].0, sorted[0].1);
    }
  }

  /** Sorted by position, the first and last reported digits bound every
      start of a digit. */
  lemma SortedBetween(s: string, sorted: seq<(nat, nat)>)
    requires multiset(sorted) == multiset(Found(s))
    requires Sorting.Sorted(sorted, PosLe) && |sorted| > 0
    ensures Between(s, sorted[0].0, sorted[|sorted| - 1].0)
  {
    ArrangedFound(s, sorted);
    forall p, u | Starts(s, p, u)
      ensures sorted[0].0 <= p <= sorted[|sorted| - 1].0
    {
      SortedEnds(sorted, (p, u));
    }
  }

  /** `sort_by_key(|x| x.0)` on a vector: an in-place sort of an array. */
  method SortByPosition(digits: seq<(nat, nat)>) returns (sorted: seq<(nat, nat)>)
    ensures Sorting.Sorted(sorted, PosLe)
    ensures multiset(sorted) == multiset(digits)
  {
    var a := new (nat, nat)[|digits|](k requires 0 <= k < |digits| => digits[k]);
    assert a[..] == digits;
    Sorting.SortWith(a, PosLe);
    sorted := a[..];
  }

  /** `parse_line`: sort the reported digits by position, write their values
      out, and read the first and last characters as a number. `None` is the
      panic on a line with no digit. The value is ten times the digit that
      starts first plus the digit that starts last. */
  method ParseLine(s: string) returns (r: Option<int>)
    ensures r.None? <==> forall p, v :: !Starts(s, p, v)
    ensures r.Some? ==> Calibration(s, r.value)
  {
    var digits := FindDigitSubstrs(s);
    var sorted := SortByPosition(digits);
    if |sorted| == 0 {
      NoneFound(s, sorted);
      return None;
    }
    SortedCalibration(s, sorted);
    var digitStr := DigitString(sorted);
    var firstAndLast := [digitStr[0], digitStr[|digitStr| - 1]];
    r := ParseInt(firstAndLast);
  }

  /** `value` is ten times the digit that starts first plus the digit that
      starts last. */
  ghost predicate Calibration(s: string, value: int)
  {
    exists first, v, last, w ::
      Starts(s, first, v) && Starts(s, last, w) && value == 10 * v + w && Between(s, first, last)
  }

  /** The first and last characters of the digit string of the reported
      digits, sorted by position, parse to the calibration value. */
  lemma SortedCalibration(s: string, sorted: seq<(nat, nat)>)
    requires multiset(sorted) == multiset(Found(s))
    requires Sorting.Sorted(sorted, PosLe) && |sorted| > 0
    ensures |DigitString(sorted)| == |sorted|
    ensures var d := DigitString(sorted);
      ParseInt([d[0], d[|d| - 1]]).Some? && Calibration(s, ParseInt([d[0], d[|d| - 1]]).value)
    ensures !forall p, v :: !Starts(s, p, v)
  {
    ArrangedFound(s, sorted);
    SortedBetween(s, sorted);
    NoneFound(s, sorted);
    var first, last := sorted[0], sorted[|sorted| - 1];
    assert Starts(s, first.0, first.1) && Starts(s, last.0, last.1);
    DigitStringChars(sorted);
    TwoDigits(first.1, last.1);
  }

  /** The calibration value is a two-digit number (a leading zero allowed),
      and it is determined by the line: the digit at the first start and the
      digit at the last. */
  lemma CalibrationRange(s: string, first: int, v: int, last: int, w: int, value: int)
    requires Starts(s, first, v) && Starts(s, last, w) && value == 10 * v + w
    requires Between(s, first, last)
    ensures 0 <= value <= 99
    ensures forall first', v', last', w' ::
      (Starts(s, first', v') && Starts(s, last', w') && Between(s, first', last'))
      ==> value == 10 * v' + w'
  {
    forall first', v', last', w' |
      Starts(s, first', v') && Starts(s, last', w') && Between(s, first', last')
      ensures value == 10 * v' + w'
    {
      assert first == first' && last == last';
      StartsUnique(s, first, v, v');
      StartsUnique(s, last, w, w');
    }
  }

  /** `"oneight"`: the words overlap and both are reported. */
  lemma OverlappingWords()
    ensures Starts("oneight", 0, 1) && Starts("oneight", 2, 8)
  {
    assert "oneight"[0..3] == "one";
    assert "oneight"[2..7] == "eight";
  }
}
