/** Text handling shared by the puzzle solutions: the `Option` result used for
    every panic path, decimal digits, Rust's `str::parse` for signed integers,
    and `str::split` on a string separator. Integer width is not modelled:
    every number is an unbounded `int`. */
module Text {

  datatype Option<T> = None | Some(value: T)

  predicate IsDigit(c: char) { '0' <= c <= '9' }

  function DigitValue(c: char): (d: nat)
    requires IsDigit(c)
    ensures d < 10
  {
    (c as int) - ('0' as int)
  }

  function DigitChar(d: nat): (c: char)
    requires d < 10
    ensures IsDigit(c) && DigitValue(c) == d
  {
    (('0' as int) + d) as char
  }

  predicate AllDigits(s: string) { forall i :: 0 <= i < |s| ==> IsDigit(s[i]) }

  /** The value of a run of decimal digits, most significant digit first. */
  function DigitsValue(s: string): nat
    requires AllDigits(s)
  {
    if s == [] then 0 else 10 * DigitsValue(s[..|s| - 1]) + DigitValue(s[|s| - 1])
  }

  /** Rust's `str::parse` into a signed integer: an optional `+` or `-`
      followed by at least one decimal digit, and nothing else. */
  function ParseInt(s: string): Option<int>
  {
    if |s| > 0 && (s[0] == '-' || s[0] == '+') then
      if |s| > 1 && AllDigits(s[1..]) then
        Some(if s[0] == '-' then 0 - DigitsValue(s[1..]) else DigitsValue(s[1..]))
      else None
    else if |s| > 0 && AllDigits(s) then Some(DigitsValue(s))
    else None
  }

  /** Decimal rendering of a natural number, as `to_string` prints it. */
  function ShowNat(n: nat): (s: string)
    ensures |s| > 0 && AllDigits(s)
  {
    if n < 10 then [DigitChar(n)] else ShowNat(n / 10) + [DigitChar(n % 10)]
  }

  function ShowInt(n: int): string
  {
    if n < 0 then "-" + ShowNat(-n) else ShowNat(n)
  }

  lemma {:induction false} ShowNatValue(n: nat)
    ensures DigitsValue(ShowNat(n)) == n
  {
    if n >= 10 {
      var s := ShowNat(n);
      assert s[..|s| - 1] == ShowNat(n / 10);
      ShowNatValue(n / 10);
    }
  }

  /** Printing an integer and parsing it back gives the integer. */
  lemma ParseShowInt(n: int)
    ensures ParseInt(ShowInt(n)) == Some(n)
  {
    if n < 0 {
      var s := ShowNat(-n);
      ShowNatValue(-n);
      var t := ShowInt(n);
      assert t == "-" + s;
      assert t[0] == '-' && t[1..] == s;
      assert AllDigits(t[1..]);
    } else {
      var s := ShowNat(n);
      ShowNatValue(n);
      assert IsDigit(s[0]);
    }
  }

  /** A printed integer holds no character other than digits and `-`. */
  lemma ShowIntChars(n: int, c: char)
    requires c in ShowInt(n)
    ensures IsDigit(c) || c == '-'
  {
    if n < 0 {
      var s := ShowNat(-n);
      assert ShowInt(n) == ['-'] + s;
    }
  }

  /** True when `sep` occurs in `s` starting at index `i`. */
  predicate OccursAt(s: string, sep: string, i: int)
  {
    0 <= i && i + |sep| <= |s| && s[i..i + |sep|] == sep
  }

  /** The first occurrence of `sep` in `s` at or after index `i`. */
  function FindFrom(s: string, sep: string, i: nat): (r: Option<nat>)
    requires i <= |s|
    ensures r.Some? ==> i <= r.value && OccursAt(s, sep, r.value)
    ensures r.Some? ==> forall j :: i <= j < r.value ==> !OccursAt(s, sep, j)
    ensures r.None? ==> forall j :: i <= j ==> !OccursAt(s, sep, j)
    decreases |s| - i
  {
    if i + |sep| > |s| then None
    else if s[i..i + |sep|] == sep then Some(i)
    else if i == |s| then None
    else FindFrom(s, sep, i + 1)
  }

  /** Rust's `str::split` with a non-empty string separator: the pieces
      between the leftmost non-overlapping occurrences of `sep`, empty pieces
      included. */
  function Split(s: string, sep: string): (parts: seq<string>)
    requires |sep| > 0
    ensures |parts| > 0
    decreases |s|
  {
    match FindFrom(s, sep, 0)
    case None => [s]
    case Some(i) => [s[..i]] + Split(s[i + |sep|..], sep)
  }

  /** The pieces glued back together with the separator between them. */
  function Join(parts: seq<string>, sep: string): string
  {
    if |parts| == 0 then ""
    else if |parts| == 1 then parts[0]
    else parts[0] + sep + Join(parts[1..], sep)
  }

  /** Splitting and joining again gives back the input. */
  lemma {:induction false} JoinSplit(s: string, sep: string)
    requires |sep| > 0
    ensures Join(Split(s, sep), sep) == s
    decreases |s|
  {
    match FindFrom(s, sep, 0)
    case None =>
    case Some(i) =>
      var rest := s[i + |sep|..];
      JoinSplit(rest, sep);
      var tail := Split(rest, sep);
      assert Split(s, sep) == [s[..i]] + tail;
      assert s == s[..i] + sep + rest;
  }

  lemma NoOccurrenceWithoutHead(s: string, sep: string)
    requires |sep| > 0 && sep[0] !in s
    ensures FindFrom(s, sep, 0).None?
  {
  }

  /** Joining pieces that do not hold the separator's first character and
      splitting again gives back the pieces. */
  lemma {:induction false} SplitJoin(parts: seq<string>, sep: string)
    requires |sep| > 0 && |parts| > 0
    requires forall k :: 0 <= k < |parts| ==> sep[0] !in parts[k]
    ensures Split(Join(parts, sep), sep) == parts
  {
    if |parts| == 1 {
      NoOccurrenceWithoutHead(parts[0], sep);
    } else {
      var p, rest := parts[0], Join(parts[1..], sep);
      var s := p + sep + rest;
      assert Join(parts, sep) == s;
      assert OccursAt(s, sep, |p|) by {
        assert s[|p|..|p| + |sep|] == sep;
      }
      assert FindFrom(s, sep, 0) == Some(|p|);
      assert s[..|p|] == p;
      assert s[|p| + |sep|..] == rest;
      SplitJoin(parts[1..], sep);
    }
  }

  /** A character of a joined string comes from a piece or from the
      separator. */
  lemma {:induction false} JoinChars(parts: seq<string>, sep: string, c: char)
    requires c in Join(parts, sep)
    ensures c in sep || exists k :: 0 <= k < |parts| && c in parts[k]
  {
    if |parts| > 1 {
      var rest := Join(parts[1..], sep);
      assert Join(parts, sep) == parts[0] + sep + rest;
      if c in rest {
        JoinChars(parts[1..], sep, c);
        if !(c in sep) {
          var k :| 0 <= k < |parts[1..]| && c in parts[1..][k];
          assert c in parts[k + 1];
        }
      }
    }
  }

  /** A character in none of the parts nor the separator is not in the
      joined text. */
  lemma {:induction false} JoinLacks(parts: seq<string>, sep: string, c: char)
    requires c !in sep && forall k :: 0 <= k < |parts| ==> c !in parts[k]
    ensures c !in Join(parts, sep)
  {
    if |parts| > 1 {
      JoinLacks(parts[1..], sep, c);
      assert Join(parts, sep) == parts[0] + sep + Join(parts[1..], sep);
    }
  }
}
