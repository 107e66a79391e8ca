/** Mirage Maintenance (day9/src/main.rs): the next value of a history is
    extrapolated by taking differences until they are all zero and adding
    the last values back up. Values are unbounded integers; `i64` overflow is
    not modelled. */
module Oasis {
  import opened Text

  /** The differences of neighbouring values: `derive`'s result. */
  function Differences(s: seq<int>): (d: seq<int>)
    ensures |d| == if |s| == 0 then 0 else |s| - 1
  {
    if |s| < 2 then [] else [s[1] - s[0]] + Differences(s[1..])
  }

  /** Each difference is the next value minus the value. */
  lemma {:induction false} DifferencesAt(s: seq<int>)
    ensures forall i {:trigger Differences(s)[i]} :: 0 <= i < |Differences(s)| ==> Differences(s)[i] == s[i + 1] - s[i]
  {
    if |s| >= 2 {
      DifferencesAt(s[1..]);
    }
  }

  /** A sequence of the right length with the right values is the
      differences. */
  lemma DifferencesUnique(s: seq<int>, d: seq<int>)
    requires |d| == if |s| == 0 then 0 else |s| - 1
    requires forall i :: 0 <= i < |d| ==> d[i] == s[i + 1] - s[i]
    ensures d == Differences(s)
  {
    DifferencesAt(s);
    assert forall i :: 0 <= i < |d| ==> d[i] == Differences(s)[i];
  }

  /** `derive`: one difference per value after the first. */
  method Derive(input: seq<int>) returns (out: seq<int>)
    ensures |out| == if |input| == 0 then 0 else |input| - 1
    ensures forall i :: 0 <= i < |out| ==> out[i] == input[i + 1] - input[i]
    ensures out == Differences(input)
  {
    out := [];
    var i := 0;
    while i + 1 < |input|
      invariant 0 <= i <= |input| && (i == 0 || i < |input|)
      invariant |out| == i
      invariant forall j :: 0 <= j < i ==> out[j] == input[j + 1] - input[j]
    {
      out := out + [input[i + 1] - input[i]];
      i := i + 1;
    }
    DifferencesUnique(input, out);
  }

  predicate AllZero(s: seq<int>)
  {
    forall i :: 0 <= i < |s| ==> s[i] == 0
  }

  function Last(s: seq<int>): int
    requires |s| > 0
  {
    s[|s| - 1]
  }

  /** `predict`. `None` is a panic: the `assert!` on an empty history, or
      `last().expect` on differences that became all zero only by becoming
      empty. */
  function Predict(input: seq<int>): Option<int>
    decreases |input|
  {
    if |input| == 0 then None
    else
      var d := Differences(input);
      if AllZero(d) then
        if |d| == 0 then None else Some(Last(input) + Last(d))
      else
        match Predict(d)
        case None => None
        case Some(dx) => Some(Last(input) + dx)
  }

  /** The differences taken `k` times. */
  function Diff(s: seq<int>, k: nat): (r: seq<int>)
    ensures |r| == if |s| <= k then 0 else |s| - k
    decreases k
  {
    if k == 0 then s else Diff(Differences(s), k - 1)
  }

  lemma {:induction false} ZeroStaysZero(s: seq<int>, k: nat)
    requires AllZero(s)
    ensures AllZero(Diff(s, k))
    decreases k
  {
    if k > 0 {
      DifferencesAt(s);
      ZeroStaysZero(Differences(s), k - 1);
    }
  }

  /** The `k + 1`-th differences of a history of at least `k + 2` values
      are all zero. */
  predicate ZeroLevel(x: seq<int>, k: nat)
  {
    |x| >= k + 2 && AllZero(Diff(x, k + 1))
  }

  lemma DiffOne(x: seq<int>, k: nat)
    ensures Diff(x, k + 1) == Diff(Differences(x), k)
  {
  }

  /** Appending a value appends one difference. */
  lemma DifferencesSnoc(x: seq<int>, v: int)
    requires |x| > 0
    ensures Differences(x + [v]) == Differences(x) + [v - Last(x)]
  {
    var y, e := x + [v], Differences(x) + [v - Last(x)];
    DifferencesAt(x);
    forall i | 0 <= i < |e|
      ensures e[i] == y[i + 1] - y[i]
    {
      if i < |e| - 1 {
        assert e[i] == Differences(x)[i];
      }
    }
    DifferencesUnique(y, e);
  }

  /** `predict` succeeds exactly when, for some `k`, the history has at
      least `k + 2` values and its `k + 1`-th differences are all zero. */
  lemma {:induction false} PredictSucceeds(x: seq<int>)
    ensures Predict(x).Some? <==> exists k: nat :: ZeroLevel(x, k)
    decreases |x|
  {
    if |x| > 0 {
      var d := Differences(x);
      DiffOne(x, 0);
      if AllZero(d) {
        if |d| > 0 {
          assert ZeroLevel(x, 0);
        }
      } else {
        PredictSucceeds(d);
        if Predict(d).Some? {
          LevelUp(x);
        }
        LevelDown(x);
      }
    }
  }

  /** A zero level of the differences is a zero level of the history, one
      deeper. */
  lemma LevelUp(x: seq<int>)
    requires |x| > 0
    requires exists j: nat :: ZeroLevel(Differences(x), j)
    ensures exists k: nat :: ZeroLevel(x, k)
  {
    var j: nat :| ZeroLevel(Differences(x), j);
    DiffOne(x, j + 1);
    assert ZeroLevel(x, j + 1);
  }

  /** When the first differences are not all zero, a zero level of the
      history is a zero level of the differences, one higher. */
  lemma LevelDown(x: seq<int>)
    requires |x| > 0 && !AllZero(Differences(x))
    ensures (exists k: nat :: ZeroLevel(x, k)) ==> exists j: nat :: ZeroLevel(Differences(x), j)
  {
    if exists k: nat :: ZeroLevel(x, k) {
      var k: nat :| ZeroLevel(x, k);
      DiffOne(x, 0);
      DiffOne(x, k);
      assert k > 0;
      assert ZeroLevel(Differences(x), k - 1);
    }
  }

  /** The prediction is the value that keeps the same differences zero:
      appended to the history, it leaves the `k + 1`-th differences all
      zero. */
  lemma {:induction false} PredictKeepsLevel(x: seq<int>, k: nat)
    requires ZeroLevel(x, k)
    ensures Predict(x).Some?
    ensures AllZero(Diff(x + [Predict(x).value], k + 1))
    decreases k
  {
    var d := Differences(x);
    PredictSucceeds(x);
    var v := Predict(x).value;
    DifferencesSnoc(x, v);
    DiffOne(x + [v], k);
    DiffOne(x, k);
    if AllZero(d) {
      assert v == Last(x);
      assert AllZero(d + [0]);
      ZeroStaysZero(d + [0], k);
    } else {
      DiffOne(x, 0);
      assert k > 0;
      PredictKeepsLevel(d, k - 1);
      var w := Predict(d).value;
      assert v == Last(x) + w;
    }
  }

  /** A constant history of two or more values predicts the constant. */
  lemma PredictConstant(x: seq<int>, c: int)
    requires |x| >= 2 && forall i :: 0 <= i < |x| ==> x[i] == c
    ensures Predict(x) == Some(c)
  {
    var d := Differences(x);
    DifferencesAt(x);
    assert AllZero(d) && |d| > 0;
    assert Last(d) == 0 && Last(x) == c;
  }

  /** An arithmetic progression, a history whose differences all equal
      `step`, predicts its last value plus `step`, given at least three
      values or a zero step. */
  lemma PredictSteady(x: seq<int>, step: int)
    requires |x| >= 3 || (|x| == 2 && step == 0)
    requires forall i :: 0 <= i < |Differences(x)| ==> Differences(x)[i] == step
    ensures Predict(x) == Some(Last(x) + step)
  {
    var d := Differences(x);
    if step == 0 {
      assert AllZero(d);
    } else {
      PredictConstant(d, step);
      PredictUnflat(x, step);
    }
  }

  /** Two values with a non-zero step: the one difference is not zero, its
      own differences are empty, and `predict` panics. */
  lemma PredictLineTooShort(x: seq<int>)
    requires |x| == 2 && x[0] != x[1]
    ensures Predict(x).None?
  {
    var d := Differences(x);
    assert d == [x[1] - x[0]];
    assert Differences(d) == [];
  }

  /** When the differences are not all zero, the prediction adds the
      prediction for the differences to the last value. */
  lemma PredictUnflat(x: seq<int>, v: int)
    requires |x| > 0 && !AllZero(Differences(x)) && Predict(Differences(x)) == Some(v)
    ensures Predict(x) == Some(Last(x) + v)
  {
  }

  function Reverse(s: seq<int>): seq<int>
  {
    seq(|s|, i requires 0 <= i < |s| => s[|s| - 1 - i])
  }

  function Negate(s: seq<int>): seq<int>
  {
    seq(|s|, i requires 0 <= i < |s| => 0 - s[i])
  }

  lemma {:induction false} DiffNegate(s: seq<int>, k: nat)
    ensures Diff(Negate(s), k) == Negate(Diff(s, k))
    decreases k
  {
    if k > 0 {
      DifferencesAt(s);
      DifferencesUnique(Negate(s), Negate(Differences(s)));
      DiffNegate(Differences(s), k - 1);
    }
  }

  /** Reversing a history reverses its differences and flips their sign. */
  lemma DifferencesReverse(s: seq<int>)
    ensures Differences(Reverse(s)) == Reverse(Negate(Differences(s)))
  {
    DifferencesAt(s);
    DifferencesUnique(Reverse(s), Reverse(Negate(Differences(s))));
  }

  lemma ReverseZero(s: seq<int>)
    ensures AllZero(Reverse(s)) <==> AllZero(s)
  {
    assert forall i :: 0 <= i < |s| ==> s[i] == Reverse(s)[|s| - 1 - i];
  }

  lemma NegateZero(s: seq<int>)
    ensures AllZero(Negate(s)) <==> AllZero(s)
  {
    assert forall i :: 0 <= i < |s| ==> (Negate(s)[i] == 0 <==> s[i] == 0);
  }

  /** `t` with its sign flipped `k` times. */
  function Flip(t: seq<int>, k: nat): seq<int>
  {
    if Odd(k) then Negate(t) else t
  }

  function Odd(k: nat): bool
  {
    k > 0 && !Odd(k - 1)
  }

  lemma FlipNegate(t: seq<int>, k: nat)
    requires k > 0
    ensures Flip(Negate(t), k - 1) == Flip(t, k)
  {
    if !Odd(k) {
      assert Negate(Negate(t)) == t;
    }
  }

  /** The differences of a reversed history are those of the history,
      reversed, with the sign flipped once per level. */
  lemma {:induction false} DiffReverse(s: seq<int>, k: nat)
    ensures Diff(Reverse(s), k) == Reverse(Flip(Diff(s, k), k))
    decreases k
  {
    if k > 0 {
      DiffReverse(Negate(Differences(s)), k - 1);
      DiffReverseStep(s, Differences(s), k);
    } else {
      assert Flip(s, 0) == s;
    }
  }

  /** One level of `DiffReverse`, from the level below for the negated
      differences. */
  lemma DiffReverseStep(s: seq<int>, d: seq<int>, k: nat)
    requires k > 0 && d == Differences(s)
    requires Diff(Reverse(Negate(d)), k - 1) == Reverse(Flip(Diff(Negate(d), k - 1), k - 1))
    ensures Diff(Reverse(s), k) == Reverse(Flip(Diff(s, k), k))
  {
    ReversedLevel(s, d, k);
    assert Diff(Reverse(s), k) == Diff(Reverse(Negate(d)), k - 1);
    FlippedLevel(s, d, k);
    assert Reverse(Flip(Negate(Diff(d, k - 1)), k - 1)) == Reverse(Flip(Diff(s, k), k));
    LevelChain(d, k - 1, Diff(Reverse(s), k), Reverse(Flip(Diff(s, k), k)));
  }

  /** The middle of the chain: the negated level below, flipped. */
  lemma LevelChain(d: seq<int>, j: nat, a: seq<int>, e: seq<int>)
    requires a == Diff(Reverse(Negate(d)), j)
    requires Diff(Reverse(Negate(d)), j) == Reverse(Flip(Diff(Negate(d), j), j))
    requires Reverse(Flip(Negate(Diff(d, j)), j)) == e
    ensures a == e
  {
    NegatedLevel(d, j);
  }

  /** The level `k` differences of a reversed history are the level `k - 1`
      differences of its reversed, negated differences. */
  lemma ReversedLevel(s: seq<int>, d: seq<int>, k: nat)
    requires k > 0 && d == Differences(s)
    ensures Diff(Reverse(s), k) == Diff(Reverse(Negate(d)), k - 1)
  {
    DifferencesReverse(s);
    assert Differences(Reverse(s)) == Reverse(Negate(d));
  }

  /** One more sign flip on the negated level is a flip of the level. */
  lemma FlippedLevel(s: seq<int>, d: seq<int>, k: nat)
    requires k > 0 && d == Differences(s)
    ensures Reverse(Flip(Negate(Diff(d, k - 1)), k - 1)) == Reverse(Flip(Diff(s, k), k))
  {
    var e := Diff(d, k - 1);
    assert Diff(s, k) == e;
    FlipNegate(e, k);
    assert Flip(Negate(e), k - 1) == Flip(e, k);
  }

  lemma NegatedLevel(d: seq<int>, j: nat)
    ensures Reverse(Flip(Diff(Negate(d), j), j)) == Reverse(Flip(Negate(Diff(d, j)), j))
  {
    DiffNegate(d, j);
    assert Diff(Negate(d), j) == Negate(Diff(d, j));
  }

  /** Which differences of a history are all zero does not change when the
      history is reversed. */
  lemma DiffReverseZero(s: seq<int>, k: nat)
    ensures AllZero(Diff(Reverse(s), k)) <==> AllZero(Diff(s, k))
  {
    DiffReverse(s, k);
    ReverseZero(Flip(Diff(s, k), k));
    NegateZero(Diff(s, k));
  }

  lemma ReverseCons(v: int, x: seq<int>)
    ensures Reverse([v] + x) == Reverse(x) + [v]
  {
  }

  /** Part 2: `predict` on the reversed history. */
  function PredictBackward(x: seq<int>): Option<int>
  {
    Predict(Reverse(x))
  }

  /** The backward prediction is the value that, put in front of the
      history, keeps the same differences zero. */
  lemma PredictBackwardKeepsLevel(x: seq<int>, k: nat)
    requires ZeroLevel(x, k)
    ensures PredictBackward(x).Some?
    ensures AllZero(Diff([PredictBackward(x).value] + x, k + 1))
  {
    DiffReverseZero(x, k + 1);
    assert ZeroLevel(Reverse(x), k);
    PredictKeepsLevel(Reverse(x), k);
    var v := PredictBackward(x).value;
    ReverseCons(v, x);
    DiffReverseZero([v] + x, k + 1);
  }
}
