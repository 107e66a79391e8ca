/** Wait For It (day6/src/main.rs), `num_ways_to_win_2`: holding the button
    of a toy boat for `bt` of the race's `time` milliseconds makes it travel
    `bt * (time - bt)`; the function counts the hold times that beat the
    record distance, as the span from the first winning hold time to the
    last. Integers are unbounded; `u64` overflow is not modelled. */
module BoatRace {
  import opened Text

  /** The distance covered when holding for `bt` of `time`. */
  function Distance(time: nat, bt: nat): int
  {
    bt * (time - bt)
  }

  predicate Wins(time: nat, record: nat, bt: nat)
  {
    Distance(time, bt) > record
  }

  /** `beats_record`: one flag per hold time in `0..time`. */
  function BeatsRecord(time: nat, record: nat): (flags: seq<bool>)
    ensures |flags| == time
    ensures forall bt :: 0 <= bt < time ==> (flags[bt] <==> Wins(time, record, bt))
  {
    seq(time, bt requires 0 <= bt < time => Distance(time, bt) > record)
  }

  /** `iter().position(|&x| x)`: the first index holding `true`. */
  function Position(flags: seq<bool>): (r: Option<nat>)
    ensures r.None? <==> forall i :: 0 <= i < |flags| ==> !flags[i]
    ensures r.Some? ==> r.value < |flags| && flags[r.value]
    ensures r.Some? ==> forall i :: 0 <= i < r.value ==> !flags[i]
  {
    if |flags| == 0 then None
    else if flags[0] then Some(0)
    else match Position(flags[1..])
      case None => None
      case Some(i) => Some(i + 1)
  }

  /** `iter().rposition(|&x| x)`: the last index holding `true`. */
  function RPosition(flags: seq<bool>): (r: Option<nat>)
    ensures r.None? <==> forall i :: 0 <= i < |flags| ==> !flags[i]
    ensures r.Some? ==> r.value < |flags| && flags[r.value]
    ensures r.Some? ==> forall i :: r.value < i < |flags| ==> !flags[i]
  {
    if |flags| == 0 then None
    else if flags[|flags| - 1] then Some(|flags| - 1)
    else RPosition(flags[..|flags| - 1])
  }

  /** `num_ways_to_win_2`: last winning hold time minus first, plus one.
      `None` is the panic of `unwrap` when no hold time wins. */
  function NumWaysToWin(time: nat, record: nat): Option<int>
  {
    var flags := BeatsRecord(time, record);
    match (Position(flags), RPosition(flags))
    case (Some(lower), Some(upper)) => Some(upper - lower + 1)
    case _ => None
  }

  /** The number of winning hold times below `n`, counted one by one. */
  function CountWins(time: nat, record: nat, n: nat): nat
  {
    if n == 0 then 0 else CountWins(time, record, n - 1) + (if Wins(time, record, n - 1) then 1 else 0)
  }

  /** Holding longer gains distance while the hold is at most the time
      left: d(b) - d(l) is (b - l) * (time - b - l). */
  lemma DistanceGrows(time: nat, l: nat, b: nat)
    requires l <= b && b + l <= time
    ensures Distance(time, l) <= Distance(time, b)
  {
    assert Distance(time, b) - Distance(time, l) == (b - l) * (time - b - l);
    MulNonNegative(b - l, time - b - l);
  }

  /** ... and loses it once the hold is past half the time. */
  lemma DistanceShrinks(time: nat, b: nat, u: nat)
    requires b <= u <= time && b + u >= time
    ensures Distance(time, u) <= Distance(time, b)
  {
    assert Distance(time, b) - Distance(time, u) == (u - b) * (b + u - time);
    MulNonNegative(u - b, b + u - time);
  }

  lemma MulNonNegative(x: int, y: int)
    requires x >= 0 && y >= 0
    ensures x * y >= 0
  {
  }

  /** The winning hold times have no gaps: every hold time between two
      winning ones wins. */
  lemma WinsContiguous(time: nat, record: nat, l: nat, b: nat, u: nat)
    requires l <= b <= u < time
    requires Wins(time, record, l) && Wins(time, record, u)
    ensures Wins(time, record, b)
  {
    if b + l <= time {
      DistanceGrows(time, l, b);
    } else {
      DistanceShrinks(time, b, u);
    }
  }

  /** Counting up to `n` when the winners are exactly `lower..=upper`. */
  lemma {:induction false} CountSpan(time: nat, record: nat, lower: nat, upper: nat, n: nat)
    requires lower <= upper
    requires forall bt: nat :: Wins(time, record, bt) <==> lower <= bt <= upper
    ensures CountWins(time, record, n) == if n <= lower then 0 else if n <= upper + 1 then n - lower else upper - lower + 1
  {
    if n > 0 {
      CountSpan(time, record, lower, upper, n - 1);
    }
  }

  /** The span from the first to the last winning hold time is the number of
      winning hold times, as the function's name promises; and it panics
      exactly when none wins. */
  lemma NumWaysCounts(time: nat, record: nat)
    ensures NumWaysToWin(time, record).None? <==> forall bt :: 0 <= bt < time ==> !Wins(time, record, bt)
    ensures NumWaysToWin(time, record).Some? ==>
      NumWaysToWin(time, record).value == CountWins(time, record, time) >= 1
  {
    var flags := BeatsRecord(time, record);
    if Position(flags).Some? {
      var lower, upper := Position(flags).value, RPosition(flags).value;
      forall bt: nat
        ensures Wins(time, record, bt) <==> lower <= bt <= upper
      {
        if lower <= bt <= upper {
          WinsContiguous(time, record, lower, bt, upper);
        } else if bt >= time {
          assert Distance(time, bt) == bt * (time - bt);
          MulNonPositive(bt, time - bt);
        }
      }
      CountSpan(time, record, lower, upper, time);
    }
  }

  lemma MulNonPositive(x: int, y: int)
    requires x >= 0 && y <= 0
    ensures x * y <= 0
  {
  }
}
