/** Scratchcards (day4/src/main.rs): each card line lists winning numbers
    and numbers held; the matches score doubling points (part 1), and each
    card wins one more copy of each of the next cards, as many as it has
    matches (part 2). The solution keeps a queue of copy counts, one per card
    still to come, popped at the front and raised in place. Counts are
    unbounded integers; `i32` overflow is not modelled. */
module Scratchcards {
  import opened Text

  /** The length of the copy queue: `VecDeque::from([1; 206])`. */
  const QueueLength: nat := 206

  /** The numbers a space-separated list parses to; tokens that do not parse
      (such as the empty tokens between double spaces) are skipped, as
      `filter_map(|x| x.parse().ok())` skips them. */
  function ParsedNumbers(tokens: seq<string>): set<int>
  {
    if |tokens| == 0 then {}
    else
      var last := match ParseInt(tokens[|tokens| - 1]) case Some(x) => {x} case None => {};
      ParsedNumbers(tokens[..|tokens| - 1]) + last
  }

  lemma {:induction false} ParsedNumbersMeaning(tokens: seq<string>, x: int)
    ensures x in ParsedNumbers(tokens) <==> exists k :: 0 <= k < |tokens| && ParseInt(tokens[k]) == Some(x)
  {
    if |tokens| > 0 {
      var init := tokens[..|tokens| - 1];
      ParsedNumbersMeaning(init, x);
      if x in ParsedNumbers(init) {
        var k :| 0 <= k < |init| && ParseInt(init[k]) == Some(x);
        assert tokens[k] == init[k];
      }
      if exists k :: 0 <= k < |tokens| && ParseInt(tokens[k]) == Some(x) {
        var k :| 0 <= k < |tokens| && ParseInt(tokens[k]) == Some(x);
        if k < |init| {
          assert init[k] == tokens[k];
        }
      }
    }
  }

  /** The winning numbers: columns 10 to 39 of the line. */
  function Winning(line: string): set<int>
    requires |line| >= 42
  {
    ParsedNumbers(Split(line[10..39], " "))
  }

  /** The numbers held: from column 42 to the end. */
  function Held(line: string): set<int>
    requires |line| >= 42
  {
    ParsedNumbers(Split(line[42..], " "))
  }

  /** `winning_nums.intersection(&have_nums).count()`. */
  function MatchCount(line: string): nat
    requires |line| >= 42
  {
    |Winning(line) * Held(line)|
  }

  /** Some token of the space-separated `text` parses to `x`. */
  ghost predicate Lists(text: string, x: int)
  {
    exists k :: 0 <= k < |Split(text, " ")| && ParseInt(Split(text, " ")[k]) == Some(x)
  }

  /** A number counts as a match when some winning token and some held
      token parse to it, however often it appears; the count is at most the
      size of either list. */
  lemma MatchCountMeaning(line: string, x: int)
    requires |line| >= 42
    ensures x in Winning(line) * Held(line) <==> Lists(line[10..39], x) && Lists(line[42..], x)
    ensures MatchCount(line) <= |Winning(line)| && MatchCount(line) <= |Held(line)|
  {
    ParsedNumbersMeaning(Split(line[10..39], " "), x);
    ParsedNumbersMeaning(Split(line[42..], " "), x);
    IntersectionBound(Winning(line), Held(line));
  }

  lemma IntersectionBound(w: set<int>, h: set<int>)
    ensures |w * h| <= |w| && |w * h| <= |h|
  {
    assert w == (w * h) + (w - h) && (w * h) !! (w - h);
    assert h == (w * h) + (h - w) && (w * h) !! (h - w);
  }

  function Pow2(e: nat): (p: nat)
    ensures p >= 1
  {
    if e == 0 then 1 else 2 * Pow2(e - 1)
  }

  /** The part-1 points of a card: `2.pow(n - 1)` when it has matches,
      nothing otherwise. */
  function Points(n: nat): nat
  {
    if n > 0 then Pow2(n - 1) else 0
  }

  /** The first match is worth one point and each further one doubles it. */
  lemma PointsDouble(n: nat)
    ensures Points(0) == 0 && Points(1) == 1
    ensures n >= 1 ==> Points(n + 1) == 2 * Points(n)
  {
  }

  /** The points of the cards played so far. */
  function ScoreSum(ns: seq<nat>): nat
  {
    if |ns| == 0 then 0 else ScoreSum(ns[..|ns| - 1]) + Points(ns[|ns| - 1])
  }

  /** How many copies of card `i` the cards with match counts `ns` give:
      the original plus one copy for every copy of each earlier card `j`
      whose `ns[j]` matches reach card `i`. */
  function Copies(ns: seq<nat>, i: nat): (c: nat)
    ensures c >= 1
    decreases i, 1
  {
    1 + Won(ns, i, i)
  }

  /** The copies of card `i` won by the cards before `j`. */
  function Won(ns: seq<nat>, i: nat, j: nat): nat
    requires j <= i
    decreases j, 0
  {
    if j == 0 then 0
    else Won(ns, i, j - 1) + (if j - 1 < |ns| && i <= j - 1 + ns[j - 1] then Copies(ns, j - 1) else 0)
  }

  /** The total number of cards among the first `k`, copies included. */
  function CopiesSum(ns: seq<nat>, k: nat): nat
  {
    if k == 0 then 0 else CopiesSum(ns, k - 1) + Copies(ns, k - 1)
  }

  /** Playing one more card with `n` matches changes the wins of a later
      card `i` only by that card's copies, and only when the matches reach
      it. */
  lemma {:induction false} WonSnoc(ns: seq<nat>, n: nat, i: nat, j: nat)
    requires j <= i
    ensures Won(ns + [n], i, j)
         == Won(ns, i, j) + (if |ns| < j && i <= |ns| + n then Copies(ns, |ns|) else 0)
    decreases j, 0
  {
    if j > 0 {
      WonSnoc(ns, n, i, j - 1);
      if j - 1 < |ns| {
        assert (ns + [n])[j - 1] == ns[j - 1];
        CopiesSnoc(ns, n, j - 1);
      } else if j - 1 == |ns| {
        assert (ns + [n])[j - 1] == n;
        CopiesSnoc(ns, n, j - 1);
      }
    }
  }

  lemma {:induction false} CopiesSnoc(ns: seq<nat>, n: nat, i: nat)
    ensures Copies(ns + [n], i) == Copies(ns, i) + (if |ns| < i <= |ns| + n then Copies(ns, |ns|) else 0)
    decreases i, 1
  {
    WonSnoc(ns, n, i, i);
  }

  /** Later cards do not change the count of copies of an earlier one, so
      the total over the cards played so far grows by the copies of the
      card just played. */
  lemma {:induction false} CopiesSumSnoc(ns: seq<nat>, n: nat, k: nat)
    requires k <= |ns|
    ensures CopiesSum(ns + [n], k) == CopiesSum(ns, k)
  {
    if k > 0 {
      CopiesSumSnoc(ns, n, k - 1);
      CopiesSnoc(ns, n, k - 1);
    }
  }

  /** The running totals and the copy queue of `main`'s loop. */
  class Scratchcards {
    /** `part1_score` */
    var score: int
    /** `part2_count` */
    var total: int
    /** `copy_stack`: the copy counts of the cards still to come. */
    var queue: seq<int>
    /** The match counts of the cards played so far. */
    ghost var matches: seq<nat>

    /** The running totals are the points and the card count of the cards
        played, and the queue holds, for each card to come, the copies the
        played cards have given it. */
    ghost predicate Valid()
      reads this
    {
      Tracks(queue, matches, score, total)
    }

    constructor()
      ensures Valid() && matches == []
      ensures score == 0 && total == 0 && queue == seq(QueueLength, _ => 1)
    {
      score := 0;
      total := 0;
      queue := seq(QueueLength, _ => 1);
      matches := [];
      forall m | 0 <= m < QueueLength
        ensures Copies([], m) == 1
      {
        WonNone(m, m);
      }
    }

    /** One pass of the loop. `false` is a panic: a line too short to slice,
        an empty queue, or more matches than cards left in the queue. */
    method ProcessCard(line: string) returns (ok: bool)
      requires Valid()
      modifies this
      ensures ok <==> |line| >= 42 && 0 < |old(queue)| && MatchCount(line) <= |old(queue)| - 1
      ensures ok ==> Valid() && matches == old(matches) + [MatchCount(line)]
      ensures ok ==> score == old(score) + Points(MatchCount(line))
      ensures ok ==> total == old(total) + old(queue)[0]
      ensures ok ==> |queue| == |old(queue)| - 1
      ensures ok ==> forall m :: 0 <= m < |queue| ==>
        queue[m] == old(queue)[m + 1] + (if m < MatchCount(line) then old(queue)[0] else 0)
    {
      if |line| < 42 {
        return false;
      }
      var n := MatchCount(line);
      if n > 0 {
        score := score + Pow2(n - 1);
      }
      if |queue| == 0 {
        return false;
      }
      var copies := queue[0];
      queue := queue[1..];
      total := total + copies;
      if n > |queue| {
        return false;
      }
      RaiseFront(n, copies);
      matches := matches + [n];
      PlayPreserves(old(queue), old(matches), old(score), old(total), n, queue, matches, score, total);
      return true;
    }

    /** `range_mut(..n).for_each(|i| *i += copies)`: the first `n` counts of
        the queue are raised by `copies`. */
    method RaiseFront(n: nat, copies: int)
      requires n <= |queue|
      modifies this
      ensures |queue| == |old(queue)|
      ensures forall m :: 0 <= m < |queue| ==> queue[m] == old(queue)[m] + (if m < n then copies else 0)
      ensures score == old(score) && total == old(total) && matches == old(matches)
    {
      var i := 0;
      while i < n
        invariant 0 <= i <= n && |queue| == |old(queue)|
        invariant forall m :: 0 <= m < |queue| ==> queue[m] == old(queue)[m] + (if m < i then copies else 0)
        invariant score == old(score) && total == old(total) && matches == old(matches)
      {
        queue := queue[i := queue[i] + copies];
        i := i + 1;
      }
    }
  }

  /** The state of `main`'s loop after the cards with match counts `ms`:
      the queue holds, for each card to come, the copies the played cards
      have given it, and the totals are their points and card count. */
  ghost predicate Tracks(queue: seq<int>, ms: seq<nat>, score: int, total: int)
  {
    && |queue| + |ms| == QueueLength
    && (forall m :: 0 <= m < |queue| ==> queue[m] == Copies(ms, |ms| + m))
    && score == ScoreSum(ms)
    && total == CopiesSum(ms, |ms|)
  }

  /** One pass of the loop keeps the state in step with the cards played. */
  lemma PlayPreserves(q: seq<int>, ms: seq<nat>, score: int, total: int, n: nat,
                       r: seq<int>, ms': seq<nat>, score': int, total': int)
    requires Tracks(q, ms, score, total)
    requires 0 < |q| && n <= |q| - 1 && |r| == |q| - 1
    requires forall m :: 0 <= m < |r| ==> r[m] == q[m + 1] + (if m < n then q[0] else 0)
    requires ms' == ms + [n] && score' == score + Points(n) && total' == total + q[0]
    ensures Tracks(r, ms', score', total')
  {
    QueueAfter(ms, q, n, r);
    CopiesSumSnoc(ms, n, |ms|);
    CopiesSnoc(ms, n, |ms|);
    assert (ms + [n])[..|ms|] == ms;
  }

  /** Playing a card with `n` matches turns the queue of copies of the
      cards to come into the queue for the cards after it. */
  lemma QueueAfter(played: seq<nat>, q: seq<int>, n: nat, r: seq<int>)
    requires 0 < |q| && n <= |q| - 1 && |r| == |q| - 1
    requires forall m :: 0 <= m < |q| ==> q[m] == Copies(played, |played| + m)
    requires forall m :: 0 <= m < |r| ==> r[m] == q[m + 1] + (if m < n then q[0] else 0)
    ensures forall m :: 0 <= m < |r| ==> r[m] == Copies(played + [n], |played + [n]| + m)
  {
    forall m | 0 <= m < |r|
      ensures r[m] == Copies(played + [n], |played + [n]| + m)
    {
      CopiesSnoc(played, n, |played| + 1 + m);
    }
  }

  lemma {:induction false} WonNone(i: nat, j: nat)
    requires j <= i
    ensures Won([], i, j) == 0
  {
    if j > 0 {
      WonNone(i, j - 1);
    }
  }

  /** A card with no matches wins nothing; a card with matches gives each of
      the next cards as many copies as it has itself. */
  lemma CardWins(ns: seq<nat>, n: nat, i: nat)
    requires |ns| < i
    ensures Copies(ns + [n], i) - Copies(ns, i) == if i <= |ns| + n then Copies(ns, |ns|) else 0
  {
    CopiesSnoc(ns, n, i);
  }
}
