/** Camel Cards, part 2 (2023/day7/src/main.rs): `J` is a joker. For the
    type, every joker becomes the most frequent other card (the strongest of
    them on a tie); for ordering, the original cards are compared with `J`
    as the weakest card of `"J23456789TQKA"`. */
module JokerCards {
  import opened Text
  import opened Hands
  import Sorting

  const Strength: string := "J23456789TQKA"

  /** The cards that are not jokers, in order: the `filter` of
      `replace_jokers`. */
  function NonJokers(s: string): (r: string)
    ensures |r| == |s| - Count(s, 'J')
    ensures 'J' !in r
  {
    if |s| == 0 then []
    else NonJokers(s[..|s| - 1]) + (if s[|s| - 1] == 'J' then [] else [s[|s| - 1]])
  }

  /** Filtering out the jokers keeps the count of every other card. */
  lemma {:induction false} NonJokersCount(s: string, c: char)
    requires c != 'J'
    ensures Count(NonJokers(s), c) == Count(s, c)
  {
    if |s| > 0 {
      NonJokersCount(s[..|s| - 1], c);
      if s[|s| - 1] != 'J' {
        CountSnoc(NonJokers(s[..|s| - 1]), s[|s| - 1], c);
      } else {
        assert NonJokers(s) == NonJokers(s[..|s| - 1]);
      }
    }
  }

  /** The largest of the counts is one of them and bounds all of them. */
  lemma {:induction false} MaxBounds(cs: seq<nat>)
    ensures forall k :: 0 <= k < |cs| ==> cs[k] <= Max(cs)
    ensures |cs| > 0 ==> Max(cs) in cs
  {
    if |cs| > 0 {
      MaxBounds(cs[1..]);
      assert forall k :: 1 <= k < |cs| ==> cs[k] == cs[1..][k - 1];
    }
  }

  /** The cards `highest_count_chars` collects: the distinct cards of `s`
      whose count is the largest count. */
  function TopCards(s: string): (top: seq<char>)
    ensures forall c :: c in top <==> c in s && Count(s, c) == Max(Counts(s))
  {
    Keep(Distinct(s), s, Max(Counts(s)))
  }

  /** Some card of a non-empty hand has the largest count, and no card has
      more. */
  lemma TopCardsNonEmpty(s: string)
    requires |s| > 0
    ensures |TopCards(s)| > 0
    ensures forall c :: c in s ==> Count(s, c) <= Max(Counts(s))
  {
    MaxBounds(Counts(s));
    var k :| 0 <= k < |Counts(s)| && Counts(s)[k] == Max(Counts(s));
    assert Distinct(s)[k] in TopCards(s);
    forall c | c in s
      ensures Count(s, c) <= Max(Counts(s))
    {
      var j :| 0 <= j < |Distinct(s)| && Distinct(s)[j] == c;
      assert Counts(s)[j] == Count(s, c);
    }
  }

  /** The cards of `d` that occur `n` times in `s`. */
  function Keep(d: seq<char>, s: string, n: nat): (r: seq<char>)
    ensures forall c :: c in r <==> c in d && Count(s, c) == n
  {
    if |d| == 0 then []
    else (if Count(s, d[0]) == n then [d[0]] else []) + Keep(d[1..], s, n)
  }

  /** The strongest of `top` by index in `strength` (`Strength` in the
      solution): the `map`/`max` of `replace_jokers`. `None` is a panic: an
      empty list, or a card outside `strength`. */
  function BestIndex(strength: string, top: seq<char>): (r: Option<nat>)
    ensures r.Some? ==> r.value < |strength|
  {
    if |top| == 0 then None
    else
      match IndexOf(strength, top[0])
      case None => None
      case Some(i) =>
        if |top| == 1 then Some(i)
        else match BestIndex(strength, top[1..])
          case None => None
          case Some(j) => Some(if i > j then i else j)
  }

  /** `BestIndex` fails exactly on an empty list or a card outside
      `strength`; otherwise it is the index of one of the cards and no card
      has a larger one. */
  lemma {:induction false} BestIndexMeaning(strength: string, top: seq<char>)
    ensures BestIndex(strength, top).Some? <==> |top| > 0 && forall k :: 0 <= k < |top| ==> top[k] in strength
    ensures BestIndex(strength, top).Some? ==>
      exists k :: 0 <= k < |top| && IndexOf(strength, top[k]) == BestIndex(strength, top)
    ensures BestIndex(strength, top).Some? ==>
      forall k :: 0 <= k < |top| ==> IndexOf(strength, top[k]).value <= BestIndex(strength, top).value
  {
    if |top| > 1 && IndexOf(strength, top[0]).Some? {
      var i := IndexOf(strength, top[0]).value;
      BestIndexMeaning(strength, top[1..]);
      assert forall k :: 1 <= k < |top| ==> top[k] == top[1..][k - 1];
      if BestIndex(strength, top[1..]).Some? {
        var j := BestIndex(strength, top[1..]).value;
        var k :| 0 <= k < |top[1..]| && IndexOf(strength, top[1..][k]) == Some(j);
        assert IndexOf(strength, top[k + 1]) == Some(j);
        assert IndexOf(strength, top[0]) == Some(i);
      }
    }
  }

  /** `cards.replace("J", c)`. */
  function ReplaceAll(s: string, c: char): (r: string)
    ensures |r| == |s|
    ensures forall i :: 0 <= i < |s| ==> r[i] == (if s[i] == 'J' then c else s[i])
  {
    seq(|s|, i requires 0 <= i < |s| => if s[i] == 'J' then c else s[i])
  }

  /** `replace_jokers`: no jokers leaves the cards alone, five become
      `"AAAAA"`, and otherwise every joker becomes the strongest of the most
      frequent other cards. `None` is a panic: only jokers, but not five of
      them, or a most frequent card outside `Strength`. */
  function ReplaceJokers(cards: string): Option<string>
  {
    var jokers := Count(cards, 'J');
    if jokers == 0 then Some(cards)
    else if jokers == 5 then Some("AAAAA")
    else
      match BestIndex(Strength, TopCards(NonJokers(cards)))
      case None => None
      case Some(i) => Some(ReplaceAll(cards, Strength[i]))
  }

  /** What `replace_jokers` does to a hand with some jokers but not five:
      it fails exactly when every card is a joker or a most frequent other
      card is not a card; otherwise the jokers all become the card `c` it
      returns, which is no joker, occurs in the hand at least as often as
      every other non-joker, and beats every other non-joker as frequent as
      itself; the other positions keep their cards. */
  lemma ReplaceJokersChoice(cards: string) returns (c: char)
    requires 0 < Count(cards, 'J') != 5
    ensures ReplaceJokers(cards).None? <==>
      Count(cards, 'J') == |cards| || exists t :: t in TopCards(NonJokers(cards)) && t !in Strength
    ensures ReplaceJokers(cards).Some? ==>
      var r := ReplaceJokers(cards).value;
      && |r| == |cards| && 'J' !in r
      && c != 'J' && c in cards && c in Strength
      && (forall i :: 0 <= i < |cards| ==> r[i] == (if cards[i] == 'J' then c else cards[i]))
      && (forall d :: d in cards && d != 'J' ==> Count(cards, d) <= Count(cards, c))
      && (forall d :: d in cards && d != 'J' && d in Strength && Count(cards, d) == Count(cards, c) ==>
            IndexOf(Strength, d).value <= IndexOf(Strength, c).value)
  {
    var rest := NonJokers(cards);
    var top := TopCards(rest);
    var best := BestIndex(Strength, top);
    BestIndexMeaning(Strength, top);
    if |rest| == 0 {
      assert Count(cards, 'J') == |cards|;
      c := 'J';
    } else {
      assert Count(cards, 'J') != |cards|;
      TopCardsNonEmpty(rest);
      if best.None? {
        var k :| 0 <= k < |top| && top[k] !in Strength;
        assert top[k] in top;
        c := 'J';
      } else {
        var k :| 0 <= k < |top| && IndexOf(Strength, top[k]) == Some(best.value);
        c := top[k];
        assert Strength[best.value] == c;
        var r := ReplaceJokers(cards).value;
        assert c in rest;
        forall i | 0 <= i < |r|
          ensures r[i] != 'J'
        {
        }
        NonJokersCount(cards, c);
        forall d | d in cards && d != 'J'
          ensures Count(cards, d) <= Count(cards, c)
        {
          NonJokersCount(cards, d);
          assert d in rest;
        }
        forall d | d in cards && d != 'J' && d in Strength && Count(cards, d) == Count(cards, c)
          ensures IndexOf(Strength, d).value <= IndexOf(Strength, c).value
        {
          NonJokersCount(cards, d);
          assert d in rest && d in top;
          var j :| 0 <= j < |top| && top[j] == d;
        }
      }
    }
  }

  /** Without a joker the cards are kept; five jokers become five aces. */
  lemma ReplaceJokersFixed(cards: string)
    ensures Count(cards, 'J') == 0 ==> ReplaceJokers(cards) == Some(cards)
    ensures Count(cards, 'J') == 5 ==> ReplaceJokers(cards) == Some("AAAAA")
    ensures |cards| == 5 && ReplaceJokers(cards).Some? ==>
      |ReplaceJokers(cards).value| == 5 && 'J' !in ReplaceJokers(cards).value
  {
    if |cards| == 5 && ReplaceJokers(cards).Some? && 0 < Count(cards, 'J') != 5 {
      var c := ReplaceJokersChoice(cards);
    }
  }

  /** `Hand`: the type of the best hand, the original cards and the best
      hand itself. */
  datatype Hand = Hand(handtype: HandType, cards: string, bestHand: string)

  /** `Hand::new`: classify the cards with the jokers replaced, keep the
      original cards. */
  function NewHand(cards: string): Option<Hand>
  {
    match ReplaceJokers(cards)
    case None => None
    case Some(best) => Some(Hand(Classify(best), cards, best))
  }

  /** A hand is built exactly when its jokers can be replaced; it keeps the
      original cards, and a five-card best hand gets the type its shape
      gives. */
  lemma NewHandMeaning(cards: string)
    ensures NewHand(cards).Some? <==> ReplaceJokers(cards).Some?
    ensures NewHand(cards).Some? ==>
      NewHand(cards).value.cards == cards && NewHand(cards).value.bestHand == ReplaceJokers(cards).value
    ensures NewHand(cards).Some? && |NewHand(cards).value.bestHand| == 5 ==>
      NewHand(cards).value.handtype == FiveCardType(|Distinct(NewHand(cards).value.bestHand)|, Max(Counts(NewHand(cards).value.bestHand)))
  {
    if NewHand(cards).Some? && |NewHand(cards).value.bestHand| == 5 {
      ClassifyFiveCards(NewHand(cards).value.bestHand);
    }
  }

  /** `Ord for Hand`: the type of the best hand, then the original cards;
      `None` is the panic on a card outside `Strength`. */
  function Cmp(a: Hand, b: Hand): Option<Ordering>
  {
    CompareHands(Strength, a.handtype, a.cards, b.handtype, b.cards)
  }

  /** A joker is the weakest card when types tie: where two hands of the
      same type first differ, a joker loses to any other card. */
  lemma JokerLosesTie(a: Hand, b: Hand, i: nat)
    requires a.handtype == b.handtype
    requires Valid(Strength, a.cards) && Valid(Strength, b.cards)
    requires i < |a.cards| && i < |b.cards| && a.cards[..i] == b.cards[..i]
    requires a.cards[i] == 'J' && b.cards[i] != 'J'
    ensures Cmp(a, b) == Some(Less)
  {
    KeyPrefix(Strength, a.cards, b.cards, i);
    var ka, kb := Key(Strength, a.cards), Key(Strength, b.cards);
    assert ka[i] == 0;
    CompareSeqFirstDifference(ka, kb, i);
  }

  /** Hands that agree on their first `i` cards agree on their first `i`
      strength indices. */
  lemma KeyPrefix(strength: string, c1: string, c2: string, i: nat)
    requires i <= |c1| && i <= |c2| && c1[..i] == c2[..i]
    ensures Key(strength, c1)[..i] == Key(strength, c2)[..i]
  {
    var k1, k2 := Key(strength, c1), Key(strength, c2);
    forall k | 0 <= k < i
      ensures k1[k] == k2[k]
    {
      assert c1[k] == c1[..i][k];
      assert c2[k] == c2[..i][k];
    }
  }

  /** On hands of valid cards `cmp` is a total order on the cards. */
  lemma CmpTotalOrder(a: Hand, b: Hand, c: Hand)
    requires Valid(Strength, a.cards) && Valid(Strength, b.cards) && Valid(Strength, c.cards)
    ensures Cmp(a, b).Some?
    ensures Cmp(b, a) == Some(Flip(Cmp(a, b).value))
    ensures Cmp(a, b) == Some(Equal) <==> a.handtype == b.handtype && a.cards == b.cards
    ensures Cmp(a, b) == Some(Less) && Cmp(b, c) == Some(Less) ==> Cmp(a, c) == Some(Less)
  {
    CompareHandsFlip(Strength, a.handtype, a.cards, b.handtype, b.cards);
    CompareHandsEqual(Strength, a.handtype, a.cards, b.handtype, b.cards);
    if Cmp(a, b) == Some(Less) && Cmp(b, c) == Some(Less) {
      CompareHandsTransitive(Strength, a.handtype, a.cards, b.handtype, b.cards, c.handtype, c.cards);
    }
  }

  /** The `(Hand, bid)` pairs of `main`, flattened into entries; `None` when
      some hand's jokers cannot be replaced. */
  function Entries(hands: seq<(string, nat)>): Option<seq<Entry>>
  {
    if |hands| == 0 then Some([])
    else match (NewHand(hands[0].0), Entries(hands[1..]))
      case (Some(h), Some(rest)) => Some([Entry(h.handtype, h.cards, hands[0].1)] + rest)
      case _ => None
  }

  /** The entries exist exactly when every hand can be built, and then the
      `k`-th entry holds the `k`-th hand's cards, bid and joker-aware type. */
  lemma {:induction false} EntriesMeaning(hands: seq<(string, nat)>)
    ensures Entries(hands).Some? <==> forall k :: 0 <= k < |hands| ==> NewHand(hands[k].0).Some?
    ensures Entries(hands).Some? ==> |Entries(hands).value| == |hands|
    ensures Entries(hands).Some? ==> forall k :: 0 <= k < |hands| ==>
      Entries(hands).value[k] == Entry(NewHand(hands[k].0).value.handtype, hands[k].0, hands[k].1)
  {
    if |hands| > 0 {
      EntriesMeaning(hands[1..]);
      assert forall k :: 1 <= k < |hands| ==> hands[k] == hands[1..][k - 1];
      if Entries(hands).Some? {
        NewHandMeaning(hands[0].0);
      }
    }
  }

  /** Part 2 of `main`: build the hands, `hands.sort()`, and sum each bid
      times its rank. `ranked` is the sorted list, which
      `Hands.SortedUnique` shows is the only one. */
  method Part2(hands: seq<(string, nat)>) returns (total: Option<nat>, ranked: seq<Entry>)
    ensures total.None? <==>
      (exists k :: 0 <= k < |hands| && NewHand(hands[k].0).None?)
      || (|hands| >= 2 && exists k :: 0 <= k < |hands| && !Valid(Strength, hands[k].0))
    ensures total.Some? ==> Entries(hands).Some? && multiset(ranked) == multiset(Entries(hands).value)
    ensures total.Some? ==> Sorting.Sorted(ranked, (a, b) => EntryLe(Strength, a, b))
    ensures total.Some? ==> total.value == Winnings(ranked)
    ensures total.Some? && |hands| >= 2 && Entries(hands).Some? && DistinctHands(Entries(hands).value) ==>
      total.value == WinningsByBeaten(Strength, Entries(hands).value, Entries(hands).value)
    ensures |hands| == 0 ==> total == Some(0)
  {
    var entries := Entries(hands);
    EntriesMeaning(hands);
    if entries.None? {
      return None, [];
    }
    EntriesValid(hands);
    total, ranked := TotalWinnings(Strength, entries.value);
    if |hands| == 0 {
      assert |ranked| == |multiset(ranked)| == 0;
    }
  }

  /** The built entries, one per hand, hold valid cards exactly when every
      hand does. */
  lemma EntriesValid(hands: seq<(string, nat)>)
    requires Entries(hands).Some?
    ensures |Entries(hands).value| == |hands|
    ensures !AllValid(Strength, Entries(hands).value) <==> exists k :: 0 <= k < |hands| && !Valid(Strength, hands[k].0)
  {
    EntriesCards(hands);
    CardsValid(Strength, Entries(hands).value, hands);
  }

  /** Entries built from hands hold valid cards exactly when the hands'
      cards are. */
  lemma CardsValid(strength: string, es: seq<Entry>, hands: seq<(string, nat)>)
    requires |es| == |hands| && forall k :: 0 <= k < |hands| ==> es[k].cards == hands[k].0
    ensures AllValid(strength, es) <==> forall k :: 0 <= k < |hands| ==> Valid(strength, hands[k].0)
  {
    if !forall k :: 0 <= k < |hands| ==> Valid(strength, hands[k].0) {
      var k :| 0 <= k < |hands| && !Valid(strength, hands[k].0);
      assert es[k] in es;
    }
  }

  /** The `k`-th built entry holds the `k`-th hand's cards. */
  lemma {:induction false} EntriesCards(hands: seq<(string, nat)>)
    requires Entries(hands).Some?
    ensures |Entries(hands).value| == |hands|
    ensures forall k :: 0 <= k < |hands| ==> Entries(hands).value[k].cards == hands[k].0
  {
    if |hands| > 0 {
      EntriesCards(hands[1..]);
      assert forall k :: 1 <= k < |hands| ==> hands[k] == hands[1..][k - 1];
    }
  }
}
