/** Camel Cards, part 1 (day7/src/main.rs): hands are classified by the
    counts of their cards and ordered by type, then card by card by the
    strength string `"23456789TJQKA"`; the hands, sorted, are paid their
    bid times their rank. */
module CamelCards {
  import opened Text
  import opened Hands
  import Sorting

  const Strength: string := "23456789TJQKA"

  /** `Hand`: its type and its cards. */
  datatype Hand = Hand(handtype: HandType, cards: string)

  /** `Hand::new`: the type comes from the counts of the cards. */
  function NewHand(s: string): Hand
  {
    Hand(Classify(s), s)
  }

  /** A five-card hand gets the type its number of different cards and its
      largest group give: a triple with a pair is a full house, never three
      of a kind. */
  lemma NewHandType(s: string)
    requires |s| == 5
    ensures NewHand(s).cards == s
    ensures NewHand(s).handtype == FiveCardType(|Distinct(s)|, Max(Counts(s)))
  {
    ClassifyFiveCards(s);
  }

  /** `Ord for Hand`; `None` is the panic on a card outside `Strength`. */
  function Cmp(a: Hand, b: Hand): Option<Ordering>
  {
    CompareHands(Strength, a.handtype, a.cards, b.handtype, b.cards)
  }

  /** On hands made of valid cards `cmp` is a total order: it answers,
      swapping the hands reverses the answer, `Less` is transitive, and
      `Equal` means the same cards. */
  lemma CmpTotalOrder(s1: string, s2: string, s3: string)
    requires Valid(Strength, s1) && Valid(Strength, s2) && Valid(Strength, s3)
    ensures Cmp(NewHand(s1), NewHand(s2)).Some?
    ensures Cmp(NewHand(s2), NewHand(s1)) == Some(Flip(Cmp(NewHand(s1), NewHand(s2)).value))
    ensures Cmp(NewHand(s1), NewHand(s2)) == Some(Equal) <==> s1 == s2
    ensures Cmp(NewHand(s1), NewHand(s2)) == Some(Less) && Cmp(NewHand(s2), NewHand(s3)) == Some(Less)
      ==> Cmp(NewHand(s1), NewHand(s3)) == Some(Less)
  {
    var h1, h2, h3 := NewHand(s1), NewHand(s2), NewHand(s3);
    CompareHandsFlip(Strength, h1.handtype, s1, h2.handtype, s2);
    CompareHandsEqual(Strength, h1.handtype, s1, h2.handtype, s2);
    if Cmp(h1, h2) == Some(Less) && Cmp(h2, h3) == Some(Less) {
      CompareHandsTransitive(Strength, h1.handtype, s1, h2.handtype, s2, h3.handtype, s3);
    }
  }

  /** A card outside `Strength` on either side makes `cmp` panic. */
  lemma CmpPanics(s1: string, s2: string)
    ensures Cmp(NewHand(s1), NewHand(s2)).None? <==> exists c :: (c in s1 || c in s2) && c !in Strength
  {
    if !Valid(Strength, s1) {
      var k :| 0 <= k < |s1| && s1[k] !in Strength;
      assert s1[k] in s1;
    } else if !Valid(Strength, s2) {
      var k :| 0 <= k < |s2| && s2[k] !in Strength;
      assert s2[k] in s2;
    }
  }

  /** The `(Hand, bid)` pairs of `main`, flattened into entries. */
  function Entries(hands: seq<(string, nat)>): (entries: seq<Entry>)
    ensures |entries| == |hands|
    ensures forall k :: 0 <= k < |hands| ==>
      entries[k].cards == hands[k].0 && entries[k].bid == hands[k].1 && entries[k].handtype == NewHand(hands[k].0).handtype
  {
    seq(|hands|, k requires 0 <= k < |hands| => var h := NewHand(hands[k].0); Entry(h.handtype, h.cards, hands[k].1))
  }

  /** Part 1 of `main`: pair each hand with its bid, `hands.sort()`, and
      sum each bid times its rank. `ranked` is the sorted list, which
      `Hands.SortedUnique` shows is the only one. With distinct hands the
      total is each bid times one more than the number of hands its hand
      beats, whatever the order of the input. */
  method Part1(hands: seq<(string, nat)>) returns (total: Option<nat>, ranked: seq<Entry>)
    ensures total.None? <==> |hands| >= 2 && exists k :: 0 <= k < |hands| && !Valid(Strength, hands[k].0)
    ensures total.Some? ==> multiset(ranked) == multiset(Entries(hands))
    ensures total.Some? ==> Sorting.Sorted(ranked, (a, b) => EntryLe(Strength, a, b))
    ensures total.Some? ==> total.value == Winnings(ranked)
    ensures total.Some? && |hands| >= 2 && DistinctHands(Entries(hands)) ==>
      total.value == WinningsByBeaten(Strength, Entries(hands), Entries(hands))
  {
    var entries := Entries(hands);
    total, ranked := TotalWinnings(Strength, entries);
    AllValidCards(Strength, entries, seq(|hands|, k requires 0 <= k < |hands| => hands[k].0));
  }
}
