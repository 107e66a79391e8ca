/** What the two Camel Cards solutions share (day7/src/main.rs and
    2023/day7/src/main.rs): the hand types and their order, classification
    by counts of counts, the card-strength comparison, and the rank-times-bid
    total over the sorted hands. The two files differ only in the strength
    string and in joker replacement, which their own modules add. */
module Hands {
  import opened Text
  import Sorting

  /** `HandType`, declared from weakest to strongest. */
  datatype HandType = HighCard | OnePair | TwoPair | ThreeOfAKind | FullHouse | FourOfAKind | FiveOfAKind

  /** The explicit discriminant, which the derived `Ord` compares. */
  function Rank(t: HandType): (r: nat)
    ensures r <= 6
  {
    match t
    case HighCard => 0
    case OnePair => 1
    case TwoPair => 2
    case ThreeOfAKind => 3
    case FullHouse => 4
    case FourOfAKind => 5
    case FiveOfAKind => 6
  }

  /** Different hand types have different discriminants, so comparing them
      is a strict order on types. */
  lemma RankInjective(a: HandType, b: HandType)
    requires Rank(a) == Rank(b)
    ensures a == b
  {
  }

  /** How often `c` occurs in `s`. */
  function Count(s: string, c: char): (n: nat)
    ensures n <= |s|
    ensures n > 0 <==> c in s
  {
    if |s| == 0 then 0
    else Count(s[..|s| - 1], c) + (if s[|s| - 1] == c then 1 else 0)
  }

  /** The distinct cards of `s` in order of first occurrence: the keys of
      the `Counter` built from `s`. */
  function Distinct(s: string): (d: seq<char>)
    ensures forall c :: c in d <==> c in s
    ensures forall i, j :: 0 <= i < j < |d| ==> d[i] != d[j]
  {
    if |s| == 0 then []
    else
      var d := Distinct(s[..|s| - 1]);
      assert forall c :: c in s <==> c in s[..|s| - 1] || c == s[|s| - 1];
      if s[|s| - 1] in d then d else d + [s[|s| - 1]]
  }

  /** The count of each card of `d` in `s`. */
  function CountsOf(d: seq<char>, s: string): (cs: seq<nat>)
    ensures |cs| == |d|
    ensures forall k :: 0 <= k < |d| ==> cs[k] == Count(s, d[k])
  {
    if |d| == 0 then [] else [Count(s, d[0])] + CountsOf(d[1..], s)
  }

  /** `char_counts.values()`: one count per distinct card. */
  function Counts(s: string): seq<nat>
  {
    CountsOf(Distinct(s), s)
  }

  /** `count_counts.get(&n)`, with 0 standing for `None`: how many of the
      counts equal `n`. */
  function Tally(cs: seq<nat>, n: nat): (t: nat)
    ensures t <= |cs|
  {
    if |cs| == 0 then 0 else Tally(cs[1..], n) + (if cs[0] == n then 1 else 0)
  }

  /** The `match` of `Hand::new`, arm by arm in the source's order: a pair
      together with a triple is tried first, then five, four and three of a
      kind, then exactly two pairs and exactly one pair. */
  function ClassifyCounts(cs: seq<nat>): HandType
  {
    var n2, n3, n4, n5 := Tally(cs, 2), Tally(cs, 3), Tally(cs, 4), Tally(cs, 5);
    if n2 > 0 && n3 > 0 then FullHouse
    else if n5 > 0 then FiveOfAKind
    else if n4 > 0 then FourOfAKind
    else if n3 > 0 then ThreeOfAKind
    else if n2 == 2 then TwoPair
    else if n2 == 1 then OnePair
    else HighCard
  }

  function Classify(s: string): HandType
  {
    ClassifyCounts(Counts(s))
  }

  function Sum(cs: seq<nat>): nat
  {
    if |cs| == 0 then 0 else cs[0] + Sum(cs[1..])
  }

  function Max(cs: seq<nat>): nat
  {
    if |cs| == 0 then 0 else var m := Max(cs[1..]); if cs[0] > m then cs[0] else m
  }

  lemma {:induction false} CountSnoc(s: string, c: char, x: char)
    ensures Count(s + [c], x) == Count(s, x) + (if x == c then 1 else 0)
  {
    assert (s + [c])[..|s|] == s;
  }

  lemma {:induction false} SumCountsSnoc(d: seq<char>, s: string, c: char)
    requires forall i, j :: 0 <= i < j < |d| ==> d[i] != d[j]
    ensures Sum(CountsOf(d, s + [c])) == Sum(CountsOf(d, s)) + (if c in d then 1 else 0)
  {
    if |d| > 0 {
      SumCountsSnoc(d[1..], s, c);
      CountSnoc(s, c, d[0]);
      assert c in d <==> c == d[0] || c in d[1..];
    }
  }

  lemma {:induction false} SumCountsAppend(d: seq<char>, c: char, s: string)
    ensures Sum(CountsOf(d + [c], s)) == Sum(CountsOf(d, s)) + Count(s, c)
  {
    if |d| > 0 {
      assert (d + [c])[1..] == d[1..] + [c];
      SumCountsAppend(d[1..], c, s);
    }
  }

  /** The counts are positive and add up to the number of cards. */
  lemma {:induction false} CountsSum(s: string)
    ensures Sum(Counts(s)) == |s|
    ensures forall k :: 0 <= k < |Counts(s)| ==> Counts(s)[k] >= 1
  {
    if |s| > 0 {
      var init, c := s[..|s| - 1], s[|s| - 1];
      assert s == init + [c];
      CountsSum(init);
      var d := Distinct(init);
      SumCountsSnoc(d, init, c);
      if c !in d {
        SumCountsAppend(d, c, s);
        CountSnoc(init, c, c);
      }
    }
  }

  /** The type of a five-card hand by the usual definition: the number of
      different cards and the size of the largest group. */
  function FiveCardType(distinct: nat, top: nat): HandType
  {
    if distinct == 1 then FiveOfAKind
    else if distinct == 2 then (if top == 4 then FourOfAKind else FullHouse)
    else if distinct == 3 then (if top == 3 then ThreeOfAKind else TwoPair)
    else if distinct == 4 then OnePair
    else HighCard
  }

  lemma SumAtLeastLength(cs: seq<nat>)
    requires forall k :: 0 <= k < |cs| ==> cs[k] >= 1
    ensures Sum(cs) >= |cs|
  {
  }

  lemma {:induction false} SumIsLength(cs: seq<nat>)
    requires forall k :: 0 <= k < |cs| ==> cs[k] >= 1
    requires Sum(cs) == |cs|
    ensures forall k :: 0 <= k < |cs| ==> cs[k] == 1
  {
    if |cs| > 0 {
      SumAtLeastLength(cs[1..]);
      SumIsLength(cs[1..]);
      assert forall k :: 1 <= k < |cs| ==> cs[k] == cs[1..][k - 1];
    }
  }

  /** Four positive counts adding up to 5: one of them is 2. */
  lemma FourCounts(cs: seq<nat>)
    requires |cs| == 4 && forall k :: 0 <= k < |cs| ==> cs[k] >= 1
    requires Sum(cs) == 5
    ensures cs == [2, 1, 1, 1] || cs == [1, 2, 1, 1] || cs == [1, 1, 2, 1] || cs == [1, 1, 1, 2]
  {
    var t1 := cs[1..];
    var t2 := t1[1..];
    var t3 := t2[1..];
    assert t3 == [cs[3]] && t3[1..] == [];
    assert Sum(t3) == cs[3];
    assert Sum(t2) == cs[2] + cs[3];
    assert Sum(t1) == cs[1] + cs[2] + cs[3];
    assert cs == [cs[0], cs[1], cs[2], cs[3]];
  }

  /** Three positive counts adding up to 5: a triple or two pairs. */
  lemma ThreeCounts(cs: seq<nat>)
    requires |cs| == 3 && forall k :: 0 <= k < |cs| ==> cs[k] >= 1
    requires Sum(cs) == 5
    ensures cs == [3, 1, 1] || cs == [1, 3, 1] || cs == [1, 1, 3]
         || cs == [1, 2, 2] || cs == [2, 1, 2] || cs == [2, 2, 1]
  {
    var t1 := cs[1..];
    var t2 := t1[1..];
    assert t2 == [cs[2]] && t2[1..] == [];
    assert Sum(t2) == cs[2];
    assert Sum(t1) == cs[1] + cs[2];
    assert cs == [cs[0], cs[1], cs[2]];
  }

  /** Two positive counts adding up to 5. */
  lemma TwoCounts(cs: seq<nat>)
    requires |cs| == 2 && forall k :: 0 <= k < |cs| ==> cs[k] >= 1
    requires Sum(cs) == 5
    ensures cs == [4, 1] || cs == [1, 4] || cs == [3, 2] || cs == [2, 3]
  {
    assert cs[1..] == [cs[1]] && cs[1..][1..] == [];
    assert Sum(cs[1..]) == cs[1];
    assert cs == [cs[0], cs[1]];
  }

  /** The `match` on the count shapes of five cards with two groups. */
  lemma ShapesOfTwo()
    ensures ClassifyCounts([4, 1]) == FiveCardType(2, Max([4, 1]))
    ensures ClassifyCounts([1, 4]) == FiveCardType(2, Max([1, 4]))
    ensures ClassifyCounts([3, 2]) == FiveCardType(2, Max([3, 2]))
    ensures ClassifyCounts([2, 3]) == FiveCardType(2, Max([2, 3]))
  {
  }

  /** The `match` on the count shapes of five cards with three groups. */
  lemma ShapesOfThree()
    ensures ClassifyCounts([3, 1, 1]) == FiveCardType(3, Max([3, 1, 1]))
    ensures ClassifyCounts([1, 3, 1]) == FiveCardType(3, Max([1, 3, 1]))
    ensures ClassifyCounts([1, 1, 3]) == FiveCardType(3, Max([1, 1, 3]))
    ensures ClassifyCounts([1, 2, 2]) == FiveCardType(3, Max([1, 2, 2]))
    ensures ClassifyCounts([2, 1, 2]) == FiveCardType(3, Max([2, 1, 2]))
    ensures ClassifyCounts([2, 2, 1]) == FiveCardType(3, Max([2, 2, 1]))
  {
  }

  /** The `match` on the count shapes of five cards with four groups. */
  lemma ShapesOfFour()
    ensures ClassifyCounts([2, 1, 1, 1]) == FiveCardType(4, Max([2, 1, 1, 1]))
    ensures ClassifyCounts([1, 2, 1, 1]) == FiveCardType(4, Max([1, 2, 1, 1]))
    ensures ClassifyCounts([1, 1, 2, 1]) == FiveCardType(4, Max([1, 1, 2, 1]))
    ensures ClassifyCounts([1, 1, 1, 2]) == FiveCardType(4, Max([1, 1, 1, 2]))
  {
  }

  /** The `match` on five of a kind and on five different cards. */
  lemma ShapesOfOneAndFive()
    ensures ClassifyCounts([5]) == FiveCardType(1, Max([5]))
    ensures ClassifyCounts([1, 1, 1, 1, 1]) == FiveCardType(5, Max([1, 1, 1, 1, 1]))
  {
  }

  /** Over every way of writing 5 as a sum of positive counts, the `match`
      gives the usual hand type. */
  lemma PartitionsOfFive(cs: seq<nat>)
    requires forall k :: 0 <= k < |cs| ==> cs[k] >= 1
    requires Sum(cs) == 5
    ensures ClassifyCounts(cs) == FiveCardType(|cs|, Max(cs))
  {
    SumAtLeastLength(cs);
    if |cs| == 2 {
      TwoCounts(cs);
      ShapesOfTwo();
    } else if |cs| == 3 {
      ThreeCounts(cs);
      ShapesOfThree();
    } else if |cs| == 4 {
      FourCounts(cs);
      ShapesOfFour();
    } else {
      OneOrFiveCounts(cs);
      ShapesOfOneAndFive();
    }
  }

  /** One count adding up to 5 is 5; five positive counts are all 1. */
  lemma OneOrFiveCounts(cs: seq<nat>)
    requires forall k :: 0 <= k < |cs| ==> cs[k] >= 1
    requires Sum(cs) == 5 && |cs| != 2 && |cs| != 3 && |cs| != 4
    ensures cs == [5] || cs == [1, 1, 1, 1, 1]
  {
    SumAtLeastLength(cs);
    if |cs| == 1 {
      assert cs == [5];
    } else {
      SumIsLength(cs);
      assert cs == [1, 1, 1, 1, 1];
    }
  }

  /** For five-card hands the `match` over counts of counts agrees with the
      usual definition of the hand types. */
  lemma ClassifyFiveCards(s: string)
    requires |s| == 5
    ensures Classify(s) == FiveCardType(|Distinct(s)|, Max(Counts(s)))
  {
    CountsSum(s);
    PartitionsOfFive(Counts(s));
  }

  /** `Ordering`. */
  datatype Ordering = Less | Equal | Greater

  function Flip(o: Ordering): Ordering
  {
    match o
    case Less => Greater
    case Equal => Equal
    case Greater => Less
  }

  function CompareNat(a: nat, b: nat): Ordering
  {
    if a < b then Less else if a == b then Equal else Greater
  }

  /** The derived lexicographic order of `Vec<usize>`: the first difference
      decides, and a proper prefix is smaller. */
  function CompareSeq(a: seq<nat>, b: seq<nat>): Ordering
  {
    if |a| == 0 && |b| == 0 then Equal
    else if |a| == 0 then Less
    else if |b| == 0 then Greater
    else if a[0] != b[0] then CompareNat(a[0], b[0])
    else CompareSeq(a[1..], b[1..])
  }

  lemma {:induction false} CompareSeqFlip(a: seq<nat>, b: seq<nat>)
    ensures CompareSeq(b, a) == Flip(CompareSeq(a, b))
  {
    if |a| > 0 && |b| > 0 && a[0] == b[0] {
      CompareSeqFlip(a[1..], b[1..]);
    }
  }

  lemma {:induction false} CompareSeqEqual(a: seq<nat>, b: seq<nat>)
    ensures CompareSeq(a, b) == Equal <==> a == b
  {
    if |a| > 0 && |b| > 0 && a[0] == b[0] {
      CompareSeqEqual(a[1..], b[1..]);
      assert a == [a[0]] + a[1..] && b == [b[0]] + b[1..];
    }
  }

  lemma {:induction false} CompareSeqTransitive(a: seq<nat>, b: seq<nat>, c: seq<nat>)
    requires CompareSeq(a, b) == Less && CompareSeq(b, c) == Less
    ensures CompareSeq(a, c) == Less
  {
    if |a| > 0 && |b| > 0 && |c| > 0 && a[0] == b[0] && b[0] == c[0] {
      CompareSeqTransitive(a[1..], b[1..], c[1..]);
    }
  }

  /** The first difference decides. */
  lemma {:induction false} CompareSeqFirstDifference(a: seq<nat>, b: seq<nat>, i: nat)
    requires i < |a| && i < |b| && a[..i] == b[..i] && a[i] < b[i]
    ensures CompareSeq(a, b) == Less
  {
    if i > 0 {
      assert a[0] == a[..i][0] && b[0] == b[..i][0];
      assert a[1..][..i - 1] == a[..i][1..] && b[1..][..i - 1] == b[..i][1..];
      CompareSeqFirstDifference(a[1..], b[1..], i - 1);
    }
  }

  /** `strength.find(c)`: the index of the first occurrence of `c`. */
  function IndexOf(strength: string, c: char): (r: Option<nat>)
    ensures r.Some? <==> c in strength
    ensures r.Some? ==> r.value < |strength| && strength[r.value] == c
    ensures r.Some? ==> forall k :: 0 <= k < r.value ==> strength[k] != c
  {
    if |strength| == 0 then None
    else if strength[0] == c then Some(0)
    else match IndexOf(strength[1..], c)
      case None => None
      case Some(i) => Some(i + 1)
  }

  /** Every card of the hand is in the strength string; otherwise the
      `expect` in `cmp` panics. */
  predicate Valid(strength: string, cards: string)
  {
    forall k :: 0 <= k < |cards| ==> cards[k] in strength
  }

  /** The strength indices of the cards, the second component of the key
      `cmp` builds. A card missing from the strength string gets
      `|strength|`; `CompareHands` never looks at such a key. */
  function Key(strength: string, cards: string): (key: seq<nat>)
    ensures |key| == |cards|
    ensures forall k :: 0 <= k < |cards| && cards[k] in strength ==>
      key[k] < |strength| && strength[key[k]] == cards[k]
  {
    seq(|cards|, k requires 0 <= k < |cards| =>
      match IndexOf(strength, cards[k]) case Some(i) => i case None => |strength|)
  }

  /** The key tuple order of `cmp` on two valid hands. */
  function CompareKeys(strength: string, t1: HandType, c1: string, t2: HandType, c2: string): Ordering
  {
    if t1 != t2 then CompareNat(Rank(t1), Rank(t2)) else CompareSeq(Key(strength, c1), Key(strength, c2))
  }

  /** `Ord for Hand::cmp`: the hand types first, then the strength indices
      of the cards; `None` is the panic on a card outside `strength`. */
  function CompareHands(strength: string, t1: HandType, c1: string, t2: HandType, c2: string): Option<Ordering>
  {
    if Valid(strength, c1) && Valid(strength, c2) then Some(CompareKeys(strength, t1, c1, t2, c2))
    else None
  }

  /** Equal keys of valid hands come from equal cards. */
  lemma KeyInjective(strength: string, c1: string, c2: string)
    requires Valid(strength, c1) && Valid(strength, c2)
    requires Key(strength, c1) == Key(strength, c2)
    ensures c1 == c2
  {
  }

  /** `cmp(a, b)` is the reverse of `cmp(b, a)`. */
  lemma CompareHandsFlip(strength: string, t1: HandType, c1: string, t2: HandType, c2: string)
    ensures CompareHands(strength, t2, c2, t1, c1).Some? == CompareHands(strength, t1, c1, t2, c2).Some?
    ensures CompareHands(strength, t1, c1, t2, c2).Some? ==>
      CompareHands(strength, t2, c2, t1, c1).value == Flip(CompareHands(strength, t1, c1, t2, c2).value)
  {
    CompareSeqFlip(Key(strength, c1), Key(strength, c2));
  }

  /** `cmp` says `Equal` exactly for the same hand type and the same cards. */
  lemma CompareHandsEqual(strength: string, t1: HandType, c1: string, t2: HandType, c2: string)
    requires Valid(strength, c1) && Valid(strength, c2)
    ensures CompareHands(strength, t1, c1, t2, c2) == Some(Equal) <==> t1 == t2 && c1 == c2
  {
    CompareSeqEqual(Key(strength, c1), Key(strength, c2));
    if Key(strength, c1) == Key(strength, c2) {
      KeyInjective(strength, c1, c2);
    }
  }

  /** `cmp` is transitive. */
  lemma CompareKeysTransitive(strength: string, t1: HandType, c1: string, t2: HandType, c2: string, t3: HandType, c3: string)
    requires CompareKeys(strength, t1, c1, t2, c2) == Less && CompareKeys(strength, t2, c2, t3, c3) == Less
    ensures CompareKeys(strength, t1, c1, t3, c3) == Less
  {
    if t1 == t2 && t2 == t3 {
      CompareSeqTransitive(Key(strength, c1), Key(strength, c2), Key(strength, c3));
    } else if t1 == t3 {
      CompareSeqFlip(Key(strength, c1), Key(strength, c2));
    }
  }

  lemma CompareHandsTransitive(strength: string, t1: HandType, c1: string, t2: HandType, c2: string, t3: HandType, c3: string)
    requires CompareHands(strength, t1, c1, t2, c2) == Some(Less)
    requires CompareHands(strength, t2, c2, t3, c3) == Some(Less)
    ensures CompareHands(strength, t1, c1, t3, c3) == Some(Less)
  {
    CompareKeysTransitive(strength, t1, c1, t2, c2, t3, c3);
  }

  /** A hand of `main`'s list with its bid. */
  datatype Entry = Entry(handtype: HandType, cards: string, bid: nat)

  /** The order `hands.sort()` uses on `(Hand, usize)` tuples: the hands by
      `cmp`, ties broken by the bid. */
  function EntryLe(strength: string, a: Entry, b: Entry): bool
  {
    var o := CompareKeys(strength, a.handtype, a.cards, b.handtype, b.cards);
    o == Less || (o == Equal && a.bid <= b.bid)
  }

  lemma EntryLeTotal(strength: string, a: Entry, b: Entry)
    ensures EntryLe(strength, a, b) || EntryLe(strength, b, a)
  {
    CompareSeqFlip(Key(strength, a.cards), Key(strength, b.cards));
  }

  lemma EntryLeTransitive(strength: string, a: Entry, b: Entry, c: Entry)
    requires EntryLe(strength, a, b) && EntryLe(strength, b, c)
    ensures EntryLe(strength, a, c)
  {
    var ka, kb, kc := Key(strength, a.cards), Key(strength, b.cards), Key(strength, c.cards);
    CompareSeqEqual(ka, kb);
    CompareSeqEqual(kb, kc);
    CompareSeqEqual(ka, kc);
    if CompareKeys(strength, a.handtype, a.cards, b.handtype, b.cards) == Less
      && CompareKeys(strength, b.handtype, b.cards, c.handtype, c.cards) == Less {
      CompareKeysTransitive(strength, a.handtype, a.cards, b.handtype, b.cards, c.handtype, c.cards);
    }
  }

  /** Two entries of valid hands that the tuple order puts each before the
      other are one and the same: the same hand and the same bid. */
  lemma EntryLeAntisymmetric(strength: string, a: Entry, b: Entry)
    requires Valid(strength, a.cards) && Valid(strength, b.cards)
    requires EntryLe(strength, a, b) && EntryLe(strength, b, a)
    ensures a == b
  {
    CompareHandsFlip(strength, a.handtype, a.cards, b.handtype, b.cards);
    CompareHandsEqual(strength, a.handtype, a.cards, b.handtype, b.cards);
    if a.handtype != b.handtype {
      RankInjective(a.handtype, b.handtype);
    }
  }

  /** Two sorted permutations of the same valid entries start alike. */
  lemma SortedFirst(strength: string, s: seq<Entry>, t: seq<Entry>)
    requires multiset(s) == multiset(t) && |s| > 0
    requires AllValid(strength, s)
    requires Sorting.Sorted(s, (a, b) => EntryLe(strength, a, b))
    requires Sorting.Sorted(t, (a, b) => EntryLe(strength, a, b))
    ensures |t| > 0 && s[0] == t[0]
  {
    assert s[0] in multiset(t);
    var j :| 0 <= j < |t| && t[j] == s[0];
    assert t[0] in multiset(s);
    var i :| 0 <= i < |s| && s[i] == t[0];
    if s[0] != t[0] {
      assert EntryLe(strength, t[0], t[j]);
      assert EntryLe(strength, s[0], s[i]);
      assert s[0] in s && s[i] in s;
      EntryLeAntisymmetric(strength, s[0], t[0]);
    }
  }

  lemma SortedTail(strength: string, s: seq<Entry>)
    requires |s| > 0 && Sorting.Sorted(s, (a, b) => EntryLe(strength, a, b))
    ensures Sorting.Sorted(s[1..], (a, b) => EntryLe(strength, a, b))
  {
    forall i, j | 0 <= i < j < |s| - 1
      ensures EntryLe(strength, s[1..][i], s[1..][j])
    {
      assert s[1..][i] == s[i + 1] && s[1..][j] == s[j + 1];
    }
  }

  lemma TailMultiset(s: seq<Entry>, t: seq<Entry>)
    requires |s| > 0 && |t| > 0 && s[0] == t[0] && multiset(s) == multiset(t)
    ensures multiset(s[1..]) == multiset(t[1..])
  {
    assert s == [s[0]] + s[1..] && t == [t[0]] + t[1..];
    assert multiset(s) == multiset{s[0]} + multiset(s[1..]);
    assert multiset(t) == multiset{t[0]} + multiset(t[1..]);
    assert multiset(s[1..]) == multiset(s) - multiset{s[0]};
    assert multiset(t[1..]) == multiset(t) - multiset{t[0]};
  }

  /** `hands.sort()` leaves no choice: two sorted permutations of the same
      valid entries are equal, so the total does not depend on the order of
      the input or on how ties would be broken. */
  lemma {:induction false} SortedUnique(strength: string, s: seq<Entry>, t: seq<Entry>)
    requires multiset(s) == multiset(t)
    requires AllValid(strength, s)
    requires Sorting.Sorted(s, (a, b) => EntryLe(strength, a, b))
    requires Sorting.Sorted(t, (a, b) => EntryLe(strength, a, b))
    ensures s == t
    decreases |s|
  {
    if |s| == 0 {
      assert |t| == |multiset(t)| == 0;
    } else {
      SortedFirst(strength, s, t);
      TailMultiset(s, t);
      SortedTail(strength, s);
      SortedTail(strength, t);
      assert AllValid(strength, s[1..]) by {
        forall e | e in s[1..] ensures e in s { }
      }
      SortedUnique(strength, s[1..], t[1..]);
      assert s == [s[0]] + s[1..] && t == [t[0]] + t[1..];
    }
  }

  /** The rank-times-bid fold over the hands in sorted order: the hand at
      index `k` has rank `k + 1`. */
  function Winnings(ranked: seq<Entry>): nat
  {
    if |ranked| == 0 then 0
    else Winnings(ranked[..|ranked| - 1]) + |ranked| * ranked[|ranked| - 1].bid
  }

  /** The sum of `f` over the entries of `s`. */
  function SumBy(s: seq<Entry>, f: Entry -> nat): nat
  {
    if |s| == 0 then 0 else SumBy(s[..|s| - 1], f) + f(s[|s| - 1])
  }

  lemma {:induction false} SumByAppend(a: seq<Entry>, b: seq<Entry>, f: Entry -> nat)
    ensures SumBy(a + b, f) == SumBy(a, f) + SumBy(b, f)
  {
    if |b| == 0 {
      assert a + b == a;
    } else {
      assert (a + b)[..|a + b| - 1] == a + b[..|b| - 1];
      SumByAppend(a, b[..|b| - 1], f);
    }
  }

  /** A sum over a list does not depend on the order of the list. */
  lemma {:induction false} SumByPermutation(s: seq<Entry>, t: seq<Entry>, f: Entry -> nat)
    requires multiset(s) == multiset(t)
    ensures SumBy(s, f) == SumBy(t, f)
    decreases |s|
  {
    if |s| == 0 {
      assert |multiset(t)| == 0;
    } else {
      var init, x := s[..|s| - 1], s[|s| - 1];
      assert s == init + [x];
      assert multiset(s) == multiset(init) + multiset{x};
      assert x in multiset(t);
      var i :| 0 <= i < |t| && t[i] == x;
      var rest := RemoveAt(t, i);
      RemoveAtMultiset(t, i);
      SumByPermutation(init, rest, f);
      SumByRemove(t, i, f);
    }
  }

  /** The list without its element at index `i`. */
  function RemoveAt(t: seq<Entry>, i: nat): seq<Entry>
    requires i < |t|
  {
    t[..i] + t[i + 1..]
  }

  /** Taking out one element takes one occurrence out of the multiset. */
  lemma RemoveAtMultiset(t: seq<Entry>, i: nat)
    requires i < |t|
    ensures multiset(RemoveAt(t, i)) == multiset(t) - multiset{t[i]}
  {
    assert t == t[..i] + [t[i]] + t[i + 1..];
  }

  /** Taking out one element takes its value out of the sum. */
  lemma SumByRemove(t: seq<Entry>, i: nat, f: Entry -> nat)
    requires i < |t|
    ensures SumBy(t, f) == SumBy(RemoveAt(t, i), f) + f(t[i])
  {
    SplitAt(t, i);
    SumByMiddle(t, t[..i], t[i], t[i + 1..], f);
  }

  lemma SplitAt(t: seq<Entry>, i: nat)
    requires i < |t|
    ensures t == t[..i] + [t[i]] + t[i + 1..]
  {
  }

  lemma SumByMiddle(t: seq<Entry>, front: seq<Entry>, x: Entry, back: seq<Entry>, f: Entry -> nat)
    requires t == front + [x] + back
    ensures SumBy(t, f) == SumBy(front + back, f) + f(x)
  {
    SumByAppend(front + [x], back, f);
    SumByAppend(front, back, f);
    SumByOne(front, x, f);
  }

  lemma SumByOne(s: seq<Entry>, x: Entry, f: Entry -> nat)
    ensures SumBy(s + [x], f) == SumBy(s, f) + f(x)
  {
    assert (s + [x])[..|s|] == s;
  }

  /** Two functions that agree everywhere have the same sums. */
  lemma {:induction false} SumByAgree(s: seq<Entry>, f: Entry -> nat, g: Entry -> nat)
    requires forall x :: x in s ==> f(x) == g(x)
    ensures SumBy(s, f) == SumBy(s, g)
  {
    if |s| > 0 {
      SumByAgree(s[..|s| - 1], f, g);
    }
  }

  /** 1 for an entry that `e` beats, 0 otherwise. */
  function BeatenBy(strength: string, e: Entry): Entry -> nat
  {
    (x: Entry) => if CompareKeys(strength, x.handtype, x.cards, e.handtype, e.cards) == Less then 1 else 0
  }

  /** How many hands of `s` the hand `e` beats. */
  function Beaten(strength: string, s: seq<Entry>, e: Entry): nat
  {
    SumBy(s, BeatenBy(strength, e))
  }

  /** A bid times one more than the number of hands of `all` its hand beats:
      what the bid earns when `all` is ranked. */
  function Earned(strength: string, all: seq<Entry>): Entry -> nat
  {
    (x: Entry) => (Beaten(strength, all, x) + 1) * x.bid
  }

  /** The earnings of the entries of `s`, summed: a total that does not
      depend on where the hands sit in the list. */
  function WinningsByBeaten(strength: string, all: seq<Entry>, s: seq<Entry>): nat
  {
    SumBy(s, Earned(strength, all))
  }

  /** No entry occurs twice and no two entries hold the same cards. */
  ghost predicate DistinctHands(s: seq<Entry>)
  {
    (forall e :: e in multiset(s) ==> multiset(s)[e] == 1)
    && (forall a, b :: a in s && b in s && a.cards == b.cards ==> a == b)
  }

  ghost predicate AllValid(strength: string, s: seq<Entry>)
  {
    forall e :: e in s ==> Valid(strength, e.cards)
  }

  /** Entries hold valid cards exactly when the cards they were built
      from are valid. */
  lemma AllValidCards(strength: string, entries: seq<Entry>, cards: seq<string>)
    requires |entries| == |cards| && forall k :: 0 <= k < |cards| ==> entries[k].cards == cards[k]
    ensures AllValid(strength, entries) <==> forall k :: 0 <= k < |cards| ==> Valid(strength, cards[k])
  {
    if forall k :: 0 <= k < |cards| ==> Valid(strength, cards[k]) {
      forall e | e in entries
        ensures Valid(strength, e.cards)
      {
        var k :| 0 <= k < |entries| && entries[k] == e;
      }
    } else {
      var k :| 0 <= k < |cards| && !Valid(strength, cards[k]);
      assert entries[k] in entries;
    }
  }

  /** Two positions of a list with distinct hands hold different cards. */
  lemma DistinctPositions(s: seq<Entry>, i: nat, j: nat)
    requires DistinctHands(s) && i < j < |s|
    ensures s[i].cards != s[j].cards
  {
    assert s == s[..j] + s[j..];
    assert s[i] in s[..j] && s[j] in s[j..];
    assert multiset(s)[s[j]] == multiset(s[..j])[s[j]] + multiset(s[j..])[s[j]];
  }

  lemma {:induction false} BeatenAll(strength: string, s: seq<Entry>, e: Entry)
    requires forall k :: 0 <= k < |s| ==> CompareKeys(strength, s[k].handtype, s[k].cards, e.handtype, e.cards) == Less
    ensures Beaten(strength, s, e) == |s|
  {
    if |s| > 0 {
      BeatenAll(strength, s[..|s| - 1], e);
    }
  }

  lemma {:induction false} BeatenNone(strength: string, s: seq<Entry>, e: Entry)
    requires forall k :: 0 <= k < |s| ==> CompareKeys(strength, s[k].handtype, s[k].cards, e.handtype, e.cards) != Less
    ensures Beaten(strength, s, e) == 0
  {
    if |s| > 0 {
      BeatenNone(strength, s[..|s| - 1], e);
    }
  }

  /** In a sorted list of valid hands with different cards, every hand
      before index `k` loses to the hand at `k`. */
  lemma EarlierLose(strength: string, ranked: seq<Entry>, k: nat)
    requires Sorting.Sorted(ranked, (a, b) => EntryLe(strength, a, b))
    requires AllValid(strength, ranked) && DistinctHands(ranked)
    requires k < |ranked|
    ensures forall j :: 0 <= j < k ==>
      CompareKeys(strength, ranked[..k][j].handtype, ranked[..k][j].cards, ranked[k].handtype, ranked[k].cards) == Less
  {
    var e := ranked[k];
    forall j | 0 <= j < k
      ensures CompareKeys(strength, ranked[j].handtype, ranked[j].cards, e.handtype, e.cards) == Less
    {
      assert EntryLe(strength, ranked[j], e);
      DistinctPositions(ranked, j, k);
      assert ranked[j] in ranked && e in ranked;
      CompareHandsEqual(strength, ranked[j].handtype, ranked[j].cards, e.handtype, e.cards);
    }
  }

  /** In a sorted list, no hand from index `k` on loses to the hand at `k`. */
  lemma LaterDoNotLose(strength: string, ranked: seq<Entry>, k: nat)
    requires Sorting.Sorted(ranked, (a, b) => EntryLe(strength, a, b))
    requires k < |ranked|
    ensures forall j :: 0 <= j < |ranked[k..]| ==>
      CompareKeys(strength, ranked[k..][j].handtype, ranked[k..][j].cards, ranked[k].handtype, ranked[k].cards) != Less
  {
    var e := ranked[k];
    forall j | 0 <= j < |ranked[k..]|
      ensures CompareKeys(strength, ranked[k..][j].handtype, ranked[k..][j].cards, e.handtype, e.cards) != Less
    {
      assert ranked[k..][j] == ranked[k + j];
      if j > 0 {
        assert EntryLe(strength, e, ranked[k + j]);
        CompareSeqFlip(Key(strength, e.cards), Key(strength, ranked[k + j].cards));
      } else {
        CompareSeqEqual(Key(strength, e.cards), Key(strength, e.cards));
      }
    }
  }

  /** In a sorted list of valid hands with different cards, the hand at
      index `k` beats exactly the `k` hands before it. */
  lemma RankIsBeaten(strength: string, ranked: seq<Entry>, k: nat)
    requires Sorting.Sorted(ranked, (a, b) => EntryLe(strength, a, b))
    requires AllValid(strength, ranked) && DistinctHands(ranked)
    requires k < |ranked|
    ensures Beaten(strength, ranked, ranked[k]) == k
  {
    var e := ranked[k];
    EarlierLose(strength, ranked, k);
    BeatenAll(strength, ranked[..k], e);
    LaterDoNotLose(strength, ranked, k);
    BeatenNone(strength, ranked[k..], e);
    assert ranked == ranked[..k] + ranked[k..];
    SumByAppend(ranked[..k], ranked[k..], BeatenBy(strength, e));
  }

  /** The rank-times-bid total of a sorted list of valid hands with
      different cards is the sum of each bid times one more than the number
      of hands that bid's hand beats. */
  lemma {:induction false} WinningsCountBeaten(strength: string, ranked: seq<Entry>, n: nat)
    requires Sorting.Sorted(ranked, (a, b) => EntryLe(strength, a, b))
    requires AllValid(strength, ranked) && DistinctHands(ranked)
    requires n <= |ranked|
    ensures Winnings(ranked[..n]) == WinningsByBeaten(strength, ranked, ranked[..n])
  {
    if n > 0 {
      WinningsCountBeaten(strength, ranked, n - 1);
      var e := ranked[n - 1];
      assert ranked[..n][..n - 1] == ranked[..n - 1] && ranked[..n][n - 1] == e;
      RankIsBeaten(strength, ranked, n - 1);
      assert Earned(strength, ranked)(e) == n * e.bid;
      assert Winnings(ranked[..n]) == Winnings(ranked[..n - 1]) + n * e.bid;
      assert SumBy(ranked[..n], Earned(strength, ranked))
          == SumBy(ranked[..n - 1], Earned(strength, ranked)) + Earned(strength, ranked)(e);
    }
  }

  /** A reordering keeps the hands valid and distinct. */
  lemma PermutedDistinct(strength: string, entries: seq<Entry>, ranked: seq<Entry>)
    requires multiset(ranked) == multiset(entries)
    requires AllValid(strength, entries) && DistinctHands(entries)
    ensures AllValid(strength, ranked) && DistinctHands(ranked)
  {
    forall e | e in ranked
      ensures e in entries
    {
      assert e in multiset(ranked);
    }
    forall a, b | a in ranked && b in ranked && a.cards == b.cards
      ensures a == b
    {
      assert a in multiset(ranked) && b in multiset(ranked);
    }
  }

  /** What a bid earns does not depend on the order of the other hands. */
  lemma EarnedPermutation(strength: string, s: seq<Entry>, t: seq<Entry>, x: Entry)
    requires multiset(s) == multiset(t)
    ensures Earned(strength, s)(x) == Earned(strength, t)(x)
  {
    SumByPermutation(s, t, BeatenBy(strength, x));
  }

  /** However the hands were listed, the rank-times-bid total of their sorted
      order is the same: each bid times one more than the number of hands its
      hand beats. */
  lemma WinningsOrderFree(strength: string, entries: seq<Entry>, ranked: seq<Entry>)
    requires multiset(ranked) == multiset(entries)
    requires Sorting.Sorted(ranked, (a, b) => EntryLe(strength, a, b))
    requires AllValid(strength, entries) && DistinctHands(entries)
    ensures Winnings(ranked) == WinningsByBeaten(strength, entries, entries)
  {
    PermutedDistinct(strength, entries, ranked);
    WinningsCountBeaten(strength, ranked, |ranked|);
    assert ranked[..|ranked|] == ranked;
    forall x
      ensures Earned(strength, ranked)(x) == Earned(strength, entries)(x)
    {
      EarnedPermutation(strength, ranked, entries, x);
    }
    SumByAgree(ranked, Earned(strength, ranked), Earned(strength, entries));
    SumByPermutation(ranked, entries, Earned(strength, entries));
  }

  /** `hands.sort()` followed by the fold. Sorting compares every hand once
      there are two or more, so a card outside `strength` then panics. */
  method TotalWinnings(strength: string, entries: seq<Entry>) returns (total: Option<nat>, ranked: seq<Entry>)
    ensures total.None? <==> |entries| >= 2 && !AllValid(strength, entries)
    ensures total.Some? ==> multiset(ranked) == multiset(entries)
    ensures total.Some? ==> Sorting.Sorted(ranked, (a, b) => EntryLe(strength, a, b))
    ensures total.Some? ==> total.value == Winnings(ranked)
    ensures total.Some? && |entries| >= 2 && DistinctHands(entries) ==>
      total.value == WinningsByBeaten(strength, entries, entries)
  {
    if |entries| >= 2 && !(forall k :: 0 <= k < |entries| ==> Valid(strength, entries[k].cards)) {
      return None, entries;
    }
    var a := new Entry[|entries|](k requires 0 <= k < |entries| => entries[k]);
    assert a[..] == entries;
    var le := (x, y) => EntryLe(strength, x, y);
    forall x, y
      ensures le(x, y) || le(y, x)
    {
      EntryLeTotal(strength, x, y);
    }
    forall x, y, z | le(x, y) && le(y, z)
      ensures le(x, z)
    {
      EntryLeTransitive(strength, x, y, z);
    }
    Sorting.SortWith(a, le);
    ranked := a[..];
    total := Some(Winnings(ranked));
    if |entries| >= 2 && DistinctHands(entries) {
      WinningsOrderFree(strength, entries, ranked);
    }
  }
}
