/** Cube Conundrum (2023/day2/src/main.rs): a game line such as
    `"Game 3: 8 green, 6 blue, 20 red; 5 blue, 4 red"` is parsed into the
    rounds of cubes shown; games are checked against a bag, reduced to the
    fewest cubes that make them possible, and scored by the product of those
    counts. Counts are unbounded integers; `i32` overflow is not modelled. */
module CubeGame {
  import opened Text

  /** `CubeNums`: how many cubes of each colour. */
  datatype CubeNums = CubeNums(red: int, green: int, blue: int)

  datatype Game = Game(num: int, rounds: seq<CubeNums>)

  /** A mention `"n colour"` that `parse_round` accepts: a number, then one
      of the three colours. */
  predicate GoodMention(part: string)
  {
    var info := Split(part, " ");
    ParseInt(info[0]).Some? && |info| >= 2 && info[1] in ["red", "green", "blue"]
  }

  /** One pass of `parse_round`'s loop: the mentioned colour is set to the
      number. `None` is a panic: a bad number, no colour, or an unknown
      colour. */
  function Mention(round: CubeNums, part: string): (r: Option<CubeNums>)
    ensures r.Some? <==> GoodMention(part)
  {
    var info := Split(part, " ");
    match ParseInt(info[0])
    case None => None
    case Some(n) =>
      if |info| < 2 then None
      else if info[1] == "red" then Some(round.(red := n))
      else if info[1] == "green" then Some(round.(green := n))
      else if info[1] == "blue" then Some(round.(blue := n))
      else None
  }

  /** The mentions applied in order to a round of no cubes. */
  function Mentions(parts: seq<string>): Option<CubeNums>
  {
    if |parts| == 0 then Some(CubeNums(0, 0, 0))
    else match Mentions(parts[..|parts| - 1])
      case None => None
      case Some(round) => Mention(round, parts[|parts| - 1])
  }

  /** `parse_round`: split on `", "` and apply each mention in turn. */
  method ParseRound(s: string) returns (round: Option<CubeNums>)
    ensures round == Mentions(Split(s, ", "))
  {
    var parts := Split(s, ", ");
    var current := CubeNums(0, 0, 0);
    var k := 0;
    while k < |parts|
      invariant 0 <= k <= |parts|
      invariant Mentions(parts[..k]) == Some(current)
    {
      assert parts[..k + 1][..k] == parts[..k];
      var info := Split(parts[k], " ");
      var num := ParseInt(info[0]);
      if num.None? || |info| < 2 {
        MentionsFail(parts);
        assert !GoodMention(parts[k]);
        return None;
      }
      if info[1] == "red" {
        current := current.(red := num.value);
      } else if info[1] == "green" {
        current := current.(green := num.value);
      } else if info[1] == "blue" {
        current := current.(blue := num.value);
      } else {
        MentionsFail(parts);
        assert !GoodMention(parts[k]);
        return None;
      }
      k := k + 1;
    }
    assert parts[..k] == parts;
    return Some(current);
  }

  /** The number of the last mention of `colour`, if any. */
  function LastMention(parts: seq<string>, colour: string): Option<int>
  {
    if |parts| == 0 then None
    else
      var info := Split(parts[|parts| - 1], " ");
      if |info| >= 2 && info[1] == colour && ParseInt(info[0]).Some? then ParseInt(info[0])
      else LastMention(parts[..|parts| - 1], colour)
  }

  function OrZero(o: Option<int>): int
  {
    match o
    case None => 0
    case Some(v) => v
  }

  /** The round the mentions describe: each colour at its last mention,
      0 when it is not mentioned. */
  function Latest(parts: seq<string>): CubeNums
  {
    CubeNums(OrZero(LastMention(parts, "red")), OrZero(LastMention(parts, "green")), OrZero(LastMention(parts, "blue")))
  }

  /** `parse_round` fails exactly on a bad mention; otherwise a colour that
      is not mentioned is 0 and a colour mentioned more than once takes the
      number of its last mention. */
  lemma MentionsMeaning(parts: seq<string>)
    ensures Mentions(parts).None? <==> exists k :: 0 <= k < |parts| && !GoodMention(parts[k])
    ensures Mentions(parts).Some? ==> Mentions(parts).value == Latest(parts)
  {
    MentionsFail(parts);
    if Mentions(parts).Some? {
      MentionsValue(parts);
    }
  }

  lemma {:induction false} MentionsFail(parts: seq<string>)
    ensures Mentions(parts).None? <==> exists k :: 0 <= k < |parts| && !GoodMention(parts[k])
  {
    if |parts| > 0 {
      var init := parts[..|parts| - 1];
      MentionsFail(init);
      assert forall k :: 0 <= k < |init| ==> init[k] == parts[k];
      if Mentions(init).None? {
        var k :| 0 <= k < |init| && !GoodMention(init[k]);
        assert !GoodMention(parts[k]);
      }
    }
  }

  lemma {:induction false} MentionsValue(parts: seq<string>)
    requires Mentions(parts).Some?
    ensures Mentions(parts).value == Latest(parts)
  {
    if |parts| > 0 {
      var init, last := parts[..|parts| - 1], parts[|parts| - 1];
      MentionsValue(init);
      assert parts == init + [last];
      MentionUpdates(Latest(init), init, last);
    }
  }

  /** One more mention updates the round the mentions describe. */
  lemma MentionUpdates(round: CubeNums, init: seq<string>, part: string)
    requires round == Latest(init)
    requires Mention(round, part).Some?
    ensures Mention(round, part).value == Latest(init + [part])
  {
    var parts := init + [part];
    assert parts[..|parts| - 1] == init && parts[|parts| - 1] == part;
  }

  /** A round written out as `parse_round` reads it. */
  function ShowRound(r: CubeNums): string
  {
    Join(RoundParts(r), ", ")
  }

  /** A written number holds only digits and a sign. */
  lemma ShowIntLacks(n: int, c: char)
    requires !IsDigit(c) && c != '-'
    ensures c !in ShowInt(n)
  {
    if c in ShowInt(n) {
      ShowIntChars(n, c);
    }
  }

  /** A mention written out: the number, a space, the colour. */
  function MentionText(n: int, word: string): string
  {
    ShowInt(n) + " " + word
  }

  /** A number followed by a word is split back into the two. */
  lemma SplitMention(n: int, word: string)
    requires ' ' !in word
    ensures Split(MentionText(n, word), " ") == [ShowInt(n), word]
  {
    ShowIntLacks(n, ' ');
    SplitJoin([ShowInt(n), word], " ");
  }

  /** A written mention sets its colour to its number. */
  lemma MentionShown(round: CubeNums, n: int, word: string)
    requires word in ["red", "green", "blue"]
    ensures Mention(round, MentionText(n, word))
         == Some(if word == "red" then round.(red := n) else if word == "green" then round.(green := n) else round.(blue := n))
  {
    SplitMention(n, word);
    ParseShowInt(n);
  }

  /** A written mention holds no character that is neither a digit, a
      sign, a space nor a letter of its colour. */
  lemma MentionLacks(n: int, word: string, c: char)
    requires !IsDigit(c) && c != '-' && c != ' ' && c !in word
    ensures c !in MentionText(n, word)
  {
    ShowIntLacks(n, c);
  }

  /** A written round holds neither of the separators of a game line. */
  lemma ShowRoundLacks(r: CubeNums, c: char)
    requires c == ':' || c == ';'
    ensures c !in ShowRound(r)
  {
    var parts := RoundParts(r);
    MentionLacks(r.red, "red", c);
    MentionLacks(r.green, "green", c);
    MentionLacks(r.blue, "blue", c);
    JoinLacks(parts, ", ", c);
  }

  /** The three mentions of a written round. */
  function RoundParts(r: CubeNums): seq<string>
  {
    [MentionText(r.red, "red"), MentionText(r.green, "green"), MentionText(r.blue, "blue")]
  }

  lemma SplitRound(r: CubeNums)
    ensures Split(ShowRound(r), ", ") == RoundParts(r)
  {
    ShowIntLacks(r.red, ',');
    ShowIntLacks(r.green, ',');
    ShowIntLacks(r.blue, ',');
    SplitJoin(RoundParts(r), ", ");
  }

  lemma MentionsRound(r: CubeNums)
    ensures Mentions(RoundParts(r)) == Some(r)
  {
    MentionShown(CubeNums(0, 0, 0), r.red, "red");
    MentionShown(CubeNums(r.red, 0, 0), r.green, "green");
    MentionShown(CubeNums(r.red, r.green, 0), r.blue, "blue");
    var ps := RoundParts(r);
    MentionsOfThree(ps[0], ps[1], ps[2], CubeNums(r.red, 0, 0), CubeNums(r.red, r.green, 0), r);
    assert [ps[0], ps[1], ps[2]] == ps;
  }

  /** Every round is read back from the text it is written as. */
  lemma ParseShowRound(r: CubeNums)
    ensures Mentions(Split(ShowRound(r), ", ")) == Some(r)
  {
    SplitRound(r);
    MentionsRound(r);
  }

  lemma MentionsOfThree(p0: string, p1: string, p2: string, r0: CubeNums, r1: CubeNums, r2: CubeNums)
    requires Mention(CubeNums(0, 0, 0), p0) == Some(r0)
    requires Mention(r0, p1) == Some(r1) && Mention(r1, p2) == Some(r2)
    ensures Mentions([p0, p1, p2]) == Some(r2)
  {
    assert [p0][..0] == [];
    assert Mentions([p0]) == Some(r0);
    assert [p0, p1][..1] == [p0];
    assert Mentions([p0, p1]) == Some(r1);
    assert [p0, p1, p2][..2] == [p0, p1];
  }

  /** Each round text parsed; `None` when any of them fails. */
  function ParseRounds(texts: seq<string>): (r: Option<seq<CubeNums>>)
    ensures r.Some? ==> |r.value| == |texts|
    ensures r.Some? ==> forall k :: 0 <= k < |texts| ==> Mentions(Split(texts[k], ", ")) == Some(r.value[k])
  {
    if |texts| == 0 then Some([])
    else match (Mentions(Split(texts[0], ", ")), ParseRounds(texts[1..]))
      case (Some(round), Some(rest)) =>
        assert forall k :: 1 <= k < |texts| ==> texts[k] == texts[1..][k - 1];
        Some([round] + rest)
      case _ => None
  }

  /** `parse_game`: the number is the second word before `": "`, the rounds
      are the text after it split on `"; "`. `None` is a panic: no `": "`, no
      second word, a bad number or a bad round. */
  function ParseGame(s: string): Option<Game>
  {
    var colon := Split(s, ": ");
    var header := Split(colon[0], " ");
    if |header| < 2 then None
    else match ParseInt(header[1])
      case None => None
      case Some(num) =>
        if |colon| < 2 then None
        else match ParseRounds(Split(colon[1], "; "))
          case None => None
          case Some(rounds) => Some(Game(num, rounds))
  }

  /** Each round written out. */
  function RoundTexts(rounds: seq<CubeNums>): (texts: seq<string>)
    ensures |texts| == |rounds|
    ensures forall k :: 0 <= k < |rounds| ==> texts[k] == ShowRound(rounds[k])
  {
    if |rounds| == 0 then [] else [ShowRound(rounds[0])] + RoundTexts(rounds[1..])
  }

  lemma {:induction false} ShowRoundsParsed(rounds: seq<CubeNums>)
    ensures ParseRounds(RoundTexts(rounds)) == Some(rounds)
  {
    if |rounds| > 0 {
      ParseShowRound(rounds[0]);
      ShowRoundsParsed(rounds[1..]);
      assert RoundTexts(rounds)[1..] == RoundTexts(rounds[1..]);
      assert [rounds[0]] + rounds[1..] == rounds;
    }
  }

  /** The rounds of a game written out, separated by `"; "`. */
  function ShowRounds(rounds: seq<CubeNums>): string
  {
    Join(RoundTexts(rounds), "; ")
  }

  /** A game line as `parse_game` reads it. */
  function ShowGame(g: Game): string
  {
    "Game " + ShowInt(g.num) + ": " + ShowRounds(g.rounds)
  }

  lemma ShowRoundsSplit(rounds: seq<CubeNums>)
    requires |rounds| > 0
    ensures ':' !in ShowRounds(rounds)
    ensures ParseRounds(Split(ShowRounds(rounds), "; ")) == Some(rounds)
  {
    var texts := RoundTexts(rounds);
    forall k | 0 <= k < |texts|
      ensures ';' !in texts[k] && ':' !in texts[k]
    {
      ShowRoundLacks(rounds[k], ';');
      ShowRoundLacks(rounds[k], ':');
    }
    JoinLacks(texts, "; ", ':');
    SplitJoin(texts, "; ");
    ShowRoundsParsed(rounds);
  }

  lemma SplitHeader(n: int)
    ensures ':' !in "Game " + ShowInt(n)
    ensures Split("Game " + ShowInt(n), " ") == ["Game", ShowInt(n)]
  {
    ShowIntLacks(n, ':');
    ShowIntLacks(n, ' ');
    SplitJoin(["Game", ShowInt(n)], " ");
    assert Join(["Game", ShowInt(n)], " ") == "Game " + ShowInt(n);
  }

  /** Every game with at least one round is read back from the line it is
      written as. (With no rounds the text after `": "` is empty, and an
      empty round is a panic.) */
  lemma ParseShowGame(g: Game)
    requires |g.rounds| > 0
    ensures ParseGame(ShowGame(g)) == Some(g)
  {
    var header := "Game " + ShowInt(g.num);
    var body := ShowRounds(g.rounds);
    SplitHeader(g.num);
    ShowRoundsSplit(g.rounds);
    SplitJoin([header, body], ": ");
    assert Join([header, body], ": ") == ShowGame(g);
    ParseShowInt(g.num);
  }

  /** One round fits in the bag. */
  predicate Within(round: CubeNums, bag: CubeNums)
  {
    round.red <= bag.red && round.green <= bag.green && round.blue <= bag.blue
  }

  /** `game_possible`: the game's number when every round fits in the bag,
      checked round by round with an early return. */
  method GamePossible(game: Game, bag: CubeNums) returns (r: Option<int>)
    ensures r.Some? <==> forall k :: 0 <= k < |game.rounds| ==> Within(game.rounds[k], bag)
    ensures r.Some? ==> r.value == game.num
  {
    var k := 0;
    while k < |game.rounds|
      invariant 0 <= k <= |game.rounds|
      invariant forall j :: 0 <= j < k ==> Within(game.rounds[j], bag)
    {
      var round := game.rounds[k];
      if round.red > bag.red { return None; }
      if round.green > bag.green { return None; }
      if round.blue > bag.blue { return None; }
      k := k + 1;
    }
    return Some(game.num);
  }

  /** `iter().max()`: the largest value, `None` for no values. */
  function MaxOf(xs: seq<int>): (m: Option<int>)
    ensures m.Some? <==> |xs| > 0
    ensures m.Some? ==> m.value in xs && forall k :: 0 <= k < |xs| ==> xs[k] <= m.value
  {
    if |xs| == 0 then None
    else match MaxOf(xs[..|xs| - 1])
      case None => Some(xs[0])
      case Some(m) => Some(if xs[|xs| - 1] > m then xs[|xs| - 1] else m)
  }

  function Reds(rounds: seq<CubeNums>): seq<int>
  {
    seq(|rounds|, k requires 0 <= k < |rounds| => rounds[k].red)
  }

  function Greens(rounds: seq<CubeNums>): seq<int>
  {
    seq(|rounds|, k requires 0 <= k < |rounds| => rounds[k].green)
  }

  function Blues(rounds: seq<CubeNums>): seq<int>
  {
    seq(|rounds|, k requires 0 <= k < |rounds| => rounds[k].blue)
  }

  /** `min_cube_counts`: the largest count of each colour over the rounds;
      `None` is the panic on a game with no rounds. */
  function MinCubeCounts(game: Game): Option<CubeNums>
  {
    if |game.rounds| == 0 then None
    else Some(CubeNums(MaxOf(Reds(game.rounds)).value, MaxOf(Greens(game.rounds)).value, MaxOf(Blues(game.rounds)).value))
  }

  /** The fewest cubes that make a game possible: every round fits in
      them, and no colour could be fewer, since some round shows exactly that
      many. A game is possible with a bag exactly when these fit in it. */
  lemma MinCubeCountsFewest(game: Game, bag: CubeNums)
    ensures MinCubeCounts(game).Some? <==> |game.rounds| > 0
    ensures MinCubeCounts(game).Some? ==>
      var m := MinCubeCounts(game).value;
      && (forall k :: 0 <= k < |game.rounds| ==> Within(game.rounds[k], m))
      && (exists k :: 0 <= k < |game.rounds| && game.rounds[k].red == m.red)
      && (exists k :: 0 <= k < |game.rounds| && game.rounds[k].green == m.green)
      && (exists k :: 0 <= k < |game.rounds| && game.rounds[k].blue == m.blue)
      && ((forall k :: 0 <= k < |game.rounds| ==> Within(game.rounds[k], bag)) <==> Within(m, bag))
  {
    if |game.rounds| > 0 {
      var m := MinCubeCounts(game).value;
      var rs, gs, bs := Reds(game.rounds), Greens(game.rounds), Blues(game.rounds);
      assert m.red in rs && m.green in gs && m.blue in bs;
      var i :| 0 <= i < |rs| && rs[i] == m.red;
      var j :| 0 <= j < |gs| && gs[j] == m.green;
      var l :| 0 <= l < |bs| && bs[l] == m.blue;
      assert game.rounds[i].red == m.red && game.rounds[j].green == m.green && game.rounds[l].blue == m.blue;
      forall k | 0 <= k < |game.rounds|
        ensures Within(game.rounds[k], m)
      {
        assert rs[k] == game.rounds[k].red && gs[k] == game.rounds[k].green && bs[k] == game.rounds[k].blue;
      }
    }
  }

  /** `power`: the product of the numbers, multiplied from the left;
      `None` is the panic on an empty list. */
  function Power(nums: seq<int>): Option<int>
  {
    if |nums| == 0 then None
    else if |nums| == 1 then Some(nums[0])
    else Some(Power(nums[..|nums| - 1]).value * nums[|nums| - 1])
  }

  /** The product is zero exactly when some number is zero, and appending a
      number multiplies the product by it. */
  lemma {:induction false} PowerMeaning(nums: seq<int>, x: int)
    ensures Power(nums).Some? <==> |nums| > 0
    ensures Power(nums) == Some(0) <==> 0 in nums
    ensures |nums| > 0 ==> Power(nums + [x]) == Some(Power(nums).value * x)
  {
    if |nums| > 1 {
      var init := nums[..|nums| - 1];
      PowerMeaning(init, nums[|nums| - 1]);
      assert 0 in nums <==> 0 in init || nums[|nums| - 1] == 0;
    }
    if |nums| > 0 {
      assert (nums + [x])[..|nums|] == nums;
    }
  }
}
