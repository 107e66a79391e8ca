# Advent of Code 2023 solutions, modelled in Dafny

This project models the puzzle logic of a set of Rust Advent of Code 2023
solutions, one `main.rs` per puzzle, and proves properties of that logic.
Each core file maps to one or more Dafny modules:

- **day5, the seed almanac.** `Range` (half-open intervals), `RangeMapRule`
  (a source range shifted onto an equal-length destination range) and
  `RangeMap`, which maps a point through the first rule containing it.
  - `RangeMap::reduce` collapses two maps into one, as written.
  - `RangeCompose` gives the composition that `reduce` is documented to
    compute, cut on the domain instead of the intermediate line.
  - `parse_maps` reads the almanac's blank-line-separated blocks.
  - Modules: `RangeRules`, `RangeMaps`, `Cuts`, `RangeReduce`,
    `RangeCompose`, `MapParser`.
- **day7 and 2023/day7, Camel Cards.**
  - Hand types come from the counts of the cards' counts.
  - Hands are ordered by type, then card by card by a strength string.
  - The winnings are rank times bid over the sorted hands.
  - The 2023/day7 variant turns jokers into the most frequent other card.
  - Modules: `Hands`, `CamelCards`, `JokerCards`.
- **day9, extrapolation by finite differences.** `derive` and `predict`,
  and backward prediction through reversal. Module `Oasis`.
- **2023/day2, the cube game.**
  - Rounds and games are parsed.
  - A game is checked against a bag.
  - A game is reduced to its fewest cubes, whose counts are multiplied
    together.
  - Module `CubeGame`.
- **day1, calibration values.** Digit characters and digit words are
  found by position; the value is the first digit found followed by the last.
  Module `Trebuchet`.
- **day4, scratchcards.** The match count and score of a card, and the
  copy queue that `main`'s loop pops and raises in place. The loop is a
  class `Scratchcards`. Module `Scratchcards`.
- **day8, the network walk.** Lines are parsed from fixed columns. The walk
  follows L/R instructions, wrapping around at the end of the instruction
  string, until it reaches `ZZZ`. Module `Network`.
- **day6, the boat race.** The integer `num_ways_to_win_2`. Module
  `BoatRace`.
- **day3, the engine schematic.**
  - `get_adj` is the neighbour lookup.
  - The per-line scan finds digit runs and symbols; it replaces the regular
    expressions.
  - Each number gets an id from a counter, which is a plain field here.
  - The ids `get_adj` reports around each symbol are summed, each once.
    The model takes the offset list as a parameter. With the list as
    written, the number straight below a symbol is missed (see Findings).
    With the corrected list, exactly the numbers touching a symbol are
    summed.
  - The scan is module `GridScan`. The schematic is module `GearRatios`,
    whose class `Schematic` holds the maps that `main` fills.

There are also two shared modules. `Text` gives decimal digits, Rust's
`str::parse` for integers and `str::split`. `Sorting` gives an in-place
array sort that stands in for `sort`/`sort_by_key`.

A panic in the source (`unwrap`, `expect`, `assert!`, an out-of-range
slice, `panic!`) appears in the model as a `None` result or a `false`
status. Each contract states exactly when that happens.

## Model

| member | source | states |
|---|---|---|
| RangeRules.Apply | day5/src/main.rs:42-67 | Mapping a point that the chosen side contains (start <= i < end) keeps its offset from the start of the side. For an equal-length rule, the image lies inside the opposite side. |
| RangeRules.ApplyRoundTrip | day5/src/main.rs:56-67 | For an equal-length rule, mapping forward and then in reverse (or the other way round) gives back the point. |
| RangeRules.ParseAll | day5/src/main.rs:22-25 | Parsing every token succeeds iff each token parses. The values then come in token order. |
| RangeRules.RuleFromString | day5/src/main.rs:21-40 | A line is read iff its split on " " gives exactly three tokens and each parses as an integer. The rule read has destination start the first token, source start the second, and both sides the length the third gives. |
| RangeRules.RuleFromShowRule | day5/src/main.rs:21-40 | The line "d s l" of an equal-length rule reads back as that rule: src = [s, s+l), dest = [d, d+l). |
| RangeMaps.LookupNone | day5/src/main.rs:84-91 | A point that no rule contains is returned unchanged. |
| RangeMaps.LookupFirst | day5/src/main.rs:84-91 | A point is mapped by the first rule, in list order, that contains it. |
| RangeMaps.LookupRoundTrip | day5/src/main.rs:56-91 | When the rules have equal lengths and no two share a destination point, a covered point mapped forward and then in reverse comes back. |
| RangeMaps.LookupOffset | day5/src/main.rs:84-91 | A forward lookup either leaves the point alone or shifts it by the offset of one of the map's rules. |
| RangeMaps.MapPoint | day5/src/main.rs:84-91 | The early-return scan returns the first-containing-rule value (RangeMaps.Lookup). |
| RangeMaps.FromIter | day5/src/main.rs:75-81 | The rules of the set come out sorted by source start, each exactly once. |
| Sorting.SortWith | day5/src/main.rs:78 | The array ends sorted by the given total preorder and is a permutation of its old contents. |
| Sorting.Enumerate | day5/src/main.rs:77 | Iterating a set yields each element exactly once, in some order. |
| Cuts.SortedCuts | day5/src/main.rs:106-107 | The boundary set, collected and sorted, is strictly increasing and holds exactly the set's elements. |
| Cuts.ConsecutivePairs | day5/src/main.rs:109-112 | The zip of the sorted boundaries with their tail yields exactly the pairs of neighbouring boundaries. |
| Cuts.AdjacentUnique | day5/src/main.rs:109-112 | Each point lies in at most one piece between neighbouring boundaries. |
| RangeReduce.PairRules | day5/src/main.rs:109-123 | The rules built from consecutive sorted boundaries are exactly one rule per pair of neighbouring boundaries. |
| RangeReduce.CollectRules | day5/src/main.rs:109-123 | The collected HashSet holds those rules, and there are fewer of them than boundaries. |
| RangeReduce.Reduce | day5/src/main.rs:95-126 | The reduced map's rules are sorted by source start and are the reduced rule set, each exactly once. It has no rules or fewer rules than boundaries. |
| RangeReduce.ReducedRulesShape | day5/src/main.rs:112-122 | Every emitted rule has source and destination of the same, strictly positive length e - s. |
| RangeReduce.ReducedSource | day5/src/main.rs:113-117 | An emitted rule's source is either the piece itself or lies inside the source of one of the first map's rules. |
| RangeReduce.ReduceAgreesOffFirst | day5/src/main.rs:93-126 | At a point outside both the source union and the destination union of the first map, the reduced map agrees with applying the two maps in turn. |
| RangeReduce.ReduceCounterexample | day5/src/main.rs:93-126 | For first {98..100 -> 50..52} and second {50..52 -> 0..2}, the reduced map sends 50 to 50 while the chain sends it to 0. |
| RangeCompose.ComposeMatchesChain | day5/src/main.rs:93-94 | The rules cut on the domain boundaries send every point exactly where the second map sends the first map's image. |
| RangeCompose.Compose | day5/src/main.rs:93-126 | The composed map is sorted by source start and holds the composed rule set, each rule once. |
| RangeCompose.ChainShift | day5/src/main.rs:93-94 | Between neighbouring domain boundaries the chain of the two maps is a single shift. |
| RangeCompose.ComposeAll | day5/src/main.rs:175-181 | With the corrected composition in place of `reduce`, folding the maps together yields a map that sends every point where the whole chain of maps does. |
| MapParser.ParseMaps | day5/src/main.rs:131-150 | The loop panics iff some line is neither blank, a header nor a rule. Otherwise each stored name holds its block's rules, sorted by source start. |
| MapParser.RunFails | day5/src/main.rs:136-147 | Parsing fails iff some line is a bad rule line. |
| MapParser.TailDropped | day5/src/main.rs:136-147 | Non-blank lines after the last blank line store nothing: the rules after the last blank line are dropped. |
| MapParser.ReadBlock | day5/src/main.rs:136-147 | A header "name map:", its rule lines and a blank line store exactly those rules under name. The current name and rule set are reset. |
| MapParser.FoldAppend | day5/src/main.rs:136-147 | Running the loop over two runs of lines is running it over the first and continuing with the second. |
| Hands.RankInjective | day7/src/main.rs:5-14 | Distinct hand types have distinct discriminants 0..6. |
| Hands.Count | day7/src/main.rs:24 | A card's count is positive iff it occurs in the hand, and is at most the hand's length. |
| Hands.Distinct | day7/src/main.rs:24 | The keys of the card counter: each card of the hand, once. |
| Hands.CountsSum | day7/src/main.rs:24-25 | The counts of a hand's cards are all positive and add up to its length. |
| Hands.PartitionsOfFive | day7/src/main.rs:27-40 | For any counts of a five-card hand, the counts-of-counts match chooses the type fixed by the number of distinct cards and the largest count. The FullHouse arm wins over ThreeOfAKind. |
| Hands.ClassifyFiveCards | day7/src/main.rs:23-40 | A five-card hand is classified by its number of distinct cards and largest count: five of a kind, four of a kind or full house, three of a kind or two pair, one pair, high card. |
| Hands.IndexOf | day7/src/main.rs:56 | `find` gives the first position of a card in the strength string, and fails iff the card is absent. |
| Hands.Key | day7/src/main.rs:52-58 | The comparison key has one entry per card: that card's position in the strength string. |
| Hands.KeyInjective | day7/src/main.rs:52-69 | Two valid hands with the same key have the same cards. |
| Hands.CompareHandsFlip | day7/src/main.rs:49-70 | Comparing b with a gives the reverse of comparing a with b, and one panics iff the other does. |
| Hands.CompareHandsEqual | day7/src/main.rs:49-70 | Two valid hands compare Equal iff their types and cards are identical. |
| Hands.CompareHandsTransitive | day7/src/main.rs:49-70 | Less is transitive. |
| Hands.CompareSeqFirstDifference | day7/src/main.rs:69 | Keys compare lexicographically: the first differing position decides. |
| Hands.EntryLeTotal | day7/src/main.rs:92 | The sort order on hands is total. |
| Hands.EntryLeTransitive | day7/src/main.rs:92 | The sort order on hands is transitive. |
| Hands.SumByPermutation | day7/src/main.rs:94-97 | A sum over the hands does not depend on their order. |
| Hands.RankIsBeaten | day7/src/main.rs:92-97 | In the ascending sort of valid, distinct hands, a hand's 0-based rank is the number of hands it beats. |
| Hands.WinningsOrderFree | day7/src/main.rs:92-97 | Σ(rank+1)·bid over any ascending sort of valid, distinct hands equals Σ bid·(1 + number of hands beaten). This is independent of how the sort placed them. |
| Hands.EntryLeAntisymmetric | day7/src/main.rs:92 | Two entries of valid hands that the `(Hand, bid)` order puts each before the other are identical: same hand and same bid. |
| Hands.SortedUnique | day7/src/main.rs:92 | Two sorted permutations of the same valid entries are equal, so the list `hands.sort()` produces is fixed by its input. |
| Hands.TotalWinnings | day7/src/main.rs:92-97 | Sorting and folding panics iff there are two or more hands and one has a card outside the strength string. Otherwise it returns Σ(rank+1)·bid over a sorted permutation, which for distinct hands is the order-free sum. |
| CamelCards.NewHandType | day7/src/main.rs:22-46 | `Hand::new` keeps the cards, and its type is the five-card classification of them. |
| CamelCards.CmpTotalOrder | day7/src/main.rs:49-77 | On valid hands, cmp never panics, is antisymmetric, returns Equal iff the cards are identical, and is transitive. |
| CamelCards.CmpPanics | day7/src/main.rs:50-67 | cmp panics iff one of the two hands holds a card outside "23456789TJQKA". |
| CamelCards.Entries | day7/src/main.rs:83-91 | One entry per input line, keeping its cards and bid, typed by `Hand::new`. |
| CamelCards.Part1 | day7/src/main.rs:83-97 | Panics iff there are two or more hands and one has a card outside the strength string. Otherwise returns Σ(rank+1)·bid over the entries sorted by `(Hand, bid)`, as a permutation (the only one, by Hands.SortedUnique). For distinct hands this equals each bid times one plus the number of hands it beats, summed. |
| JokerCards.NonJokers | 2023/day7/src/main.rs:93-96 | The non-joker cards: the length drops by the number of jokers and no J is left. |
| JokerCards.NonJokersCount | 2023/day7/src/main.rs:93-96 | Filtering out the jokers keeps every other card's count. |
| JokerCards.TopCards | 2023/day7/src/main.rs:97-107 | The cards kept are exactly those whose count equals the highest count. |
| JokerCards.BestIndexMeaning | 2023/day7/src/main.rs:109-113 | The max strength index exists iff the top cards are non-empty and all in the strength string. It is the index of one of them and is at least the index of each. |
| JokerCards.ReplaceAll | 2023/day7/src/main.rs:119 | `replace("J", c)` puts c at every joker position and keeps every other card. |
| JokerCards.ReplaceJokersFixed | 2023/day7/src/main.rs:85-91 | Without jokers the cards are returned unchanged, and five jokers give "AAAAA". A five-card result has five cards and no J. |
| JokerCards.ReplaceJokersChoice | 2023/day7/src/main.rs:93-121 | With 1-4 jokers, replacement panics iff the hand is all jokers or a top card is outside the strength string. Otherwise every J becomes a non-J card of the hand with the highest count, the strongest such card on a tie, and the other positions are unchanged. |
| JokerCards.NewHandMeaning | 2023/day7/src/main.rs:27-52 | `Hand::new` panics iff joker replacement does. It stores the original cards and the best hand, and classifies the best hand. |
| JokerCards.JokerLosesTie | 2023/day7/src/main.rs:55-76 | Between two hands of the same type that agree up to a position where one has J and the other does not, the one with J is smaller. |
| JokerCards.CmpTotalOrder | 2023/day7/src/main.rs:55-82 | On valid cards, cmp never panics, is antisymmetric, returns Equal iff type and cards agree, and is transitive. |
| JokerCards.EntriesMeaning | 2023/day7/src/main.rs:130-138 | Building the hands panics iff some `Hand::new` does. Otherwise there is one entry per line, with that hand's type, cards and bid. |
| JokerCards.Part2 | 2023/day7/src/main.rs:130-144 | Panics iff some hand's joker replacement panics, or there are two or more hands and one has a card outside "J23456789TQKA". Otherwise returns Σ(rank+1)·bid over the built entries sorted by `(Hand, bid)`, as a permutation. For distinct hands this is the order-free winnings; no hands win 0. |
| Oasis.Derive | day9/src/main.rs:3-10 | The output has one element fewer than a non-empty input, and out[i] = input[i+1] - input[i]. |
| Oasis.DifferencesUnique | day9/src/main.rs:3-10 | These two facts determine the differences. |
| Oasis.PredictSucceeds | day9/src/main.rs:12-22 | Predict succeeds iff some level of differences is all zero while still non-empty. |
| Oasis.PredictKeepsLevel | day9/src/main.rs:12-22 | The predicted value extends the sequence so that the same level of differences, one element longer, is still all zero. |
| Oasis.PredictConstant | day9/src/main.rs:16-17 | A constant sequence of length at least 2 predicts that constant. |
| Oasis.PredictSteady | day9/src/main.rs:16-21 | A sequence whose differences are all `step` predicts last + step. |
| Oasis.PredictLineTooShort | day9/src/main.rs:13-17 | Two unequal values panic: their differences never reach a non-empty all-zero level. |
| Oasis.PredictUnflat | day9/src/main.rs:20-21 | When the differences are not all zero, the prediction is last + the prediction of the differences. |
| Oasis.DifferencesReverse | day9/src/main.rs:3-10 | The differences of the reversed sequence are the reversed negated differences. |
| Oasis.DiffReverse | day9/src/main.rs:40 | The k-th differences of the reversed sequence are the reversed k-th differences, negated when k is odd. |
| Oasis.DiffReverseZero | day9/src/main.rs:40 | A level of differences is all zero for the reversed sequence iff it is for the sequence. |
| Oasis.PredictBackwardKeepsLevel | day9/src/main.rs:40 | When some level of differences is all zero, predicting on the reversed sequence succeeds. Prepending the predicted value keeps that level all zero. |
| CubeGame.Mention | 2023/day2/src/main.rs:27-35 | One "n colour" part succeeds iff it has a number and one of red, green, blue. |
| CubeGame.MentionsMeaning | 2023/day2/src/main.rs:18-39 | A round panics iff some part is bad. Otherwise each colour holds its last mention, and an unmentioned colour holds 0. |
| CubeGame.ParseRound | 2023/day2/src/main.rs:18-39 | The loop over the ", " parts computes that round. |
| CubeGame.ParseShowRound | 2023/day2/src/main.rs:18-39 | A round written out as "r red, g green, b blue" reads back as itself. |
| CubeGame.MentionsOfThree | 2023/day2/src/main.rs:26-36 | Three parts are applied in order, later ones overwriting. |
| CubeGame.ParseRounds | 2023/day2/src/main.rs:46 | The rounds split on "; " are parsed in order, one per text. |
| CubeGame.ParseShowGame | 2023/day2/src/main.rs:41-52 | A game written out as "Game n: round; round…" parses back to the same number and rounds. |
| CubeGame.GamePossible | 2023/day2/src/main.rs:54-64 | Returns Some(num) iff every round is within the bag in red, green and blue, and None otherwise. |
| CubeGame.MaxOf | 2023/day2/src/main.rs:68-70 | `max` is defined iff the list is non-empty, and is then an element at least as large as every element. |
| CubeGame.MinCubeCountsFewest | 2023/day2/src/main.rs:66-72 | Panics iff the game has no rounds. Otherwise each count is reached by some round, every round fits within it, and a bag holds all rounds iff it holds these counts. |
| CubeGame.PowerMeaning | 2023/day2/src/main.rs:74-76 | Panics iff the list is empty; the product is 0 iff some count is 0, and it grows by one factor per element. |
| Trebuchet.MatchIndices | day1/src/main.rs:14-25 | Every reported index is an occurrence of the pattern. |
| Trebuchet.MatchIndicesComplete | day1/src/main.rs:14-25 | For a pattern whose occurrences cannot overlap, every occurrence is reported. |
| Trebuchet.WordsNoSelfOverlap | day1/src/main.rs:5 | None of "zero".."nine" can overlap itself, so `match_indices` finds every occurrence. |
| Trebuchet.CollectDigits | day1/src/main.rs:11-19 | The first loop appends, for the digits 0..9 in turn, every occurrence with its value. |
| Trebuchet.CollectWords | day1/src/main.rs:21-28 | The second loop appends every occurrence of each digit word, valued by its index. |
| Trebuchet.FindDigitSubstrs | day1/src/main.rs:7-31 | Both loops together give the list of found digits. |
| Trebuchet.FoundMeaning | day1/src/main.rs:7-31 | (p, v) is found iff the digit v or its word starts at position p. |
| Trebuchet.StartsUnique | day1/src/main.rs:7-31 | At most one digit value starts at each position. |
| Trebuchet.OverlappingWords | day1/src/main.rs:22-28 | Overlapping words are both reported: "oneight" holds 1 at 0 and 8 at 2. |
| Trebuchet.SortByPosition | day1/src/main.rs:36 | The found digits are sorted by position and permuted. |
| Trebuchet.ParseLine | day1/src/main.rs:33-46 | Panics iff the line holds no digit and no digit word. Otherwise it returns 10 × the value at the earliest position + the value at the latest. |
| Trebuchet.CalibrationRange | day1/src/main.rs:40-45 | That value lies in 0..99 and does not depend on which earliest/latest occurrence is picked. |
| Scratchcards.ParsedNumbersMeaning | day4/src/main.rs:16-25 | A number is collected iff some space-separated token parses to it; tokens that fail to parse are skipped. |
| Scratchcards.MatchCountMeaning | day4/src/main.rs:16-27 | A number is in the intersection iff it is listed in both column ranges. The match count, counting distinct numbers, is at most either set's size. |
| Scratchcards.PointsDouble | day4/src/main.rs:29-31 | No match scores 0, one scores 1, and each further match doubles the points. |
| Scratchcards.CardWins | day4/src/main.rs:33-36 | A card with n matches adds its copy count to each of the next n cards and to no other card. |
| Scratchcards.Scratchcards.constructor | day4/src/main.rs:10-12 | The totals start at 0 and the queue starts as 206 ones. |
| Scratchcards.Scratchcards.ProcessCard | day4/src/main.rs:14-36 | Panics iff the line is too short, the queue is empty, or there are more matches than remaining cards. Otherwise the score grows by the card's points, the total by the popped count, and the next n queue entries by that count, and nothing else changes. The count-by-card invariant is kept. |
| Scratchcards.Scratchcards.RaiseFront | day4/src/main.rs:36 | The first n entries of the queue grow by the popped count, and all others are unchanged. |
| Scratchcards.PlayPreserves | day4/src/main.rs:14-37 | After every card, the score is the sum of its points and the total is the sum of copies. Each queued count is the copies its card has won, starting from one. |
| Network.ParseLine | day8/src/main.rs:4-10 | Slicing succeeds iff the line has at least 15 characters. |
| Network.ParseShowLine | day8/src/main.rs:4-10 | The line "AAA = (BBB, CCC)" reads back as its three nodes. |
| Network.BuildNetwork | day8/src/main.rs:36-40 | The insert loop builds the network map (Network.Build). |
| Network.BuildMeaning | day8/src/main.rs:36-40 | Building panics iff some line is too short. Otherwise exactly the named nodes are keys, each with the neighbours of its last line (a later line overwrites). |
| Network.IndexWraps | day8/src/main.rs:23 | The instruction index counts up from 0 and starts over after the last instruction. |
| Network.Walk | day8/src/main.rs:12-25 | Starting at AAA, a reported step count is the first step at which the walk is on ZZZ. A panic happens at a step, before ZZZ, where the current node is missing from the map. Running out of fuel means ZZZ was not reached within fuel steps. |
| Network.SameFuture | day8/src/main.rs:12-25 | Two steps with the same node and instruction index are followed by identical walks. |
| Network.NeverArrives | day8/src/main.rs:16-25 | When the walk returns to a node and index it was at earlier without having met ZZZ, it never reaches ZZZ: the source's loop runs forever. |
| BoatRace.BeatsRecord | day6/src/main.rs:14-17 | One flag per hold time 0..time-1, set iff that hold time beats the record. |
| BoatRace.Position | day6/src/main.rs:19 | `position` is the first set flag, and fails iff none is set. |
| BoatRace.RPosition | day6/src/main.rs:20 | `rposition` is the last set flag, and fails iff none is set. |
| BoatRace.WinsContiguous | day6/src/main.rs:13-23 | Every hold time between two winning hold times also wins. |
| BoatRace.NumWaysCounts | day6/src/main.rs:13-23 | Panics iff no hold time wins. Otherwise upper - lower + 1 is exactly the number of winning hold times, and at least 1. |
| GridScan.RunEnd | day3/src/main.rs:48 | A digit run extends to the first non-digit or the end of the line. |
| GridScan.Runs | day3/src/main.rs:48 | Every run found is a maximal run of digits. The runs appear left to right and are separated by non-digits. |
| GridScan.RunsCover | day3/src/main.rs:48 | A column is a digit iff some run found covers it. |
| GridScan.Symbols | day3/src/main.rs:60 | Exactly the characters other than digits, '\n' and '.' are found, with their columns. |
| GearRatios.GetAdjMeaning | day3/src/main.rs:24-36 | A value is returned iff the graph holds it at pos plus one of the listed offsets. |
| GearRatios.GetAdj | day3/src/main.rs:24-36 | At most 8 values are returned. |
| GearRatios.GetAdjMissesBelow | day3/src/main.rs:26-30 | With the offsets as written, a value directly below the position is not returned. |
| GearRatios.GetAdjRepeatsCorner | day3/src/main.rs:26-30 | A value at (1, 1) is returned twice. |
| GearRatios.NeighbourOffsetsExact | day3/src/main.rs:26-30 | The corrected list holds exactly the 8 distinct cells touching (0, 0). |
| GearRatios.AdjacentIdsMeaning | day3/src/main.rs:66-72 | With the corrected offsets, an id is collected iff one of its cells touches a symbol cell. |
| GearRatios.AdjacentIdsAsWritten | day3/src/main.rs:24-72 | A number directly below a symbol touches it, but the offsets as written do not collect it; the corrected offsets do. |
| GearRatios.CollectIds | day3/src/main.rs:66-72 | For any offset list, the symbol loop collects exactly the ids `get_adj` over those offsets reports around some symbol. |
| GearRatios.SumValues | day3/src/main.rs:74-77 | Summing the looked-up values of a set of ids fails iff an id has no value; each id counts once. |
| GearRatios.Schematic.constructor | day3/src/main.rs:11-38 | The maps start empty and the id counter starts at 1. |
| GearRatios.Schematic.AddNumber | day3/src/main.rs:49-58 | A number takes the next id; its value is stored under it and every digit cell maps to it. |
| GearRatios.Schematic.AddLine | day3/src/main.rs:46-64 | A line gives one fresh id per digit run, in order. Each run's cells map to its id, the id to the run's value, and each symbol cell to its character. The ids stay consistent. |
| GearRatios.Schematic.SumParts | day3/src/main.rs:66-77 | For any offset list, the ids `get_adj` reports around the symbols are collected and each one's value is summed once. With `SourceOffsets` this is `main` as written. With `NeighbourOffsets` the ids are exactly those of the numbers touching a symbol. On a consistent schematic the sum is always defined. |
| GearRatios.GridCellsDomain | day3/src/main.rs:46-58 | After the lines, the digit cells are exactly the cells holding a decimal digit. |
| GearRatios.GridSymbolsDomain | day3/src/main.rs:60-63 | After the lines, the symbol cells are exactly the cells holding a symbol, each mapped to that character. |
| GearRatios.ScanRow | day3/src/main.rs:40-64 | One pass of the line loop: once line `row` is added, the maps and the id counter describe the first `row + 1` lines. |
| GearRatios.Scan | day3/src/main.rs:40-64 | Once the line loop has run, the schematic holds exactly the digit cells, values, symbol cells and id count of all the lines. |
| GearRatios.Solve | day3/src/main.rs:38-77 | The lines are added in order with their index as row. The schematic then holds the lines' digit cells, values and symbol cells, and ids 1 up to the number of runs are used. The sum is defined and is the sum over the ids `get_adj` reports with the given offsets. `Solve(lines, SourceOffsets)` is `main` as written. |
| GearRatios.PartSumMissesBelow | day3/src/main.rs:26-77 | On the lines "*" and "5", `main` as written sums 0, though the 5 touches the symbol. With the corrected offsets the sum is 5. |
| Text.ParseShowInt | day5/src/main.rs:24 | Parsing the decimal rendering of an integer gives that integer. |
| Text.JoinSplit | day5/src/main.rs:22 | Rejoining the parts of a split with the separator gives back the string. |
| Text.SplitJoin | 2023/day2/src/main.rs:22 | Splitting a join of parts that do not contain the separator's first character gives back the parts. |
| Text.FindFrom | day5/src/main.rs:22 | A separator search returns the first occurrence at or after the start, or none. |

## Left out

- Reading the input files, printing, and the per-puzzle drivers in each `main` (line splitting, the seed walk's map names, summing the per-line results). These are I/O and glue.
- Machine-integer widths (`i32`, `i64`, `u64`, `usize`). Every number is an unbounded integer, so overflow in sums, products, `as_ints[1] + len` or `bt * (time - bt)` is not modelled.
- `num_ways_to_win` (day6/src/main.rs:1-11) is `f64` square-root arithmetic and is not part of this model.
- Lines of day4 and day8 are taken as ASCII. The source slices them by byte offsets (day4/src/main.rs:17-22, day8/src/main.rs:5-7) and the model by character positions. These agree only on ASCII lines, and the panic on a cut inside a multi-byte character is not modelled.
- The `regex` crate (day3/src/main.rs:14-22) is replaced by an explicit scan. `\d` is taken as the ASCII digits, and match positions are character indices rather than byte offsets.
- The `AtomicI32` counter (day3/src/main.rs:11-12) is a plain field of `Schematic`, because it is used only as a sequential id source.
- The `counter` crate is modelled by counting functions. Only the top count of `most_common` is used, so its tie order does not matter.
- HashMap/HashSet iteration order. `reduce`'s rule set and the day3 symbol map are iterated in an unspecified order; the model states only sortedness and the permutation property.
- Sorting.SortWith: insertion sort stands in for Rust's stable merge sort. Only sortedness and the permutation property are stated, not stability.
- Hands.TotalWinnings: the closed form by counting beaten hands is stated only for pairwise distinct hands. Two entries with the same cards and different bids beat the same hands but take different ranks, so there the number of hands beaten is not the rank. The general total, Σ(rank+1)·bid over the one sorted permutation, is stated for every input.
- CamelCards.Part1: as for Hands.TotalWinnings, the beaten-count closed form covers pairwise distinct hands only; the general total is stated for every input.
- JokerCards.Part2: as for Hands.TotalWinnings, the beaten-count closed form covers pairwise distinct hands only; the general total is stated for every input.
- Network.Walk: the `while` loop may run forever (Network.NeverArrives), so the walk takes a step budget. Running out of it is an outcome of its own and stands for "not within fuel steps".
- Scratchcards.Scratchcards.ProcessCard: after a panic (`ok` false) the fields are left as the partial iteration wrote them, and the contract says nothing about them.
- CubeGame.ParseShowGame: the round trip is stated for games with at least one round. An empty round list renders as an empty round text, which the source rejects.
- RangeCompose.ComposeAll: requires at least one map, as the source's `remove("seed-to-soil").unwrap()` does.
- RangeRules.Apply: the `assert!(self.contains(...))` of rule `map` is a precondition. Every caller checks `contains` first.
- Interval partitioning and seed-range minimisation exist only as commented-out code and are not modelled.

## Findings

| source | as written | input that shows it | evidently intended | confidence | as-written member | corrected member |
|---|---|---|---|---|---|---|
| day5/src/main.rs:93-126 | `reduce` cuts the intermediate line at `self`'s destination and `other`'s source boundaries. Each piece [s, e) takes its source start from `self.map(s, reverse)`, so points that `self` moves onto a destination range are handled at their images, not at themselves. | self {98..100 -> 50..52}, other {50..52 -> 0..2}, x = 50: other(self(50)) = 0, but the reduced map returns 50 | the doc comment's "x -> self -> other -> y into x -> new -> y": reduced.map(x) == other.map(self.map(x)) for every x | high (not executed) | RangeReduce.ReduceCounterexample | RangeCompose.ComposeMatchesChain |
| day3/src/main.rs:26-30 | the offset list holds `(1, 01)`, which is (1, 1) again, in place of (1, 0) | a symbol at (0, 0) with a number whose digit is at (1, 0): the number touches the symbol but is not summed | the eight neighbouring offsets, so every number touching a symbol is summed | high (not executed) | GearRatios.PartSumMissesBelow | GearRatios.AdjacentIdsMeaning |
