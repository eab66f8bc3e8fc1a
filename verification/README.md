# Advent of Code 2023 solutions, modelled in Dafny

This project models the puzzle solvers of a Rust Advent of Code 2023 repository, together with its shared `Range` type. Each solver reads its parsed input and computes a number.

- `range.dfy`: the inclusive integer interval of `src/range.rs`. It covers the subrange tests, overlap, adjacency and merging.
- `day1.dfy`: calibration values. Part 1 takes the first and last digit of a line. Part 2 also reads the spelled-out digit words, using `find`, `rfind`, `min_by_key` and `max_by_key`.
- `day2.dfy`: the cube game. It covers parsing a draw, deciding whether a game is possible for a bag, and the per-colour maximum fold of part 2.
- `day3.dfy`: the engine schematic. It covers the parsing of a line into cells, the lookup of the numbers adjacent to a symbol, the sum of part numbers, and the gear ratios.
- `day4.dfy`: scratch cards. Part 1 is the doubling score. Part 2 is the in-place update of the card counts.
- `day5.dfy`: seeds folded through a chain of almanac layers, the minimum over single seeds and over seed ranges, and the row-to-range conversion.
- `day7.dfy`: camel cards. It covers hand types from card counts, the joker upgrade table, the hand order, the stable sort and the bid winnings.
- `day8.dfy`: walking the left/right network, alone from `AAA` to `ZZZ` and as a group of ghosts.
- `day9.dfy`: extrapolating histories forwards and backwards through repeated differences.
- `day10.dfy`: pipe tiles, their connections inside the grid, the search for the start tile, and the checks of `identify_pipe`.
- `day11.dfy`: cosmic expansion. It covers the empty rows and columns, the expansion of the grid, the galaxy coordinates, and the pair distances with an expansion factor.
- `common.dfy`: an optional value, and the sum and minimum folds used by the solvers.

Each panic in the source is modelled as a value:
- `unwrap()` on `None`;
- an explicit `panic!`;
- an out-of-range index.

This value is a `None`, an error outcome, or a failure reason, so every error path is part of the model. Loops that mutate state are methods proved against specification functions:
- the count updates of day 4;
- the card tally of day 7;
- the walks of day 8.

Day 5's `source_contains` includes the value one past a row's source range. Part 2 also leaves out the last seed of each pair. The model keeps both behaviours as written. `Day5.SourceContainsOnePastEnd` and `Day5.PairSeeds` state them.

## Model

| member | source | states |
|---|---|---|
| Ranges.FromPair | src/range.rs:12-16 | the pair becomes the range's lower and upper bound unchanged |
| Ranges.Merge | src/range.rs:38-43 | the merged lower bound is the smaller of the two lower bounds and the upper bound the larger of the two upper bounds |
| Ranges.SubrangeInclusiveMeansPointInclusion | src/range.rs:19-21 | for a well-formed range, being an inclusive subrange holds exactly when every point of it is a point of the other |
| Ranges.SubrangeInclusiveReflexive | src/range.rs:19-21 | every range is an inclusive subrange of itself |
| Ranges.SubrangeInclusiveTransitive | src/range.rs:19-21 | inclusive subranges compose |
| Ranges.SubrangeExclusiveImpliesInclusive | src/range.rs:19-24 | an exclusive subrange is an inclusive one, and the relation is asymmetric |
| Ranges.OverlapCharacterised | src/range.rs:26-31 | for well-formed ranges, `overlap` holds exactly when each lower bound is at most the other upper bound, and exactly when the ranges share a point |
| Ranges.OverlapSymmetric | src/range.rs:26-31 | `overlap` does not depend on the order of its arguments |
| Ranges.OverlapOrAdjacentExtraCases | src/range.rs:33-35 | overlapping ranges are overlapping-or-adjacent, and the only other cases are ranges whose ends touch |
| Ranges.MergeCommutative | src/range.rs:38-43 | merging does not depend on the order of the arguments |
| Ranges.MergeContainsBoth | src/range.rs:38-43 | both ranges are inclusive subranges of their merge |
| Ranges.MergeIsUnion | src/range.rs:37-43 | under the stated assumption (overlapping or adjacent), the merge holds exactly the points of the two ranges |
| Ranges.MergeOfDisjointCoversGap | src/range.rs:37-43 | without that assumption the merge also covers points in neither range |
| Day1.FirstDigitFrom | src/bin/day1.rs:34-36 | the first ASCII digit at or after a position, `None` exactly when there is none |
| Day1.LastDigitBefore | src/bin/day1.rs:40-43 | the last ASCII digit before a position, `None` exactly when there is none |
| Day1.ParseLine | src/bin/day1.rs:33-48 | `None` (the `unwrap` panic) exactly when the line has no digit; otherwise `first` is the value of the first digit and `last` of the last |
| Day1.MatchWord | src/bin/day1.rs:54-68 | every accepted word maps to a value from 1 to 9 |
| Day1.MatchWordExactlyTokens | src/bin/day1.rs:54-75 | a word is accepted exactly when it is one of the 18 listed tokens; the digit `k` and the word for `k` both give `k` |
| Day1.MatchWordKnowsTokens | src/bin/day1.rs:72-78 | every listed token is accepted, so the `Illegal` panic cannot be reached from `parse_line_2` |
| Day1.Find | src/bin/day1.rs:81 | `str::find`: the first position at or after the start where the token occurs, `None` exactly when it does not occur |
| Day1.RFind | src/bin/day1.rs:90 | `str::rfind`: the last position where the token occurs, `None` exactly when it does not occur |
| Day1.Found | src/bin/day1.rs:79-81 | every entry is a listed token paired with its position |
| Day1.FoundComplete | src/bin/day1.rs:79-81 | every listed token that occurs appears in the list with its position |
| Day1.FoundEmpty | src/bin/day1.rs:79-83 | the list is empty only when no token occurs |
| Day1.MinByKey | src/bin/day1.rs:82 | `min_by_key`: an entry with the least position, the first such entry among ties |
| Day1.MaxByKey | src/bin/day1.rs:91 | `max_by_key`: an entry with the greatest position, the last such entry among ties |
| Day1.ParseNone | src/bin/day1.rs:70-96 | the part 2 parser fails exactly when no token starts anywhere in the line |
| Day1.ParseFirst | src/bin/day1.rs:78-85 | `first` is the value of a token starting at the earliest position where any token starts |
| Day1.ParseLast | src/bin/day1.rs:87-94 | `last` is the value of a token starting at the latest position where any token starts |
| Day1.ParseLine2Spec | src/bin/day1.rs:70-96 | the same three facts for `parse_line_2` with its own token list |
| Day1.TokensNeverShareAStart | src/bin/day1.rs:72-75 | two listed tokens occurring at the same position are the same token, so ties in the min/max never depend on list order |
| Day1.TokensPrefixFree | src/bin/day1.rs:72-75 | two listed tokens agreeing in their first two characters are equal |
| Day1.TokensAreDigitsAndWords | src/bin/day1.rs:72-75 | the token list is the nine digits followed by the nine lower-case words |
| Day1.TokensAreDigits | src/bin/day1.rs:72-75 | on a line that spells no digit out and holds no `0`, a token starts exactly where a digit stands, and that token is the digit itself |
| Day1.NoLowercaseNoWord | src/bin/day1.rs:72-75 | a line without lower-case letters spells no digit out |
| Day1.WordsStartWithAPair | src/bin/day1.rs:72-75 | every listed word has at least three letters and starts with one of nine letter pairs |
| Day1.NoWordByPairs | src/bin/day1.rs:72-75 | a line in which none of those pairs occurs spells no digit out |
| Day1.NoTokenAtBlank | src/bin/day1.rs:72-94 | no listed token starts at a position that holds no digit and does not begin one of the pairs |
| Day1.FirstTokenIsFirstDigit | src/bin/day1.rs:33-85 | on such a line the part 2 `first` is the part 1 `first` |
| Day1.LastTokenIsLastDigit | src/bin/day1.rs:40-94 | on such a line the part 2 `last` is the part 1 `last` |
| Day1.PartsAgreeWithoutWords | src/bin/day1.rs:33-96 | on such a line both parsers give the same result, whatever other letters it holds, for any token list of digits and words |
| Day1.ParseLine2AgreesWithoutWords | src/bin/day1.rs:33-96 | on such a line `parse_line_2` and `parse_line` agree |
| Day1.CalibrationValue | src/bin/day1.rs:106 | formatting the two digits side by side and parsing them gives `10 * first + last`, between 0 and 99 |
| Day1.Calibrations | src/bin/day1.rs:103-108 | one calibration value per line, in order |
| Day1.ParseLines | src/bin/day1.rs:50-52 | `parse_input` and `parse_input_2`: `None` (the panic) exactly when some line does not parse; otherwise one input per line, in order, each the parse of its line |
| Day1.ParseLinesOf | src/bin/day1.rs:50-52 | lines that each parse give, together, their inputs in order |
| Day1.SolveByValues | src/bin/day1.rs:103-108 | the answer is the sum of the lines' calibration values `10 * first + last` |
| Day1.ExampleSingleDigit | src/bin/day1.rs:33-48 | `treb7uchet` gives first and last digit 7 and the value 77 |
| Day1.ExampleTwoDigits | src/bin/day1.rs:33-48 | `pqr3stu8vwx` gives 3 and 8 |
| Day1.ExampleWords | src/bin/day1.rs:33-96 | `two1nine` starts with 2 in part 2 but with 1 in part 1 |
| Day1.FirstIsAt | src/bin/day1.rs:78-85 | a listed token occurring at a position before which no token can start gives part 2's first digit |
| Day1.LastIsAt | src/bin/day1.rs:87-94 | a listed token occurring at a position after which no token can start gives part 2's last digit |
| Day1.ParseLine2Between | src/bin/day1.rs:70-96 | those two tokens fix the whole result of `parse_line_2` |
| Day1.TokenValueIs | src/bin/day1.rs:54-75 | the token at index `k` of the list is worth `k % 9 + 1` |
| Day1.ExampleSingleDigitBothParts | src/bin/day1.rs:33-96 | `treb7uchet` has letters but spells no digit out, and both parts read it as 77 |
| Day1.ExampleOuterDigits | src/bin/day1.rs:33-48 | `1abc2` gives 1 and 2 |
| Day1.ExampleManyDigits | src/bin/day1.rs:33-48 | `a1b2c3d4e5f` gives 1 and 5, skipping the digits between |
| Day1.ExamplePart1 | src/bin/day1.rs:122-128 | the four published part 1 lines parse to 12, 38, 15 and 77 and give 142 |
| Day1.ExamplePart1Sum | src/bin/day1.rs:103-108 | those four inputs add up to 142 |
| Day1.ExampleTwoOneNine | src/bin/day1.rs:70-96 | `two1nine` gives 2 and 9 |
| Day1.ExampleOverlapFirst | src/bin/day1.rs:70-96 | `eightwothree` gives 8 and 3: of two overlapping words the earlier one starts the line |
| Day1.ExampleWordsAround | src/bin/day1.rs:70-96 | `abcone2threexyz` gives 1 and 3 |
| Day1.ExampleOverlapInside | src/bin/day1.rs:70-96 | `xtwone3four` gives 2 and 4 |
| Day1.ExampleDigitsOutside | src/bin/day1.rs:70-96 | `4nineeightseven2` gives 4 and 2: the outer digits win over the words between them |
| Day1.ExampleWordThenDigits | src/bin/day1.rs:70-96 | `zoneight234` gives 1 and 4 |
| Day1.ExampleWordInsideWord | src/bin/day1.rs:70-96 | `7pqrstsixteen` gives 7 and 6: `six` is found inside `sixteen` |
| Day1.ExamplePart2 | src/bin/day1.rs:130-136 | the seven published part 2 lines parse to 29, 83, 13, 24, 42, 14 and 76 and give 281 |
| Day1.ExamplePart2Sum | src/bin/day1.rs:110-115 | those seven inputs add up to 281 |
| Day1.ExamplePart2Lines | src/bin/day1.rs:70-96 | each published part 2 line parses to its first and last digit, spelled or not |
| Day2.FirstOfColour | src/bin/day2.rs:87-107 | the `find_map` for one colour: the count of the first cube of that colour, `None` (read as 0) exactly when the draw has none |
| Day2.ParseGame | src/bin/day2.rs:81-110 | `None` (the panic) exactly when a draw lists more than three cubes; otherwise each colour's count is the first listed count of that colour, or 0 |
| Day2.PossibleIds | src/bin/day2.rs:135-150 | a game contributes its id exactly when all of its draws fit in the bag, and 0 otherwise |
| Day2.Max | src/bin/day2.rs:158 | the larger of the two counts |
| Day2.MaxFold | src/bin/day2.rs:157-159 | per colour, every draw is at most the fold and the fold is 0 or one of the draws' counts |
| Day2.Powers | src/bin/day2.rs:152-162 | one power per game: the product of the fewest cubes of each colour |
| Day2.MaxFoldIsSmallestBag | src/bin/day2.rs:131-159 | a game is possible with a bag exactly when the per-colour maximum of its draws fits in the bag |
| Day2.MaxFoldAdmitsGame | src/bin/day2.rs:131-159 | the per-colour maximum is itself a bag with which the game is possible |
| Day2.PossibleMonotone | src/bin/day2.rs:131-150 | a bigger bag keeps every possible game possible and never lowers part 1 |
| Day2.EmptyGame | src/bin/day2.rs:142-157 | a game without draws is possible with any bag and has power 0 |
| Day2.Part1Bounds | src/bin/day2.rs:135-150 | part 1 is at most the sum of all ids, with equality when every game is possible |
| Day2.ExampleParse | src/bin/day2.rs:81-110 | `3 blue, 4 red` gives 4 red, 0 green, 3 blue |
| Day2.ExampleParseTooMany | src/bin/day2.rs:83-85 | four cubes in one draw panic |
| Day2.ExampleGames | src/bin/day2.rs:170-179 | the five published games with a bag of 12 red, 13 green, 14 blue give 8 |
| Day2.ExamplePowers | src/bin/day2.rs:183-187 | the same games give a sum of powers of 2286 |
| Day4.GetWinningNumberCount | src/bin/day4.rs:88-96 | the count is at most the number of winning numbers; 0 exactly when none of them is ours, all of them exactly when every one is |
| Day4.MatchesIn | src/bin/day4.rs:89-95 | the same bounds and both extremes for the fold over any prefix |
| Day4.PointsFoldValue | src/bin/day4.rs:71-81 | the doubling fold from any accumulator ends at the accumulator times a power of two fixed by the number of matches |
| Day4.PointsValue | src/bin/day4.rs:70-82 | a card is worth 0 without matches and `2^(n-1)` with `n` matches |
| Day4.Part1ByMatchCounts | src/bin/day4.rs:84-86 | part 1 depends on the cards only through their match counts |
| Day4.ProcessCard | src/bin/day4.rs:103-110 | processing one card keeps the number of cards |
| Day4.ProcessCardChangesOnlyTargets | src/bin/day4.rs:103-110 | processing card `i` with `w` matches adds card `i`'s copies to cards `i+1 .. i+w` and changes no other card |
| Day4.CountsAfter | src/bin/day4.rs:99-113 | the counts after any number of cards have one entry per card |
| Day4.ApplyCard | src/bin/day4.rs:102-111 | one turn of the fold updates the counts in place to exactly the processed counts, with or without matches |
| Day4.AddCopies | src/bin/day4.rs:103-110 | the inner loop updates the counts in place to exactly the processed counts; targets past the last card are skipped |
| Day4.ProcessCardFrom | src/bin/day4.rs:104-109 | an in-place result agreeing entry by entry with the update is that update |
| Day4.SolvePart2 | src/bin/day4.rs:98-115 | the in-place fold over all cards returns the sum of the counts after every card has been processed |
| Day4.CountsAtLeastOne | src/bin/day4.rs:100-110 | every card is always held at least once |
| Day4.CountFixedAfterItsTurn | src/bin/day4.rs:101-110 | a card's count never changes after its own turn, since cards only hand copies forward |
| Day4.TotalAtLeastCards | src/bin/day4.rs:98-115 | part 2 is at least the number of cards |
| Day4.ExamplePoints | src/bin/day4.rs:122-126 | the published cards, with match counts 4, 2, 2, 1, 0, 0, score 13 |
| Day4.ExampleCopies | src/bin/day4.rs:130-134 | the same cards end with 1, 2, 4, 8, 14 and 1 copies, 30 in all |
| Day4.MatchesInStep | src/bin/day4.rs:89-95 | one more winning number adds one match exactly when it is among our numbers |
| Day4.MatchesOfFive | src/bin/day4.rs:89-95 | five winning numbers give as many matches as of them are among our numbers |
| Day4.ExampleCardMatches | src/bin/day4.rs:88-96 | a card with five winning numbers, `n` of them ours, has `n` matches |
| Day4.WinsOfSix | src/bin/day4.rs:84-86 | the match counts of six cards are listed card by card in order |
| Day4.ExampleCard1 | src/bin/day4.rs:88-96 | the first published card, with winning numbers 41 48 83 86 17, has 4 matches |
| Day4.ExampleCard2 | src/bin/day4.rs:88-96 | the second published card has 2 matches |
| Day4.ExampleCard3 | src/bin/day4.rs:88-96 | the third published card has 2 matches |
| Day4.ExampleCard4 | src/bin/day4.rs:88-96 | the fourth published card has 1 match |
| Day4.ExampleCard5 | src/bin/day4.rs:88-96 | the fifth published card has no match |
| Day4.ExampleCard6 | src/bin/day4.rs:88-96 | the sixth published card has no match |
| Day4.ExampleByMatchCounts | src/bin/day4.rs:84-115 | any cards with match counts 4, 2, 2, 1, 0, 0 score 13 in part 1 and end with 30 cards in part 2 |
| Day4.ExampleCards | src/bin/day4.rs:121-135 | the six published cards, written out number by number, have match counts 4, 2, 2, 1, 0, 0, score 13 and end with 30 cards |
| Day5.GetDestination | src/bin/day5.rs:24-26 | the offset of the value from the source start is kept from the destination start |
| Day5.FindRow | src/bin/day5.rs:103-105 | the index of the first row whose source contains the value, `None` exactly when no row does |
| Day5.ApplyLayerFirstMatch | src/bin/day5.rs:102-108 | a layer translates a value by its first matching row |
| Day5.ApplyLayerNoMatch | src/bin/day5.rs:107 | a value no row contains passes through a layer unchanged |
| Day5.EmptyChainIsIdentity | src/bin/day5.rs:101-109 | with no layers a seed is its own location |
| Day5.ChainComposes | src/bin/day5.rs:101-109 | folding through two chains one after the other is folding through their concatenation |
| Day5.LastLayerAppliedLast | src/bin/day5.rs:101-109 | the last layer is applied to the location given by the layers before it |
| Day5.Locations | src/bin/day5.rs:112-115 | one location per seed, in order |
| Day5.SolvePart1 | src/bin/day5.rs:111-118 | `None` (the `unwrap` panic) exactly when there are no seeds; otherwise a location of some seed that no seed's location is below |
| Day5.PairSeeds | src/bin/day5.rs:126 | every seed tried for a pair lies from its start up to, but not including, its last seed |
| Day5.PairSeedsComplete | src/bin/day5.rs:126 | every such seed is tried |
| Day5.Part2SeedsMembership | src/bin/day5.rs:121-128 | part 2 tries exactly the seeds lying in the range of some `(start, length)` pair |
| Day5.SolvePart2Spec | src/bin/day5.rs:120-131 | `None` (the panic) exactly when every pair has length at most 1; otherwise a location of a tried seed that no tried seed's location is below |
| Day5.Unmapped | src/bin/day5.rs:140-145 | source and destination are the same range from `start` to `end` |
| Day5.FromRow | src/bin/day5.rs:148-159 | the ranges start at the row's starts and have equal spans; for a row of length at least one they are well formed and the source holds exactly the row's `length` values |
| Day5.RowTranslatesRange | src/bin/day5.rs:20-26 | a value in the row's source range is matched by the row and lands in its destination range |
| Day5.SourceContainsOnePastEnd | src/bin/day5.rs:20-22 | the row also matches the value just past its source range, which lands just past its destination range |
| Day5.LocationStep | src/bin/day5.rs:101-109 | the fold from layer `k` on applies layer `k` first |
| Day5.LocationThroughSeven | src/bin/day5.rs:101-109 | seven layers are applied one after the other, the first layer first |
| Day5.ExampleThroughLayers | src/bin/day5.rs:101-109 | the published almanac's location, layer by layer from seed-to-soil to humidity-to-location |
| Day5.ExampleSeed14 | src/bin/day5.rs:101-109 | seed 14 of the published example reaches location 43 |
| Day5.ExampleSeed13 | src/bin/day5.rs:101-109 | seed 13 reaches location 35 |
| Day5.ExampleFirstPairToLight | src/bin/day5.rs:101-109 | the first four layers move seeds 79 to 91 down by 5 |
| Day5.ExampleFirstPairFromLight | src/bin/day5.rs:101-109 | the last three layers send lights 77 to 86 down by 31 and lights 74 to 76 up by 8 |
| Day5.ExampleFirstPair | src/bin/day5.rs:101-109 | seeds 82 to 91 end at 46 to 55, seeds 79 to 81 at 82 to 84 |
| Day5.ExampleSecondPairToLight | src/bin/day5.rs:101-109 | the first four layers move seeds 55 to 59 down by 9 and seeds 60 to 66 down by 5 |
| Day5.ExampleSecondPairFromLight | src/bin/day5.rs:101-109 | the last three layers send lights 46 to 57 up by 40 and lights 58 to 61 down by 1 |
| Day5.ExampleSecondPair | src/bin/day5.rs:101-109 | seeds 55 to 66 all end at 57 or beyond |
| Day5.SolvePart1Attains | src/bin/day5.rs:111-118 | a location some seed reaches, below no seed's location, is the answer of part 1 |
| Day5.SolvePart1OfFour | src/bin/day5.rs:111-118 | part 1 over four seeds is the least of their locations |
| Day5.ExamplePart1 | src/bin/day5.rs:221-227 | on the published almanac and seeds `79 14 55 13` part 1 gives 35, the location of seed 13 |
| Day5.SolvePart2Attains | src/bin/day5.rs:120-131 | a location some tried seed reaches, below every tried seed's location, is the answer of part 2 |
| Day5.ExamplePairs | src/bin/day5.rs:121-128 | on the published seeds part 2 tries exactly seeds 79 to 91 and 55 to 66 |
| Day5.ExamplePairsBound | src/bin/day5.rs:120-131 | every seed it tries ends at 46 or beyond |
| Day5.ExamplePart2 | src/bin/day5.rs:229-235 | part 2 on the published example gives 46, reached by seed 82, although the last seed of each pair is never tried |
| Day9.FindDifferences | src/bin/day9.rs:49-55 | one entry fewer than the history (none for an empty one), each the difference of two neighbours |
| Day9.AllZeroGivesZero | src/bin/day9.rs:58-73 | an all-zero history extrapolates to 0 in both directions |
| Day9.RecursionShrinks | src/bin/day9.rs:60-62 | the recursion only happens on a non-empty history and on a strictly shorter one, so `unwrap` never panics |
| Day9.ConstantExtrapolates | src/bin/day9.rs:57-79 | a constant history extrapolates to the constant in both directions |
| Day9.ArithmeticExtrapolates | src/bin/day9.rs:57-79 | an arithmetic history continues by its step in both directions |
| Day9.DifferencesOfNegation | src/bin/day9.rs:49-55 | the differences of a negated history are the negated differences |
| Day9.DifferencesOfReverse | src/bin/day9.rs:49-55 | the differences of a reversed history are the reversed differences, negated |
| Day9.NextOfNegation | src/bin/day9.rs:57-65 | extrapolating a negated history gives the negated value |
| Day9.PreviousIsNextOfReverse | src/bin/day9.rs:57-79 | extrapolating backwards is extrapolating the reversed history forwards |
| Day9.Part2IsPart1OfReversed | src/bin/day9.rs:67-83 | part 2 is part 1 on the reversed histories |
| Day9.NextNumbers | src/bin/day9.rs:68 | one forward extrapolation per history, in order |
| Day9.PreviousNumbers | src/bin/day9.rs:82 | one backward extrapolation per history, in order |
| Day9.ExampleFirstHistory | src/bin/day9.rs:57-79 | `0 3 6 9 12 15` extends to 18 and back to -3 |
| Day9.ExampleSecondHistory | src/bin/day9.rs:57-79 | `1 3 6 10 15 21` extends to 28 and back to 0 |
| Day9.ExampleThirdHistory | src/bin/day9.rs:57-79 | `10 13 16 21 30 45` extends to 68 and back to 5 |
| Day9.ExamplePart1 | src/bin/day9.rs:90-94 | the three published histories give 114 |
| Day9.ExamplePart2 | src/bin/day9.rs:98-102 | the same histories give 2 |
| Day7.Rank | src/bin/day7.rs:11-26 | each card's position in the derived order, one of 13 |
| Day7.Rank2 | src/bin/day7.rs:49-65 | each card's position in the part 2 order, one of 13 |
| Day7.CardFromCharExactlyLabels | src/bin/day7.rs:28-47 | a character is read as a card exactly when it is one of the 13 labels, and reading and writing a label are inverse |
| Day7.Card2Order | src/bin/day7.rs:49-85 | both orders are strict on distinct cards; the conversion keeps the order of every card but `J`, which moves from between `Q` and `T` to the weakest place |
| Day7.TypeRank | src/bin/day7.rs:155-164 | each hand type's position in the derived order, one of 7 |
| Day7.TypeRankInjective | src/bin/day7.rs:155-164 | distinct hand types have distinct positions |
| Day7.Tally | src/bin/day7.rs:221-224 | the count map has a key exactly for each card in the hand, mapped to its number of occurrences, at least 1 |
| Day7.HandTypeFromTally | src/bin/day7.rs:219-244 | the hand type is computed from the count map itself: its keys are the hand's distinct cards, its entry for the first card is that card's count, its largest value is the largest count |
| Day7.CountCards | src/bin/day7.rs:221-224 | the loop that fills the map in place gives the same keys and counts |
| Day7.MaxCountOf | src/bin/day7.rs:233 | the largest count among the given cards, attained by one of them |
| Day7.CountsSumToSize | src/bin/day7.rs:221-224 | the counts over all distinct cards add up to the hand size |
| Day7.GroupFacts | src/bin/day7.rs:221-243 | the distinct cards of a hand, their counts between 1 and the largest count, summing to the hand size |
| Day7.ClassifyAnyPick | src/bin/day7.rs:227-230 | with two distinct cards, whichever count `values().next()` happens to return selects the same type, so the map's iteration order never matters |
| Day7.HandTypeByLargestGroup | src/bin/day7.rs:219-244 | for a five-card hand the type never panics and is fixed by the number of distinct cards and the largest group |
| Day7.HandTypePermutationInvariant | src/bin/day7.rs:219-244 | the type does not depend on the order of the cards |
| Day7.SameMaxCount | src/bin/day7.rs:233 | the largest group does not depend on the order of the cards |
| Day7.NonJokersCounts | src/bin/day7.rs:263-264 | the hand without its jokers keeps every other card with its full count, and its length drops by the joker count |
| Day7.NonJokersMembers | src/bin/day7.rs:263-264 | a card remains exactly when it was in the hand and is not a joker |
| Day7.MaxCountWithJokers | src/bin/day7.rs:261-290 | the largest group of a hand with jokers is the larger of the joker count and the largest group of the other cards |
| Day7.Part2JokersJoinLargestGroup | src/bin/day7.rs:261-290 | the part 2 type never panics on five cards and equals the type obtained by adding the jokers to the largest group of the other cards |
| Day7.Part2WithoutJokers | src/bin/day7.rs:264-266 | without jokers part 2 keeps the part 1 type |
| Day7.Part2WithJokers | src/bin/day7.rs:267-289 | with jokers the upgrade table gives the jokers-join-the-largest-group type |
| Day7.UpgradeNeverWeakens | src/bin/day7.rs:267-289 | every entry of the upgrade table is at least as strong as the base type |
| Day7.JokersNeverWeaken | src/bin/day7.rs:261-290 | the part 2 type of a hand is never weaker than its part 1 type, and equal without jokers |
| Day7.Key | src/bin/day7.rs:111-119 | a hand's sort key is its type position followed by its card positions |
| Day7.HandOrderIsKeyOrder | src/bin/day7.rs:111-119 | comparing hands is comparing their keys lexicographically |
| Day7.CompareRanksIsLexLess | src/bin/day7.rs:118 | `Vec::cmp` says less exactly for the lexicographic order with a proper prefix first |
| Day7.CompareRanksFlip | src/bin/day7.rs:118 | swapping the arguments flips the result |
| Day7.CompareRanksEqual | src/bin/day7.rs:118 | equal exactly for equal sequences |
| Day7.CompareRanksTransitive | src/bin/day7.rs:118 | the comparison is transitive |
| Day7.CompareHandsEqual | src/bin/day7.rs:94-119 | hands compare equal exactly when type and cards agree, as `eq` says |
| Day7.CompareHandsFlip | src/bin/day7.rs:111-119 | the hand order is antisymmetric |
| Day7.CompareHandsTransitive | src/bin/day7.rs:111-119 | the hand order is transitive, so `sorted()` is well defined |
| Day7.Insert | src/bin/day7.rs:254 | inserting a hand adds exactly that hand |
| Day7.Sort | src/bin/day7.rs:254 | sorting is a permutation |
| Day7.InsertSorted | src/bin/day7.rs:254 | inserting into a sorted list keeps it sorted |
| Day7.SortSorted | src/bin/day7.rs:254 | the result of sorting is sorted |
| Day7.Ties | src/bin/day7.rs:254 | the hands of a list that compare equal to a given hand, in order |
| Day7.InsertTies | src/bin/day7.rs:254 | insertion places a hand after every hand it ties with |
| Day7.SortStable | src/bin/day7.rs:254 | `sorted()` is stable: hands that compare equal keep their input order |
| Day7.SortedPermutationUnique | src/bin/day7.rs:254 | when no two hands compare equal, there is only one sorted permutation |
| Day7.SortIsTheSortedPermutation | src/bin/day7.rs:254 | so the sort equals any sorted permutation of its input |
| Day7.Reverse | src/bin/day7.rs:255 | `rev()`: the entries in reverse order |
| Day7.ReversePermutation | src/bin/day7.rs:255 | reversing is a permutation |
| Day7.SortedReversedIsWeakestFirst | src/bin/day7.rs:254-255 | after `sorted().rev()` the weakest hand comes first and every hand is kept |
| Day7.RankingIsUnique | src/bin/day7.rs:254-255 | when no two hands compare equal, any weakest-first permutation is that ranking |
| Day7.Ranks | src/bin/day7.rs:251 | the cards' positions, in order |
| Day7.Ranks2 | src/bin/day7.rs:297 | the cards' part 2 positions, in order |
| Day7.Part1RanksWeakestFirst | src/bin/day7.rs:246-259 | part 1 weights the bids by the weakest-first ranking of the hands, and equals the winnings of any such ranking when no two hands tie |
| Day7.Part2RanksWeakestFirst | src/bin/day7.rs:292-305 | the same for part 2 with the joker types and order |
| Day7.Part2HandsNeverWeaker | src/bin/day7.rs:292-305 | every part 2 hand has the jokers-join type, never weaker than its part 1 type |
| Day7.DistinctCardsNeverTie | src/bin/day7.rs:94-119 | hands with pairwise different cards never compare equal |
| Day7.ExampleHand0 | src/bin/day7.rs:219-244 | `32T3K` is one pair |
| Day7.ExampleHand0Jokers | src/bin/day7.rs:261-290 | `32T3K` is one pair with jokers |
| Day7.ExampleHand1 | src/bin/day7.rs:219-244 | `T55J5` is three of a kind |
| Day7.ExampleHand1Jokers | src/bin/day7.rs:261-290 | `T55J5` is four of a kind with jokers |
| Day7.ExampleHand2 | src/bin/day7.rs:219-244 | `KK677` is two pair |
| Day7.ExampleHand2Jokers | src/bin/day7.rs:261-290 | `KK677` is two pair with jokers |
| Day7.ExampleHand3 | src/bin/day7.rs:219-244 | `KTJJT` is two pair |
| Day7.ExampleHand3Jokers | src/bin/day7.rs:261-290 | `KTJJT` is four of a kind with jokers |
| Day7.ExampleHand4 | src/bin/day7.rs:219-244 | `QQQJA` is three of a kind |
| Day7.ExampleHand4Jokers | src/bin/day7.rs:261-290 | `QQQJA` is four of a kind with jokers |
| Day7.ExampleHands | src/bin/day7.rs:246-253 | the published hands with their types, card positions and bids |
| Day7.ExampleRanking | src/bin/day7.rs:254-258 | the published hands rank `32T3K`, `KTJJT`, `KK677`, `T55J5`, `QQQJA` from the weakest |
| Day7.ExampleRanking2 | src/bin/day7.rs:300-304 | with jokers they rank `32T3K`, `KK677`, `T55J5`, `QQQJA`, `KTJJT` from the weakest |
| Day7.ExamplePart1 | src/bin/day7.rs:312-316 | the published hands give 6440 |
| Day7.ExamplePart2 | src/bin/day7.rs:320-324 | the published hands give 5905 with jokers |
| Day11.EmptyIndices | src/bin/day11.rs:59-64 | the indices of the all-space lines, increasing, and exactly those |
| Day11.FindEmptyRows | src/bin/day11.rs:58-65 | the empty rows in increasing order: a row is listed exactly when every point in it is space |
| Day11.Transpose | src/bin/day11.rs:68 | on a rectangular grid, the transpose has one line per column and swaps the indices |
| Day11.FindEmptyCols | src/bin/day11.rs:67-74 | the empty columns in increasing order: a column is listed exactly when every row has space there |
| Day11.ExpandRow | src/bin/day11.rs:85-95 | a row grows by one point for every listed column inside it |
| Day11.ExpandRows | src/bin/day11.rs:81-102 | the grid grows by one row for every listed row inside it |
| Day11.ExpandRowAt | src/bin/day11.rs:85-95 | point `c` lands at its shifted index, and a listed column is followed by its copy |
| Day11.ExpandRowCovers | src/bin/day11.rs:85-95 | every point of the expanded row is some original point at its shifted index or its copy |
| Day11.ExpandRowsAt | src/bin/day11.rs:81-102 | row `r` lands expanded at its shifted index, and a listed row is followed by its copy |
| Day11.ExpandRowsCovers | src/bin/day11.rs:81-102 | every row of the expanded grid is some expanded original row at its shifted index or its copy |
| Day11.ExpandRowsKeepsPoints | src/bin/day11.rs:76-104 | every original point is found at its shifted row and column, doubled where its row or column was empty |
| Day11.ExpandSize | src/bin/day11.rs:76-104 | expanding a rectangular grid adds one row per empty row and one column per empty column and keeps it rectangular |
| Day11.DupIsCountBelow | src/bin/day11.rs:89-97 | the shift of an index is the number of listed indices below it, for an increasing list |
| Day11.ShiftOfIncreasing | src/bin/day11.rs:76-104 | a size grows by the number of listed indices below it |
| Day11.GalaxyCols | src/bin/day11.rs:110-116 | the galaxy columns of a row, increasing, and exactly those |
| Day11.Galaxies | src/bin/day11.rs:106-120 | the galaxy coordinates in row-major order, and exactly the cells holding a galaxy |
| Day11.GalaxiesSnoc | src/bin/day11.rs:106-120 | a further row adds its galaxies after the others |
| Day11.GalaxyColsOfExpandRow | src/bin/day11.rs:85-120 | when the listed columns are space, the galaxies of an expanded row are the shifted galaxies of the row |
| Day11.GalaxiesOfExpandRows | src/bin/day11.rs:81-120 | when the listed rows and columns are space, the galaxies of the expanded grid are the shifted galaxies, in order |
| Day11.GalaxiesOfExpand | src/bin/day11.rs:76-120 | the galaxies after `expand` are exactly the original galaxies shifted by the empty rows and columns below them |
| Day11.GalaxiesAvoidEmptyLines | src/bin/day11.rs:58-120 | no galaxy lies in an empty row or column |
| Day11.ShiftCoords | src/bin/day11.rs:76-104 | every coordinate shifted by the listed rows and columns below it |
| Day11.BetweenSymmetricAndStrict | src/bin/day11.rs:135-141 | `row_between` and `col_between` do not depend on the order of the two galaxies and exclude both ends |
| Day11.ShiftDistance | src/bin/day11.rs:143-166 | shifting two unlisted indices moves them apart by the number of listed indices strictly between them |
| Day11.ShiftedDistance | src/bin/day11.rs:143-166 | the distance of two shifted galaxies is their distance plus one per empty line crossed |
| Day11.CountBetweenSymmetric | src/bin/day11.rs:135-141 | the number of listed indices between two values does not depend on their order |
| Day11.Widened | src/bin/day11.rs:150-165 | the part 2 distance of every pair: the Manhattan distance plus the crossed empty lines times the extra width |
| Day11.LastPairs | src/bin/day11.rs:124-149 | the distances from every earlier galaxy to the last, in order |
| Day11.PairSumAgree | src/bin/day11.rs:126-130 | two pair sums agree when their distances agree pair by pair |
| Day11.SolvePart1 | src/bin/day11.rs:122-133 | `None` (the panic) exactly when the expanded rows differ in length |
| Day11.Part1NeverPanics | src/bin/day11.rs:122-133 | on a rectangular grid part 1 never panics and sums the Manhattan distances of all galaxy pairs of the expanded grid |
| Day11.WidenedIsShifted | src/bin/day11.rs:143-166 | summing the part 2 distances with one extra width is summing the distances of the shifted galaxies |
| Day11.WidenedByNothing | src/bin/day11.rs:143-166 | with no extra width the part 2 distance is the plain distance |
| Day11.Part2MatchesPart1 | src/bin/day11.rs:122-166 | part 2 with expansion 2 is part 1 |
| Day11.Part2WithoutExpansion | src/bin/day11.rs:143-166 | part 2 with expansion 1 sums the plain distances of the unexpanded galaxies |
| Day11.CrossedBy | src/bin/day11.rs:154-158 | the number of empty lines each pair crosses |
| Day11.PairSumLinear | src/bin/day11.rs:143-166 | the sum of widened distances is the plain sum plus the extra width times the total crossings |
| Day11.Part2Linear | src/bin/day11.rs:143-166 | part 2 grows linearly in `expansion - 1` |
| Day11.Part2TestValuesAgree | src/bin/day11.rs:188-202 | values of 374 at expansion 2 and 1030 at expansion 10 force 8410 at expansion 100, the three values the tests assert |
| Day3.DigitRun | src/bin/day3.rs:62 | the length of the leading run of digits that `parse_number` consumes |
| Day3.DecimalLength | src/bin/day3.rs:63 | `x.to_string().len()` is at least 1 |
| Day3.DecimalLengthBetween | src/bin/day3.rs:63 | a number from `10^(k-1)` up to `10^k` has `k` decimal digits |
| Day3.DigitsValueBetween | src/bin/day3.rs:62-63 | a digit string without a leading zero has a value from `10^(k-1)` up to `10^k` |
| Day3.PartCells | src/bin/day3.rs:61-73 | a number becomes as many cells as its decimal representation has digits |
| Day3.PartCellsShape | src/bin/day3.rs:63-70 | the first cell is the head holding the value and cell `i` is a tail at offset `i` |
| Day3.ParsePart | src/bin/day3.rs:61-73 | succeeds exactly on a leading digit and consumes the whole run of digits |
| Day3.ParseEmpty | src/bin/day3.rs:57-59 | succeeds exactly on a leading `.` |
| Day3.ParseSymbol | src/bin/day3.rs:53-55 | succeeds exactly on a leading character that is neither a digit nor `.` |
| Day3.ParseElement | src/bin/day3.rs:75-77 | fails only on the empty string and otherwise consumes a non-empty prefix |
| Day3.ParseElementByFirstChar | src/bin/day3.rs:75-77 | the first character alone picks the branch of `alt`: a number, an empty cell or a symbol |
| Day3.ParseLine | src/bin/day3.rs:79-83 | `many1` fails exactly on an empty line |
| Day3.ParseElementsTailsResolve | src/bin/day3.rs:61-83 | in a parsed line every tail points back at a head in the same line |
| Day3.ParseElementsLength | src/bin/day3.rs:61-83 | a parsed line never has more cells than characters, and as many when no number has a leading zero |
| Day3.PartCellsPerDigit | src/bin/day3.rs:61-73 | a number without a leading zero takes one cell per digit |
| Day3.DecimalLengthAtMostRun | src/bin/day3.rs:61-73 | a number never takes more cells than it has digits |
| Day3.ParseInput | src/bin/day3.rs:85-90 | `None` (the error) exactly when some line is empty; otherwise one parsed line per input line |
| Day3.Step | src/bin/day3.rs:100 | one candidate neighbour, present exactly when it lies inside the grid |
| Day3.Neighbours | src/bin/day3.rs:100 | the neighbours of a cell: exactly the cells inside the grid that touch it, diagonals included |
| Day3.Resolve | src/bin/day3.rs:102-114 | a resolved head is a head in the same row at or left of the neighbour |
| Day3.ResolveSpec | src/bin/day3.rs:103-114 | a cell outside the grid panics; a head resolves to itself; a tail resolves to the head its offset points at, and panics when the offset leaves the row or misses a head; other cells give nothing |
| Day3.CollectHeadsSpec | src/bin/day3.rs:101-115 | the `filter_map` panics exactly when some neighbour panics, and otherwise lists exactly the heads the neighbours resolve to |
| Day3.Unique | src/bin/day3.rs:116 | `unique()`: no repeats, the same members, no longer than its input |
| Day3.GetAdjacentPartsSpec | src/bin/day3.rs:93-118 | panics exactly when some neighbour panics; otherwise the distinct heads of the numbers touching the cell, and exactly those |
| Day3.CellsWhere | src/bin/day3.rs:124-131 | the coordinates of the cells satisfying a test, exactly those |
| Day3.SymbolsListed | src/bin/day3.rs:124-136 | the symbol cells are exactly the cells holding a symbol |
| Day3.FlattenSpec | src/bin/day3.rs:137 | flattening panics when any part panicked, and otherwise holds exactly the members of the parts |
| Day3.AdjacentEach | src/bin/day3.rs:133 | the adjacent parts of each symbol, in order |
| Day3.AdjacentEachSpec | src/bin/day3.rs:123-139 | the collection over the symbols panics exactly when one of them does, and otherwise holds exactly the heads near some symbol |
| Day3.Values | src/bin/day3.rs:142-147 | the value of each listed cell, in order |
| Day3.HeadValuesSpec | src/bin/day3.rs:142-147 | reading the values panics exactly when some listed cell is not a head |
| Day3.Part1Spec | src/bin/day3.rs:120-149 | `None` (a panic) exactly for an empty grid or a panic near a symbol; otherwise the sum of the values of the distinct numbers touching a symbol |
| Day3.SumValuesSameMembers | src/bin/day3.rs:140-148 | the sum over a list without repeats depends only on its members, so the order `unique()` leaves does not matter |
| Day3.Part1Value | src/bin/day3.rs:120-149 | part 1 equals the sum over any repeat-free list of exactly the numbers touching a symbol |
| Day3.RatioOfSpec | src/bin/day3.rs:165-172 | exactly two distinct heads give the product of their values, any other count gives 0 |
| Day3.TwoDistinct | src/bin/day3.rs:165-166 | a repeat-free list holding exactly two given heads is those two in some order |
| Day3.GearRatioSpec | src/bin/day3.rs:162-174 | a `*` panics exactly when a neighbour panics; with exactly two numbers touching it, it gives their product, otherwise 0 |
| Day3.SumAllSpec | src/bin/day3.rs:176-178 | the sum panics when any term panicked and otherwise adds the present terms |
| Day3.GearRatios | src/bin/day3.rs:161-175 | the gear value of each `*`, in order |
| Day3.GearRatiosSpec | src/bin/day3.rs:151-179 | the gear sum panics exactly when some `*` does |
| Day3.Part2Spec | src/bin/day3.rs:151-179 | `None` (a panic) exactly for an empty grid or a panic near a `*`; otherwise the sum of the gear values over exactly the `*` cells |
| Day3.NoPanicNear | src/bin/day3.rs:93-118 | on a rectangular grid whose tails point at heads nothing panics near any cell |
| Day3.WellFormedNeverPanics | src/bin/day3.rs:120-179 | on such a grid neither part panics |
| Day3.ParsedInputNeverPanics | src/bin/day3.rs:85-179 | a parsed input with rows of equal length never makes either part panic |
| Day3.ExampleLine | src/bin/day3.rs:79-83 | `467*35` parses to a three-cell number, the symbol, and a two-cell number |
| Day3.LeadingZeroShortens | src/bin/day3.rs:61-73 | `07` becomes a single cell holding 7 |
| Day3.ExampleAdjacent | src/bin/day3.rs:93-118 | the `*` of that line touches the numbers at columns 0 and 4 |
| Day3.ExamplePart1 | src/bin/day3.rs:120-149 | that line gives 467 + 35 = 502 |
| Day3.ExamplePart2 | src/bin/day3.rs:151-179 | that line gives the gear value 467 * 35 = 16345 |
| Day8.DirIndex | src/bin/day8.rs:107 | the position `cycle()` has reached in the directions after any number of steps is a valid index |
| Day8.DirIndexNext | src/bin/day8.rs:107 | each step advances the position by one and wraps to the start after the last direction |
| Day8.Move | src/bin/day8.rs:108-112 | `None` (the `unwrap` panic) exactly when the node is missing; otherwise its left or right neighbour as the current direction says |
| Day8.SolvePart1 | src/bin/day8.rs:104-120 | the loop walking from `AAA` returns what the step-count specification gives |
| Day8.SearchSpec | src/bin/day8.rs:107-118 | a count is the first step, within the bound, at which the walk reaches the goal; a panic means the walk hits a missing node before reaching it; running out means it did not reach it in time |
| Day8.Part1Spec | src/bin/day8.rs:104-120 | 0 exactly for empty directions; otherwise a count is the first step at which the walk from `AAA` is at `ZZZ`, and a panic is a missing node met before |
| Day8.SearchMoreFuel | src/bin/day8.rs:107-118 | an answer found within one bound is the answer under any larger bound |
| Day8.Part1MoreFuel | src/bin/day8.rs:104-120 | the same for part 1 |
| Day8.LostStaysLost | src/bin/day8.rs:108 | once the walk has panicked it stays panicked |
| Day8.WalkAfterPass | src/bin/day8.rs:107 | after one full pass over the directions the walk starts over with the same directions from where it stands |
| Day8.StartNodes | src/bin/day8.rs:126-130 | the starting nodes: every node whose name ends in `A`, each once, in some order |
| Day8.MoveAllSpec | src/bin/day8.rs:133-142 | all walkers move at once; the step panics exactly when one of them is at a missing node |
| Day8.WalkAllSpec | src/bin/day8.rs:132-148 | the walkers move independently: after `k` steps each is where its own walk is |
| Day8.SolvePart2 | src/bin/day8.rs:122-150 | the loop returns the step-count specification for some enumeration of the starting nodes |
| Day8.StepDecisions | src/bin/day8.rs:133-145 | whether a step panics, and whether every walker then ends in `Z`, depends only on the set of starting nodes |
| Day8.Search2OrderFree | src/bin/day8.rs:132-148 | the search result does not depend on the order of the starting nodes |
| Day8.Part2OrderFree | src/bin/day8.rs:122-150 | part 2 does not depend on the order in which the map yields its keys |
| Day8.Search2Spec | src/bin/day8.rs:132-148 | a count is the first step within the bound at which every walker ends in `Z`; a panic is a missing node met before |
| Day8.NotYetOverNames | src/bin/day8.rs:144 | "not every walker has arrived" over a list is the same over the set it enumerates |
| Day8.Part2Spec | src/bin/day8.rs:122-150 | 0 exactly for empty directions; otherwise a count is the first step at which every walk from a name ending in `A` is at a name ending in `Z` |
| Day8.Part2NoStarts | src/bin/day8.rs:126-145 | with no name ending in `A`, `all()` holds at once and part 2 gives 1 |
| Day8.ExamplePart1 | src/bin/day8.rs:156-161 | the published `LLR` network reaches `ZZZ` in 6 steps |
| Day8.ExampleStarts | src/bin/day8.rs:126-130 | the published ghost network starts at `11A` and `22A` |
| Day8.ExamplePart2 | src/bin/day8.rs:164-169 | the published ghost network arrives everywhere in 6 steps |
| Day10.FromChar | src/bin/day10.rs:24-38 | a character reads as a tile exactly when it is one of the eight tile characters; any other panics |
| Day10.ToChar | src/bin/day10.rs:24-38 | every tile has one of the eight tile characters |
| Day10.ReadDrawnTile | src/bin/day10.rs:24-38 | every tile is read back from its own character |
| Day10.DrawReadTile | src/bin/day10.rs:24-38 | a character that reads as a tile is that tile's character, so no two characters give the same tile |
| Day10.TileCharacters | src/bin/day10.rs:27-34 | `S`, `|`, `-`, `L`, `J`, `F`, `7` and `.` read as start, vertical, horizontal, north-east, north-west, south-east, south-west and ground |
| Day10.InGrid | src/bin/day10.rs:61-72 | the `filter_map` keeps exactly the candidate positions inside the grid and never adds any |
| Day10.GetConnected | src/bin/day10.rs:41-73 | panics exactly on the start tile; ground connects to nothing; otherwise at most two cells, each inside the grid and one step away along a single axis |
| Day10.GetConnectedSpec | src/bin/day10.rs:51-72 | a cell is listed exactly when it lies inside the grid one step from the tile towards a side the tile's shape opens to |
| Day10.ConnectsBack | src/bin/day10.rs:41-73 | a tile one step from a cell lists that cell back exactly when it opens to the opposite side |
| Day10.InteriorConnectsTwo | src/bin/day10.rs:52-57 | away from the border every shaped tile connects to exactly two different cells |
| Day10.InGridInside | src/bin/day10.rs:61-72 | positions all inside the grid are all kept, in order |
| Day10.FindInRow | src/bin/day10.rs:121-127 | the first start tile of a row at or after a column, `None` exactly when there is none |
| Day10.FindStartFrom | src/bin/day10.rs:117-130 | the first start tile from a row on in row-major order, `None` exactly when there is none |
| Day10.FindStart | src/bin/day10.rs:117-130 | the first start tile in row-major order; `None` (the `unwrap` panic) exactly when the map has no start tile |
| Day10.FindOnlyStart | src/bin/day10.rs:117-130 | a map with a single start tile gives that tile |
| Day10.IdentifyPipe | src/bin/day10.rs:132-152 | always panics: for a wrong number of connecting cells exactly when there are not two; as forbidden exactly when the first is the start itself; at an unfinished branch otherwise |
| Day10.ExampleStart | src/bin/day10.rs:117-130 | in the published square loop the start is at row 1, column 1 |
| Day10.ExampleStartNeighbours | src/bin/day10.rs:132-150 | its east and south neighbours point back at it, ground points nowhere, and identifying the start reaches an unfinished branch |
| Day10.ExampleCorner | src/bin/day10.rs:54-72 | a north-east tile in the top-left corner keeps only its east neighbour |
| Common.Min | src/bin/day5.rs:116 | `min()` of a non-empty sequence is an element no element is below |
| Common.MinOption | src/bin/day5.rs:116-117 | `min()` is `None` exactly for an empty sequence, and otherwise the least element |

## Left out

- The `main` functions are not modelled. They read the puzzle input with `include_str!`, time the solvers and print the results.
- The `nom` parsers in each `mod parsing` and in `src/parsing.rs` are not modelled. Their outputs are given as datatypes instead: games, cards, almanac layers, hands, networks, histories and grids. Some parsing does carry logic, and that part is modelled:
  - day 1's line parsing;
  - the three-cube check and the colour lookup of day 2's `parse_game`;
  - day 3's `parse_part`, `parse_element`, `parse_line` and `parse_input`.
- The `Reformation` text format of `Range` is not modelled, because it is a derived parser.
- `src/bin/day6.rs` is not part of this model. It computes with floating-point square roots, ceilings and floors.
- Two pieces of day 5 are left out because they are unfinished:
  - `build_mapping_ranges` is a stub.
  - `solve_part2_alt` prints its ranges and returns 1.
  Only the conversions `MappingRange::unmapped` and `From<&MappingRow>` are modelled.
- Day 10's `solve_part1`, `solve_part2` and `parse_line` are not modelled:
  - `solve_part2` is a placeholder that returns 1.
  - `solve_part1` calls `identify_pipe`, which panics on every path, so it never returns. Only the connection test it applies is modelled, as `Day10.ConnectsBack`.
  - `parse_line` is a `nom` parser.
- The coordinate module is not part of this model. It provides `IndexingCoordinate`, `Coordinate`, `get`, `get_adjacent_points`, `get_adjacent_points_diagonal` and `manhattan_distance`.
  - `get` is modelled as indexing, with a panic outside the grid.
  - `manhattan_distance` is modelled as the sum of the absolute coordinate differences.
  - Day 3's neighbours are listed row by row, left to right. Every property stated about them holds for any order.
- `transpose` is not part of this model. `Day11.Transpose` states what it must return on a rectangular grid.
- Integer widths are not modelled: values are unbounded integers.
  - Overflow of the `u32`, `u64`, `i64` and `usize` sums, products and increments is left out.
  - So are the `i32` coordinate casts of days 10 and 11.
- Day5.PairSeeds: the pair `(0, 0)` underflows `u64` in `start + length - 1` and panics in the source. The model gives it no seeds.
- Day10.GetConnected: assumes that the coordinates and bounds fit in `i32`, so the casts at `src/bin/day10.rs:48-50` never wrap.
- Day11.SolvePart2: requires `expansion >= 1`. At 0, `expansion - 1` underflows `u64` and panics, and that path is not modelled.
- Day11.FindEmptyCols: requires a rectangular grid. The transpose of a ragged grid is not specified.
- Day11.Expand: requires a rectangular grid, because it finds the empty columns.
- Day11.SolvePart1: requires a rectangular grid, because it expands the grid. Its `None` result, the panic on expanded rows of different lengths, therefore never occurs in the model, as `Day11.Part1NeverPanics` states.
- Day11.SolvePart2: requires a rectangular grid as well, because it finds the empty columns.
- Day7.SolvePart1: requires every hand to have five cards, which is what the parser accepts. Hands of any other size are not modelled. Day7.SolvePart2 has the same requirement.
- Day8.SolvePart1: takes a step bound `fuel` and returns `OutOfFuel` after that many steps. The source loops forever when the goal is never reached. `Day8.SolvePart2` does the same.
- Day8.SolvePart2: the order of the starting nodes comes from the keys of a `HashMap`, which is unspecified. The contract gives the result for some enumeration of them, and `Day8.Part2OrderFree` shows that every enumeration gives the same result.
- Day3.Part2Spec: the source adds the gear values row by row and then adds the row totals. The model adds them in one pass in row-major order, which gives the same total.
- The tests read input files that are not part of this model. For days 1, 2, 4, 5, 7, 8 and 9 the example lemmas evaluate the puzzle's published examples instead, whose answers are the values the tests assert (142 and 281, 8 and 2286, 13 and 30, 35 and 46, 6440 and 5905, 6 and 6, 114 and 2). Days 3 and 10 use smaller examples of their own. For day 11 the published grid is not evaluated: `Day11.Part2TestValuesAgree` shows only that the values 374 and 1030 the tests assert force the third asserted value, 8410.
