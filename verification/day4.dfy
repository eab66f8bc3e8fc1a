/** Day 4: scratch cards (src/bin/day4.rs). Part 1 scores each card by
    doubling; part 2 counts the copies that winning cards hand out, by
    updating a vector of counts in place. */
module Day4 {
  import opened Common

  datatype Card = Card(winning: seq<nat>, ourNumbers: seq<nat>)

  /** `get_winning_number_count`: how many entries of `winning` (counted
      with repetition) occur among `our_numbers`. */
  function GetWinningNumberCount(card: Card): (n: nat)
    ensures n <= |card.winning|
    ensures n == 0 <==> forall i :: 0 <= i < |card.winning| ==> card.winning[i] !in card.ourNumbers
    ensures n == |card.winning| <==> forall i :: 0 <= i < |card.winning| ==> card.winning[i] in card.ourNumbers
  {
    MatchesIn(card.winning, card.ourNumbers)
  }

  /** The fold behind `get_winning_number_count`, over a prefix of the
      winning numbers. */
  function MatchesIn(ws: seq<nat>, ours: seq<nat>): (n: nat)
    ensures n <= |ws|
    ensures n == 0 <==> forall i :: 0 <= i < |ws| ==> ws[i] !in ours
    ensures n == |ws| <==> forall i :: 0 <= i < |ws| ==> ws[i] in ours
  {
    if ws == [] then 0
    else
      var prefix := MatchesIn(ws[..|ws| - 1], ours);
      assert forall i :: 0 <= i < |ws| - 1 ==> ws[..|ws| - 1][i] == ws[i];
      prefix + (if ws[|ws| - 1] in ours then 1 else 0)
  }

  /** The fold behind `get_points`, from accumulator `acc`: a match turns
      0 into 1 and doubles anything else. */
  function PointsFold(acc: nat, ws: seq<nat>, ours: seq<nat>): nat
  {
    if ws == [] then acc
    else
      var acc' := PointsFold(acc, ws[..|ws| - 1], ours);
      if ws[|ws| - 1] in ours then (if acc' == 0 then 1 else acc' * 2) else acc'
  }

  function GetPoints(card: Card): nat
  {
    PointsFold(0, card.winning, card.ourNumbers)
  }

  function Pow2(n: nat): (p: nat)
    ensures p >= 1
  {
    if n == 0 then 1 else 2 * Pow2(n - 1)
  }

  /** The closed form of a card's worth by its number of matches. */
  function Score(matches: nat): nat
  {
    if matches == 0 then 0 else Pow2(matches - 1)
  }

  function SolvePart1(cards: seq<Card>): int
  {
    Sum(seq(|cards|, i requires 0 <= i < |cards| => GetPoints(cards[i]) as int))
  }

  // ---------------------------------------------------------------------
  // Part 2: copies

  /** What processing card `index` (with `won` matches) does to the
      counts: every later card up to `index + won`, and before the end,
      gains `counts[index]` copies; targets past the end are ignored. */
  function ProcessCard(counts: seq<nat>, index: nat, won: nat): (next: seq<nat>)
    requires index < |counts|
    ensures |next| == |counts|
  {
    seq(|counts|, j requires 0 <= j < |counts| =>
      if index < j <= index + won then counts[j] + counts[index] else counts[j])
  }

  /** The counts after the first `k` cards have been processed, starting
      from one copy of every card. */
  function CountsAfter(wins: seq<nat>, k: nat): (counts: seq<nat>)
    requires k <= |wins|
    ensures |counts| == |wins|
  {
    if k == 0 then seq(|wins|, _ => 1)
    else ProcessCard(CountsAfter(wins, k - 1), k - 1, wins[k - 1])
  }

  /** Processing one more card. */
  lemma CountsAfterStep(wins: seq<nat>, k: nat, before: seq<nat>, after: seq<nat>)
    requires k < |wins|
    requires before == CountsAfter(wins, k) && after == ProcessCard(before, k, wins[k])
    ensures after == CountsAfter(wins, k + 1)
  {
  }

  function Wins(cards: seq<Card>): (wins: seq<nat>)
    ensures |wins| == |cards|
  {
    seq(|cards|, i requires 0 <= i < |cards| => GetWinningNumberCount(cards[i]))
  }

  /** `solve_part2`: the fold over the cards that updates `counts` in
      place, followed by the sum of the counts. */
  method SolvePart2(cards: seq<Card>) returns (total: int)
    ensures total == Sum(CountsAfter(Wins(cards), |cards|))
  {
    var n := |cards|;
    var wins := Wins(cards);
    var counts := new nat[n](_ => 1);
    assert counts[..] == CountsAfter(wins, 0);
    var index := 0;
    while index < n
      invariant 0 <= index <= n == counts.Length == |wins|
      invariant counts[..] == CountsAfter(wins, index)
    {
      var winning := wins[index];
      ghost var before := counts[..];
      ApplyCard(counts, index, winning);
      CountsAfterStep(wins, index, before, counts[..]);
      index := index + 1;
    }
    total := Sum(counts[..]);
  }

  /** The closure of the fold in `solve_part2`: a card with matches
      hands out copies of itself to the cards it wins. */
  method ApplyCard(counts: array<nat>, index: nat, winning: nat)
    requires index < counts.Length
    modifies counts
    ensures counts[..] == ProcessCard(old(counts[..]), index, winning)
  {
    if winning > 0 {
      AddCopies(counts, index, winning);
    } else {
      ProcessCardFrom(counts[..], counts[..], index, 0);
    }
  }

  /** The inner loop of `solve_part2`: every card won by card `index`
      that exists gains as many copies as card `index` has. */
  method AddCopies(counts: array<nat>, index: nat, winning: nat)
    requires index < counts.Length
    modifies counts
    ensures counts[..] == ProcessCard(old(counts[..]), index, winning)
  {
    ghost var before := counts[..];
    var won := index + 1;
    while won < index + winning + 1
      invariant index + 1 <= won <= index + winning + 1
      invariant counts[index] == before[index]
      invariant forall j :: 0 <= j < counts.Length ==>
        counts[j] == if index < j < won then before[j] + before[index] else before[j]
    {
      if won < counts.Length {
        counts[won] := counts[won] + counts[index];
      }
      won := won + 1;
    }
    ProcessCardFrom(before, counts[..], index, winning);
  }

  /** The in-place update the inner loop performs, read back as a value. */
  lemma ProcessCardFrom(before: seq<nat>, after: seq<nat>, index: nat, won: nat)
    requires index < |before| == |after|
    requires forall j :: 0 <= j < |after| ==>
      after[j] == if index < j <= index + won then before[j] + before[index] else before[j]
    ensures after == ProcessCard(before, index, won)
  {
  }

  // ---------------------------------------------------------------------
  // Properties

  /** Points are 0 without a match and `2^(count - 1)` with `count`
      matches: the general fold from any accumulator. */
  lemma {:induction false} PointsFoldValue(acc: nat, ws: seq<nat>, ours: seq<nat>)
    ensures var n := MatchesIn(ws, ours);
            PointsFold(acc, ws, ours)
            == if n == 0 then acc else if acc == 0 then Pow2(n - 1) else acc * Pow2(n)
  {
    if |ws| > 0 {
      var front := ws[..|ws| - 1];
      PointsFoldValue(acc, front, ours);
      ScoreStep(acc, MatchesIn(front, ours), PointsFold(acc, front, ours), ws[|ws| - 1] in ours);
    }
  }

  /** One more winning number: a match moves the closed form on by one
      match, a miss leaves it. */
  lemma ScoreStep(acc: nat, n: nat, p: nat, hit: bool)
    requires p == if n == 0 then acc else if acc == 0 then Pow2(n - 1) else acc * Pow2(n)
    ensures var n' := if hit then n + 1 else n;
            (if hit then (if p == 0 then 1 else p * 2) else p)
            == if n' == 0 then acc else if acc == 0 then Pow2(n' - 1) else acc * Pow2(n')
  {
    if hit && n > 0 && acc != 0 {
      assert acc * Pow2(n) * 2 == acc * Pow2(n + 1);
    }
  }

  lemma PointsValue(card: Card)
    ensures GetPoints(card) == Score(GetWinningNumberCount(card))
  {
    PointsFoldValue(0, card.winning, card.ourNumbers);
  }

  /** Part 1 depends on the cards only through their match counts. */
  lemma Part1ByMatchCounts(cards: seq<Card>)
    ensures SolvePart1(cards)
         == Sum(seq(|cards|, i requires 0 <= i < |cards| => Score(Wins(cards)[i]) as int))
  {
    forall i | 0 <= i < |cards| ensures GetPoints(cards[i]) == Score(Wins(cards)[i]) {
      PointsValue(cards[i]);
    }
    assert seq(|cards|, i requires 0 <= i < |cards| => GetPoints(cards[i]) as int)
        == seq(|cards|, i requires 0 <= i < |cards| => Score(Wins(cards)[i]) as int);
  }

  /** Every count stays at least 1, so every card is held at least once. */
  lemma {:induction false} CountsAtLeastOne(wins: seq<nat>, k: nat)
    requires k <= |wins|
    ensures forall j :: 0 <= j < |wins| ==> CountsAfter(wins, k)[j] >= 1
  {
    if k > 0 {
      CountsAtLeastOne(wins, k - 1);
    }
  }

  /** Processing card `index` leaves every entry up to `index` and every
      entry past `index + won` unchanged, and raises the rest by exactly
      `counts[index]`. */
  lemma ProcessCardChangesOnlyTargets(counts: seq<nat>, index: nat, won: nat, j: nat)
    requires index < |counts| && j < |counts|
    ensures j <= index || j > index + won ==> ProcessCard(counts, index, won)[j] == counts[j]
    ensures index < j <= index + won ==> ProcessCard(counts, index, won)[j] == counts[j] + counts[index]
  {
  }

  /** Card `k` is never changed once cards `k` and later are being
      processed: its final count is the one it had before its own turn. */
  lemma {:induction false} CountFixedAfterItsTurn(wins: seq<nat>, k: nat, m: nat)
    requires k < m <= |wins|
    ensures CountsAfter(wins, m)[k] == CountsAfter(wins, k + 1)[k]
    decreases m
  {
    if m > k + 1 {
      CountFixedAfterItsTurn(wins, k, m - 1);
    }
  }

  lemma TotalAtLeastCards(cards: seq<Card>)
    ensures Sum(CountsAfter(Wins(cards), |cards|)) >= |cards|
  {
    CountsAtLeastOne(Wins(cards), |cards|);
    SumAtLeastLength(CountsAfter(Wins(cards), |cards|));
  }

  // ---------------------------------------------------------------------
  // The puzzle's published example, by its match counts 4, 2, 2, 1, 0, 0

  /** Part 1 scores the example cards 8, 2, 2, 1, 0 and 0: 13 in all. */
  lemma ExamplePoints(wins: seq<nat>)
    requires wins == [4, 2, 2, 1, 0, 0]
    ensures Sum(seq(6, i requires 0 <= i < 6 => Score(wins[i]) as int)) == 13
  {
    assert Pow2(3) == 8 && Pow2(1) == 2 && Pow2(0) == 1;
    var pts := seq(6, i requires 0 <= i < 6 => Score(wins[i]) as int);
    assert pts == [8, 2, 2, 1, 0, 0];
    assert pts[..5] == [8, 2, 2, 1, 0] && pts[..4] == [8, 2, 2, 1] && pts[..3] == [8, 2, 2];
    assert pts[..5][..4] == pts[..4] && pts[..4][..3] == pts[..3];
    SumOfThree(pts[..3]);
    assert Sum(pts[..4]) == 13 && Sum(pts[..5]) == 13;
  }

  /** Part 2 ends with 1, 2, 4, 8, 14 and 1 copies: 30 cards. */
  lemma ExampleCopies(wins: seq<nat>)
    requires wins == [4, 2, 2, 1, 0, 0]
    ensures CountsAfter(wins, 6) == [1, 2, 4, 8, 14, 1]
    ensures Sum(CountsAfter(wins, 6)) == 30
  {
    assert CountsAfter(wins, 0) == [1, 1, 1, 1, 1, 1];
    assert CountsAfter(wins, 1) == [1, 2, 2, 2, 2, 1];
    assert CountsAfter(wins, 2) == [1, 2, 4, 4, 2, 1];
    assert CountsAfter(wins, 3) == [1, 2, 4, 8, 6, 1];
    assert CountsAfter(wins, 4) == [1, 2, 4, 8, 14, 1];
    assert CountsAfter(wins, 5) == [1, 2, 4, 8, 14, 1];
    var c := CountsAfter(wins, 6);
    assert c == [1, 2, 4, 8, 14, 1];
    assert c[..5] == [1, 2, 4, 8, 14] && c[..4] == [1, 2, 4, 8] && c[..3] == [1, 2, 4];
    assert c[..5][..4] == c[..4] && c[..4][..3] == c[..3];
    SumOfThree(c[..3]);
    assert Sum(c[..4]) == 15 && Sum(c[..5]) == 29;
  }

  /** One more winning number adds one match exactly when it is ours. */
  lemma MatchesInStep(ws: seq<nat>, ours: seq<nat>, k: nat)
    requires 0 < k <= |ws|
    ensures MatchesIn(ws[..k], ours) == MatchesIn(ws[..k - 1], ours) + (if ws[k - 1] in ours then 1 else 0)
  {
    assert ws[..k][..k - 1] == ws[..k - 1];
  }

  /** The match count of five winning numbers, number by number. */
  lemma MatchesOfFive(ws: seq<nat>, ours: seq<nat>)
    requires |ws| == 5
    ensures MatchesIn(ws, ours)
         == (if ws[0] in ours then 1 else 0) + (if ws[1] in ours then 1 else 0)
          + (if ws[2] in ours then 1 else 0) + (if ws[3] in ours then 1 else 0)
          + (if ws[4] in ours then 1 else 0)
  {
    MatchesInStep(ws, ours, 1);
    MatchesInStep(ws, ours, 2);
    MatchesInStep(ws, ours, 3);
    MatchesInStep(ws, ours, 4);
    MatchesInStep(ws, ours, 5);
    assert ws[..5] == ws && ws[..0] == [];
  }

  /** The published cards have 4, 2, 2, 1, 0 and 0 matches, so part 1
      scores them 13 and part 2 ends with 30 cards. */
  lemma ExampleCards(cards: seq<Card>)
    requires |cards| == 6
    requires cards[0] == Card([41, 48, 83, 86, 17], [83, 86, 6, 31, 17, 9, 48, 53])
    requires cards[1] == Card([13, 32, 20, 16, 61], [61, 30, 68, 82, 17, 32, 24, 19])
    requires cards[2] == Card([1, 21, 53, 59, 44], [69, 82, 63, 72, 16, 21, 14, 1])
    requires cards[3] == Card([41, 92, 73, 84, 69], [59, 84, 76, 51, 58, 5, 54, 83])
    requires cards[4] == Card([87, 83, 26, 28, 32], [88, 30, 70, 12, 93, 22, 82, 36])
    requires cards[5] == Card([31, 18, 13, 56, 72], [74, 77, 10, 23, 35, 67, 36, 11])
    ensures Wins(cards) == [4, 2, 2, 1, 0, 0]
    ensures SolvePart1(cards) == 13
    ensures Sum(CountsAfter(Wins(cards), |cards|)) == 30
  {
    ExampleCard1(cards[0]);
    ExampleCard2(cards[1]);
    ExampleCard3(cards[2]);
    ExampleCard4(cards[3]);
    ExampleCard5(cards[4]);
    ExampleCard6(cards[5]);
    WinsOfSix(cards, 4, 2, 2, 1, 0, 0);
    ExampleByMatchCounts(cards);
  }

  /** A card with five winning numbers, `n` of which are ours, has `n`
      matches. */
  lemma ExampleCardMatches(ws: seq<nat>, ours: seq<nat>, n: nat)
    requires |ws| == 5
    requires n == (if ws[0] in ours then 1 else 0) + (if ws[1] in ours then 1 else 0)
                + (if ws[2] in ours then 1 else 0) + (if ws[3] in ours then 1 else 0)
                + (if ws[4] in ours then 1 else 0)
    ensures GetWinningNumberCount(Card(ws, ours)) == n
  {
    MatchesOfFive(ws, ours);
  }

  /** The match counts of six cards, card by card. */
  lemma WinsOfSix(cards: seq<Card>, a: nat, b: nat, c: nat, d: nat, e: nat, f: nat)
    requires |cards| == 6
    requires GetWinningNumberCount(cards[0]) == a && GetWinningNumberCount(cards[1]) == b
    requires GetWinningNumberCount(cards[2]) == c && GetWinningNumberCount(cards[3]) == d
    requires GetWinningNumberCount(cards[4]) == e && GetWinningNumberCount(cards[5]) == f
    ensures Wins(cards) == [a, b, c, d, e, f]
  {
  }

  /** The first published card has 4 matches. */
  lemma ExampleCard1(card: Card)
    requires card == Card([41, 48, 83, 86, 17], [83, 86, 6, 31, 17, 9, 48, 53])
    ensures GetWinningNumberCount(card) == 4
  {
    ExampleCardMatches(card.winning, card.ourNumbers, 4);
  }

  /** The second published card has 2 matches. */
  lemma ExampleCard2(card: Card)
    requires card == Card([13, 32, 20, 16, 61], [61, 30, 68, 82, 17, 32, 24, 19])
    ensures GetWinningNumberCount(card) == 2
  {
    ExampleCardMatches(card.winning, card.ourNumbers, 2);
  }

  /** The third published card has 2 matches. */
  lemma ExampleCard3(card: Card)
    requires card == Card([1, 21, 53, 59, 44], [69, 82, 63, 72, 16, 21, 14, 1])
    ensures GetWinningNumberCount(card) == 2
  {
    ExampleCardMatches(card.winning, card.ourNumbers, 2);
  }

  /** The fourth published card has 1 match. */
  lemma ExampleCard4(card: Card)
    requires card == Card([41, 92, 73, 84, 69], [59, 84, 76, 51, 58, 5, 54, 83])
    ensures GetWinningNumberCount(card) == 1
  {
    ExampleCardMatches(card.winning, card.ourNumbers, 1);
  }

  /** The fifth published card has 0 matches. */
  lemma ExampleCard5(card: Card)
    requires card == Card([87, 83, 26, 28, 32], [88, 30, 70, 12, 93, 22, 82, 36])
    ensures GetWinningNumberCount(card) == 0
  {
    ExampleCardMatches(card.winning, card.ourNumbers, 0);
  }

  /** The sixth published card has 0 matches. */
  lemma ExampleCard6(card: Card)
    requires card == Card([31, 18, 13, 56, 72], [74, 77, 10, 23, 35, 67, 36, 11])
    ensures GetWinningNumberCount(card) == 0
  {
    ExampleCardMatches(card.winning, card.ourNumbers, 0);
  }

  /** Cards with the example's match counts score 13 and end with 30. */
  lemma ExampleByMatchCounts(cards: seq<Card>)
    requires Wins(cards) == [4, 2, 2, 1, 0, 0]
    ensures SolvePart1(cards) == 13
    ensures Sum(CountsAfter(Wins(cards), |cards|)) == 30
  {
    var wins := Wins(cards);
    Part1ByMatchCounts(cards);
    ExamplePoints(wins);
    assert seq(|cards|, i requires 0 <= i < |cards| => Score(Wins(cards)[i]) as int)
        == seq(6, i requires 0 <= i < 6 => Score(wins[i]) as int);
    ExampleCopies(wins);
  }
}
