/** Day 7: camel cards (src/bin/day7.rs). Hands of five cards are
    classified by their groups of equal cards, ordered by type and then
    card by card, ranked from the weakest up, and their bids weighted by
    rank. Part 2 reads `J` as a joker that ranks lowest but joins any
    group. */
module Day7 {
  import opened Common

  /** The cards in the source's declaration order; the derived order makes
      `A` the smallest. */
  datatype Card = A | K | Q | J | T | Nine | Eight | Seven | Six | Five | Four | Three | Two

  /** The position of a card in the derived order of `Card`. */
  function Rank(c: Card): (r: nat)
    ensures r < 13
  {
    match c
    case A => 0 case K => 1 case Q => 2 case J => 3 case T => 4
    case Nine => 5 case Eight => 6 case Seven => 7 case Six => 8
    case Five => 9 case Four => 10 case Three => 11 case Two => 12
  }

  /** The position of a card in the derived order of `Card2`, the
      part-2 enum that moves `J` after `TWO`. */
  function Rank2(c: Card): (r: nat)
    ensures r < 13
  {
    match c
    case A => 0 case K => 1 case Q => 2 case T => 3
    case Nine => 4 case Eight => 5 case Seven => 6 case Six => 7
    case Five => 8 case Four => 9 case Three => 10 case Two => 11 case J => 12
  }

  /** `Card::from(char)`: defined on `AKQJT98765432`, an error (the
      source panics) on anything else. */
  function CardFromChar(ch: char): (r: Option<Card>)
  {
    match ch
    case 'A' => Some(A) case 'K' => Some(K) case 'Q' => Some(Q) case 'J' => Some(J)
    case 'T' => Some(T) case '9' => Some(Nine) case '8' => Some(Eight)
    case '7' => Some(Seven) case '6' => Some(Six) case '5' => Some(Five)
    case '4' => Some(Four) case '3' => Some(Three) case '2' => Some(Two)
    case _ => None
  }

  /** The label a card is written with. */
  function CardChar(c: Card): char
  {
    match c
    case A => 'A' case K => 'K' case Q => 'Q' case J => 'J' case T => 'T'
    case Nine => '9' case Eight => '8' case Seven => '7' case Six => '6'
    case Five => '5' case Four => '4' case Three => '3' case Two => '2'
  }

  /** The hand types in declaration order: the strongest is the smallest. */
  datatype HandType = FiveKind | FourKind | FullHouse | ThreeKind | TwoPair | OnePair | HighCard

  function TypeRank(t: HandType): (r: nat)
    ensures r < 7
  {
    match t
    case FiveKind => 0 case FourKind => 1 case FullHouse => 2 case ThreeKind => 3
    case TwoPair => 4 case OnePair => 5 case HighCard => 6
  }

  // ---------------------------------------------------------------------
  // Counting the cards of a hand

  function Count(cards: seq<Card>, c: Card): nat
  {
    multiset(cards)[c]
  }

  /** The counts map that `get_hand_type` builds: one key per card that
      occurs, mapped to how often it occurs. */
  function Tally(cards: seq<Card>): (m: map<Card, nat>)
    ensures forall c :: c in m <==> c in cards
    ensures forall c :: c in m ==> m[c] == Count(cards, c) && m[c] >= 1
  {
    map c | c in multiset(cards) :: multiset(cards)[c]
  }

  /** The fold of `get_hand_type` that bumps `*m.entry(c).or_insert(0)`
      for each card. */
  method CountCards(cards: seq<Card>) returns (m: map<Card, nat>)
    ensures forall c :: c in m <==> c in cards
    ensures forall c :: c in m ==> m[c] == Count(cards, c)
  {
    m := map[];
    var i := 0;
    while i < |cards|
      invariant 0 <= i <= |cards|
      invariant forall c :: c in m <==> c in cards[..i]
      invariant forall c :: c in m ==> m[c] == Count(cards[..i], c)
    {
      var c := cards[i];
      var n := if c in m then m[c] else 0;
      m := m[c := n + 1];
      assert cards[..i + 1] == cards[..i] + [c];
      i := i + 1;
    }
    assert cards[..i] == cards;
  }

  /** The distinct cards of a hand: the keys of its counts map. */
  function Keys(cards: seq<Card>): set<Card>
  {
    set c | c in cards
  }

  /** The largest count of any card in `among`, counted in `cards`. */
  function MaxCountOf(cards: seq<Card>, among: seq<Card>): (m: nat)
    ensures forall i :: 0 <= i < |among| ==> Count(cards, among[i]) <= m
    ensures among == [] ==> m == 0
    ensures among != [] ==> exists i :: 0 <= i < |among| && Count(cards, among[i]) == m
  {
    if among == [] then 0
    else
      var front := among[..|among| - 1];
      var m := MaxCountOf(cards, front);
      assert forall i :: 0 <= i < |front| ==> front[i] == among[i];
      var last := Count(cards, among[|among| - 1]);
      if last > m then last else m
  }

  /** `card_counts.values().max()`, the largest group. */
  function MaxCount(cards: seq<Card>): nat
  {
    MaxCountOf(cards, cards)
  }

  /** The decision of `get_hand_type` on the number of distinct cards,
      the count `values().next()` yields first, and the largest count;
      the combinations the source rejects with a panic are `None`. */
  function Classify(distinct: nat, first: nat, largest: nat): Option<HandType>
  {
    if distinct == 1 then Some(FiveKind)
    else if distinct == 2 then
      (if first == 4 || first == 1 then Some(FourKind)
       else if first == 3 || first == 2 then Some(FullHouse)
       else None)
    else if distinct == 3 then
      (if largest == 3 then Some(ThreeKind)
       else if largest == 2 then Some(TwoPair)
       else None)
    else if distinct == 4 then Some(OnePair)
    else if distinct == 5 then Some(HighCard)
    else None
  }

  /** `get_hand_type`. The order in which a `HashMap` yields its values is
      unspecified; this model reads the count of the hand's first card, and
      `ClassifyAnyPick` shows that every card's count gives the same type
      for a five-card hand. */
  function GetHandType(cards: seq<Card>): Option<HandType>
  {
    if cards == [] then None
    else Classify(|Keys(cards)|, Count(cards, cards[0]), MaxCount(cards))
  }

  /** The reference classification by the largest group: five, four, a
      three with or without a pair, two pairs or one, or nothing. */
  function ByLargestGroup(distinct: nat, largest: nat): HandType
  {
    if largest >= 5 then FiveKind
    else if largest == 4 then FourKind
    else if largest == 3 then (if distinct == 2 then FullHouse else ThreeKind)
    else if largest == 2 then (if distinct == 3 then TwoPair else OnePair)
    else HighCard
  }

  // ---------------------------------------------------------------------
  // The groups of a hand add up to its size

  predicate Distinct(ks: seq<Card>)
  {
    forall i, j :: 0 <= i < j < |ks| ==> ks[i] != ks[j]
  }

  /** The keys of a set listed once each, in some order. */
  lemma {:induction false} ListKeys(s: set<Card>) returns (ks: seq<Card>)
    ensures |ks| == |s| && Distinct(ks)
    ensures forall k :: k in ks <==> k in s
    decreases |s|
  {
    if s == {} {
      ks := [];
    } else {
      var x :| x in s;
      var rest := ListKeys(s - {x});
      ks := [x] + rest;
      assert forall i :: 1 <= i < |ks| ==> ks[i] == rest[i - 1];
    }
  }

  /** The counts, in `cards`, of the keys `ks`. */
  function CountsOver(cards: seq<Card>, ks: seq<Card>): (cs: seq<int>)
    ensures |cs| == |ks|
    ensures forall i :: 0 <= i < |ks| ==> cs[i] == Count(cards, ks[i])
  {
    seq(|ks|, i requires 0 <= i < |ks| => Count(cards, ks[i]) as int)
  }

  function Indicator(ks: seq<Card>, x: Card): (s: seq<int>)
    ensures |s| == |ks|
    ensures forall i :: 0 <= i < |ks| ==> s[i] == if ks[i] == x then 1 else 0
  {
    seq(|ks|, i requires 0 <= i < |ks| => if ks[i] == x then 1 else 0)
  }

  lemma {:induction false} IndicatorSum(ks: seq<Card>, x: Card)
    requires Distinct(ks)
    ensures Sum(Indicator(ks, x)) == if x in ks then 1 else 0
  {
    if ks != [] {
      var n := |ks| - 1;
      assert Indicator(ks, x)[..n] == Indicator(ks[..n], x);
      IndicatorSum(ks[..n], x);
      assert x in ks <==> x in ks[..n] || ks[n] == x;
      if ks[n] == x {
        assert x !in ks[..n];
      }
    }
  }

  /** Counting each distinct card of a hand and adding up gives the
      number of cards. */
  lemma {:induction false} CountsSumToSize(cards: seq<Card>, ks: seq<Card>)
    requires Distinct(ks)
    requires forall c :: c in cards ==> c in ks
    ensures Sum(CountsOver(cards, ks)) == |cards|
  {
    var cs := CountsOver(cards, ks);
    if |cards| == 0 {
      SumAtMost(cs, 0);
      SumNonNegative(cs);
    } else {
      var n := |cards| - 1;
      var front := cards[..n];
      assert forall c :: c in front ==> c in cards;
      CountsSumToSize(front, ks);
      CountsOverSnoc(cards, ks);
      SumPointwise(CountsOver(front, ks), Indicator(ks, cards[n]));
      IndicatorSum(ks, cards[n]);
    }
  }

  /** One more card adds its indicator to the counts. */
  lemma CountsOverSnoc(cards: seq<Card>, ks: seq<Card>)
    requires |cards| > 0
    ensures var front, ind := CountsOver(cards[..|cards| - 1], ks), Indicator(ks, cards[|cards| - 1]);
            CountsOver(cards, ks) == seq(|ks|, i requires 0 <= i < |ks| => front[i] + ind[i])
  {
    var n := |cards| - 1;
    assert cards == cards[..n] + [cards[n]];
    assert multiset(cards) == multiset(cards[..n]) + multiset{cards[n]};
  }

  lemma SumUpToThree(s: seq<int>)
    requires 1 <= |s| <= 3
    ensures |s| == 1 ==> Sum(s) == s[0]
    ensures |s| == 2 ==> Sum(s) == s[0] + s[1]
    ensures |s| == 3 ==> Sum(s) == s[0] + s[1] + s[2]
  {
    if |s| == 3 {
      SumOfThree(s);
    } else if |s| == 2 {
      assert s[..1][..0] == [];
    } else {
      assert s[..0] == [];
    }
  }

  /** The facts about a hand that its classification needs: its distinct
      cards listed once each, their counts (each at least one, adding up
      to the size of the hand), the largest count and the count of one
      chosen card among them. */
  lemma GroupFacts(cards: seq<Card>, pick: Card) returns (ks: seq<Card>, cs: seq<int>)
    requires pick in cards
    ensures |ks| == |Keys(cards)| && 1 <= |ks| <= |cards| && Distinct(ks)
    ensures forall k :: k in ks <==> k in cards
    ensures cs == CountsOver(cards, ks) && Sum(cs) == |cards|
    ensures forall i :: 0 <= i < |cs| ==> 1 <= cs[i] <= MaxCount(cards)
    ensures exists i :: 0 <= i < |cs| && cs[i] == MaxCount(cards)
    ensures exists i :: 0 <= i < |cs| && cs[i] == Count(cards, pick)
  {
    ks := ListKeys(Keys(cards));
    cs := CountsOver(cards, ks);
    CountsSumToSize(cards, ks);
    assert cards[0] in ks;
    forall i | 0 <= i < |cs| ensures 1 <= cs[i] <= MaxCount(cards) {
      assert ks[i] in ks;
      var j :| 0 <= j < |cards| && cards[j] == ks[i];
      assert Count(cards, cards[j]) <= MaxCountOf(cards, cards);
    }
    SumAtLeastLength(cs);
    var m :| 0 <= m < |cards| && Count(cards, cards[m]) == MaxCount(cards);
    assert cards[m] in cards;
    var i :| 0 <= i < |ks| && ks[i] == cards[m];
    assert cs[i] == MaxCount(cards);
    var p :| 0 <= p < |ks| && ks[p] == pick;
    assert cs[p] == Count(cards, pick);
  }

  /** For a five-card hand the source's decision agrees with the
      largest-group classification, whichever card's count the map
      yields first: the hash order does not matter and nothing panics. */
  lemma ClassifyAnyPick(cards: seq<Card>, pick: Card)
    requires |cards| == 5 && pick in cards
    ensures Classify(|Keys(cards)|, Count(cards, pick), MaxCount(cards))
         == Some(ByLargestGroup(|Keys(cards)|, MaxCount(cards)))
  {
    var ks, cs := GroupFacts(cards, pick);
    var d, m := |ks|, MaxCount(cards);
    SumAtMost(cs, m);
    assert 5 <= d * m;
    if d <= 3 {
      SumUpToThree(cs);
    } else {
      var i :| 0 <= i < |cs| && cs[i] == m;
      SumAtLeastOneLarge(cs, i);
    }
  }

  /** `get_hand_type` on a five-card hand never panics and gives the
      largest-group classification. */
  lemma HandTypeByLargestGroup(cards: seq<Card>)
    requires |cards| == 5
    ensures GetHandType(cards) == Some(ByLargestGroup(|Keys(cards)|, MaxCount(cards)))
  {
    ClassifyAnyPick(cards, cards[0]);
  }

  /** `get_hand_type` reads the counts map: the number of its keys, the
      value stored for one card, and its largest value. */
  lemma HandTypeFromTally(cards: seq<Card>)
    requires cards != []
    ensures Tally(cards).Keys == Keys(cards)
    ensures Tally(cards)[cards[0]] == Count(cards, cards[0])
    ensures forall c :: c in Tally(cards) ==> Tally(cards)[c] <= MaxCount(cards)
    ensures exists c :: c in Tally(cards) && Tally(cards)[c] == MaxCount(cards)
    ensures GetHandType(cards)
         == Classify(|Tally(cards).Keys|, Tally(cards)[cards[0]], MaxCount(cards))
  {
    var m := Tally(cards);
    assert m.Keys == Keys(cards);
    forall c | c in m ensures m[c] <= MaxCount(cards) {
      var i :| 0 <= i < |cards| && cards[i] == c;
    }
    var i :| 0 <= i < |cards| && Count(cards, cards[i]) == MaxCount(cards);
    assert cards[i] in m;
  }

  /** The hand type depends only on which cards the hand holds, not on
      their order. */
  lemma HandTypePermutationInvariant(a: seq<Card>, b: seq<Card>)
    requires |a| == 5 && multiset(a) == multiset(b)
    ensures GetHandType(a) == GetHandType(b)
  {
    assert |b| == |multiset(b)| == 5;
    assert forall c :: c in a <==> c in b by {
      forall c ensures c in a <==> c in b {
        assert c in a <==> c in multiset(a);
        assert c in b <==> c in multiset(b);
      }
    }
    assert Keys(a) == Keys(b);
    SameMaxCount(a, b);
    HandTypeByLargestGroup(a);
    HandTypeByLargestGroup(b);
  }

  lemma SameMaxCount(a: seq<Card>, b: seq<Card>)
    requires a != [] && multiset(a) == multiset(b)
    ensures MaxCount(a) == MaxCount(b)
  {
    assert b != [] by { assert |b| == |multiset(b)|; }
    var i :| 0 <= i < |a| && Count(a, a[i]) == MaxCount(a);
    var j :| 0 <= j < |b| && Count(b, b[j]) == MaxCount(b);
    assert a[i] in multiset(b);
    var i' :| 0 <= i' < |b| && b[i'] == a[i];
    assert b[j] in multiset(a);
    var j' :| 0 <= j' < |a| && a[j'] == b[j];
    assert Count(b, b[i']) <= MaxCount(b) && Count(a, a[j']) <= MaxCount(a);
  }

  // ---------------------------------------------------------------------
  // Cards and their two orders

  /** `Card::from` accepts exactly the thirteen labels, and reads each
      label back as the card it names. */
  lemma CardFromCharExactlyLabels(ch: char, c: Card)
    ensures CardFromChar(ch).Some? <==> ch in "AKQJT98765432"
    ensures CardFromChar(CardChar(c)) == Some(c)
    ensures CardFromChar(ch).Some? ==> CardChar(CardFromChar(ch).value) == ch
  {
  }

  /** Both orders are total on cards (ranks are distinct); `Card2` keeps
      the order of every card but `J`, which it moves below `TWO`. */
  lemma Card2Order(a: Card, b: Card)
    ensures Rank(a) == Rank(b) <==> a == b
    ensures Rank2(a) == Rank2(b) <==> a == b
    ensures a != J && b != J ==> (Rank(a) < Rank(b) <==> Rank2(a) < Rank2(b))
    ensures a != J ==> Rank2(a) < Rank2(J)
    ensures Rank(J) < Rank(T)
  {
  }

  // ---------------------------------------------------------------------
  // Part 2: jokers

  /** `get_hand_type_part_2`: the base type, upgraded by the number of
      jokers when there are any; a base type that already panicked stays
      `None`. */
  function GetHandTypePart2(cards: seq<Card>): Option<HandType>
  {
    var base := GetHandType(cards);
    var jokers := Count(cards, J);
    if jokers == 0 then base
    else if base.None? then None
    else Upgrade(base.value, jokers)
  }

  /** The `match` of `get_hand_type_part_2` for a hand with jokers; the
      combination the source rejects with a panic is `None`. */
  function Upgrade(base: HandType, jokers: nat): Option<HandType>
  {
    match base
    case FiveKind => Some(FiveKind)
    case FourKind => Some(FiveKind)
    case FullHouse => Some(FiveKind)
    case ThreeKind =>
      if jokers == 1 then Some(FourKind)
      else if jokers == 2 then Some(FiveKind)
      else if jokers == 3 then Some(FourKind)
      else None
    case TwoPair => if jokers == 1 then Some(FullHouse) else Some(FourKind)
    case OnePair => Some(ThreeKind)
    case HighCard => Some(OnePair)
  }

  /** The cards of a hand other than the jokers, in their order. */
  function NonJokers(cards: seq<Card>): (r: seq<Card>)
    ensures |r| <= |cards|
  {
    if cards == [] then []
    else
      var n := |cards| - 1;
      var front := NonJokers(cards[..n]);
      if cards[n] == J then front else front + [cards[n]]
  }

  /** Taking out the jokers keeps every other card with its full count. */
  lemma {:induction false} NonJokersCounts(cards: seq<Card>)
    ensures multiset(NonJokers(cards)) == multiset(cards)[J := 0]
    ensures |NonJokers(cards)| == |cards| - Count(cards, J)
  {
    if cards != [] {
      var n := |cards| - 1;
      assert cards == cards[..n] + [cards[n]];
      var front := NonJokers(cards[..n]);
      NonJokersCounts(cards[..n]);
      assert multiset(cards) == multiset(cards[..n]) + multiset{cards[n]};
      assert multiset(front + [cards[n]]) == multiset(front) + multiset{cards[n]};
    }
  }

  /** The other cards are the cards that are not jokers. */
  lemma NonJokersMembers(cards: seq<Card>)
    ensures forall c :: c in NonJokers(cards) <==> c in cards && c != J
  {
    var r := NonJokers(cards);
    NonJokersCounts(cards);
    forall c ensures c in r <==> c in cards && c != J {
      assert c in r <==> c in multiset(r);
      assert c in cards <==> c in multiset(cards);
    }
  }

  /** The reference part-2 classification: the jokers join the largest
      group of the other cards (a hand of jokers only is five of a
      kind). */
  function JokersJoinLargestGroup(cards: seq<Card>): HandType
  {
    var others := NonJokers(cards);
    if |others| == 0 then FiveKind
    else JokersJoin(|Keys(others)|, MaxCount(others), Count(cards, J))
  }

  /** The type of a hand whose jokers join its largest group of other
      cards: `distinct` other cards, the largest group of `largest`. */
  function JokersJoin(distinct: nat, largest: nat, jokers: nat): HandType
  {
    ByLargestGroup(distinct, largest + jokers)
  }

  /** The reference classification of a hand with cards other than
      jokers. */
  lemma JoinOthers(cards: seq<Card>)
    requires |NonJokers(cards)| > 0
    ensures var others := NonJokers(cards);
            JokersJoinLargestGroup(cards) == JokersJoin(|Keys(others)|, MaxCount(others), Count(cards, J))
  {
  }

  /** The largest group of a hand is the jokers or the largest group of
      the other cards. */
  lemma MaxCountWithJokers(cards: seq<Card>)
    requires J in cards
    ensures var others := NonJokers(cards);
            MaxCount(cards) == if |others| == 0 then Count(cards, J)
                               else Max(Count(cards, J), MaxCount(others))
  {
    var others := NonJokers(cards);
    NonJokersMembers(cards);
    var top := LargestGroupCard(cards);
    CountAtMostMax(cards, J);
    if |others| > 0 {
      var otop := LargestGroupCard(others);
      OtherCount(cards, otop);
      CountAtMostMax(cards, otop);
      if top != J {
        OtherCount(cards, top);
        CountAtMostMax(others, top);
      }
    } else {
      assert top !in others;
    }
  }

  /** Every card of a hand is in a group no larger than the largest. */
  lemma CountAtMostMax(cards: seq<Card>, c: Card)
    requires c in cards
    ensures Count(cards, c) <= MaxCount(cards)
  {
    var i :| 0 <= i < |cards| && cards[i] == c;
    assert Count(cards, cards[i]) <= MaxCountOf(cards, cards);
  }

  /** Some card of a non-empty hand makes up the largest group. */
  lemma LargestGroupCard(cards: seq<Card>) returns (c: Card)
    requires |cards| > 0
    ensures c in cards && Count(cards, c) == MaxCount(cards)
  {
    var i :| 0 <= i < |cards| && Count(cards, cards[i]) == MaxCount(cards);
    c := cards[i];
  }

  /** Taking out the jokers keeps the count of every other card. */
  lemma OtherCount(cards: seq<Card>, c: Card)
    requires c != J
    ensures Count(NonJokers(cards), c) == Count(cards, c)
    ensures c in NonJokers(cards) <==> c in cards
  {
    NonJokersCounts(cards);
    assert c in NonJokers(cards) <==> c in multiset(NonJokers(cards));
    assert c in cards <==> c in multiset(cards);
  }

  function Max(a: nat, b: nat): nat
  {
    if a >= b then a else b
  }

  /** For a five-card hand the source's joker table agrees with the
      reference: jokers join the largest group. In particular it never
      panics. */
  lemma Part2JokersJoinLargestGroup(cards: seq<Card>)
    requires |cards| == 5
    ensures GetHandTypePart2(cards) == Some(JokersJoinLargestGroup(cards))
  {
    if Count(cards, J) == 0 {
      Part2WithoutJokers(cards);
    } else {
      Part2WithJokers(cards);
    }
  }

  /** Without jokers part 2 classifies like part 1. */
  lemma Part2WithoutJokers(cards: seq<Card>)
    requires |cards| == 5 && Count(cards, J) == 0
    ensures GetHandTypePart2(cards) == GetHandType(cards) == Some(JokersJoinLargestGroup(cards))
  {
    var others := NonJokers(cards);
    assert JokersJoinLargestGroup(cards) == JokersJoin(|Keys(others)|, MaxCount(others), Count(cards, J));
    NoJokersKept(cards);
    assert |Keys(others)| == |Keys(cards)| && MaxCount(others) == MaxCount(cards);
    HandTypeByLargestGroup(cards);
  }

  lemma Part2WithJokers(cards: seq<Card>)
    requires |cards| == 5 && Count(cards, J) > 0
    ensures GetHandTypePart2(cards) == Some(JokersJoinLargestGroup(cards))
  {
    HandTypeByLargestGroup(cards);
    var base := ByLargestGroup(|Keys(cards)|, MaxCount(cards));
    assert GetHandTypePart2(cards) == Upgrade(base, Count(cards, J));
    if |NonJokers(cards)| == 0 {
      OnlyJokers(cards);
    } else {
      JokersAndOthers(cards);
    }
  }

  /** Removing the jokers removes exactly one distinct card. */
  lemma OthersKeys(cards: seq<Card>)
    requires J in cards
    ensures |Keys(NonJokers(cards))| == |Keys(cards)| - 1
  {
    NonJokersMembers(cards);
    assert Keys(NonJokers(cards)) == Keys(cards) - {J};
    assert J in Keys(cards);
  }

  lemma OnlyJokers(cards: seq<Card>)
    requires |cards| == 5 && Count(cards, J) > 0 && |NonJokers(cards)| == 0
    ensures Upgrade(ByLargestGroup(|Keys(cards)|, MaxCount(cards)), Count(cards, J))
         == Some(JokersJoinLargestGroup(cards))
  {
    NonJokersCounts(cards);
    assert J in multiset(cards);
    MaxCountWithJokers(cards);
    assert MaxCount(cards) == 5;
  }

  lemma JokersAndOthers(cards: seq<Card>)
    requires |cards| == 5 && Count(cards, J) > 0 && |NonJokers(cards)| > 0
    ensures Upgrade(ByLargestGroup(|Keys(cards)|, MaxCount(cards)), Count(cards, J))
         == Some(JokersJoinLargestGroup(cards))
  {
    var others := NonJokers(cards);
    var jokers, d', m' := Count(cards, J), |Keys(others)|, MaxCount(others);
    JoinOthers(cards);
    var cs' := OtherGroups(cards);
    JokerCases(d' + 1, MaxCount(cards), jokers, cs', m');
  }

  /** What the joker table needs to know about a five-card hand with
      jokers and other cards: the size of its groups with and without the
      jokers. */
  lemma OtherGroups(cards: seq<Card>) returns (cs': seq<int>)
    requires |cards| == 5 && Count(cards, J) > 0 && |NonJokers(cards)| > 0
    ensures var jokers, m, m' := Count(cards, J), MaxCount(cards), MaxCount(NonJokers(cards));
            1 <= jokers <= m && m == Max(jokers, m') &&
            |cs'| == |Keys(NonJokers(cards))| == |Keys(cards)| - 1 && 1 <= |cs'| && Sum(cs') == 5 - jokers &&
            (forall i :: 0 <= i < |cs'| ==> 1 <= cs'[i] <= m') &&
            (exists i :: 0 <= i < |cs'| && cs'[i] == m') &&
            5 <= |Keys(cards)| * m
  {
    var others := NonJokers(cards);
    NonJokersCounts(cards);
    assert J in multiset(cards);
    HandSpread(cards);
    CountAtMostMax(cards, J);
    MaxCountWithJokers(cards);
    OthersKeys(cards);
    var ks';
    ks', cs' := GroupFacts(others, others[0]);
  }

  /** Five cards in `d` groups of at most `m` each: `d * m` is at least
      five. */
  lemma HandSpread(cards: seq<Card>)
    requires |cards| == 5
    ensures 5 <= |Keys(cards)| * MaxCount(cards)
  {
    var ks, cs := GroupFacts(cards, cards[0]);
    SumAtMost(cs, MaxCount(cards));
  }

  lemma NoJokersKept(cards: seq<Card>)
    requires Count(cards, J) == 0
    ensures NonJokers(cards) == cards
  {
    if cards != [] {
      var n := |cards| - 1;
      assert cards == cards[..n] + [cards[n]];
      assert multiset(cards) == multiset(cards[..n]) + multiset{cards[n]};
      NoJokersKept(cards[..n]);
    }
  }

  /** The arithmetic behind the joker table: `d` distinct cards with
      largest group `m`, `jokers` of them jokers, and the other cards'
      counts `cs'` with largest `m'`. */
  lemma JokerCases(d: nat, m: nat, jokers: nat, cs': seq<int>, m': nat)
    requires 1 <= jokers <= m && m == Max(jokers, m')
    requires |cs'| == d - 1 && 1 <= |cs'| && Sum(cs') == 5 - jokers
    requires forall i :: 0 <= i < |cs'| ==> 1 <= cs'[i] <= m'
    requires exists i :: 0 <= i < |cs'| && cs'[i] == m'
    requires 5 <= d * m
    ensures Upgrade(ByLargestGroup(d, m), jokers) == Some(JokersJoin(d - 1, m', jokers))
  {
    var i :| 0 <= i < |cs'| && cs'[i] == m';
    SumAtLeastOneLarge(cs', i);
    SumAtMost(cs', m');
    if |cs'| <= 3 {
      SumUpToThree(cs');
    }
  }

  /** Jokers never weaken a five-card hand: part 2 gives a type at least
      as strong as part 1 (a smaller rank in the derived order), and the
      same one when there are no jokers. */
  lemma JokersNeverWeaken(cards: seq<Card>)
    requires |cards| == 5
    ensures GetHandType(cards).Some? && GetHandTypePart2(cards).Some?
    ensures TypeRank(GetHandTypePart2(cards).value) <= TypeRank(GetHandType(cards).value)
    ensures Count(cards, J) == 0 ==> GetHandTypePart2(cards) == GetHandType(cards)
  {
    HandTypeByLargestGroup(cards);
    Part2JokersJoinLargestGroup(cards);
    if Count(cards, J) == 0 {
      Part2WithoutJokers(cards);
    } else {
      UpgradeNeverWeakens(GetHandType(cards).value, Count(cards, J));
    }
  }

  /** Every entry of the joker table is at least as strong as the base. */
  lemma UpgradeNeverWeakens(base: HandType, jokers: nat)
    ensures Upgrade(base, jokers).Some? ==> TypeRank(Upgrade(base, jokers).value) <= TypeRank(base)
  {
  }

  // ---------------------------------------------------------------------
  // Ordering hands

  /** A hand as the solvers sort it: its type, its cards as positions in
      the derived order (of `Card` for `Hand`, of `Card2` for `Hand2`), and
      its bid. */
  datatype Hand = Hand(handType: HandType, ranks: seq<nat>, bid: nat)

  datatype Ordering = Less | Equal | Greater

  function Flip(o: Ordering): Ordering
  {
    match o
    case Less => Greater
    case Equal => Equal
    case Greater => Less
  }

  /** The `cmp` of two card vectors: lexicographic, a proper prefix being
      the smaller. */
  function CompareRanks(a: seq<nat>, b: seq<nat>): Ordering
  {
    if a == [] then (if b == [] then Equal else Less)
    else if b == [] then Greater
    else if a[0] < b[0] then Less
    else if a[0] > b[0] then Greater
    else CompareRanks(a[1..], b[1..])
  }

  /** `Hand::cmp` and `Hand2::cmp`: by hand type, then card by card. The
      bid takes no part. */
  function CompareHands(a: Hand, b: Hand): Ordering
  {
    var ta, tb := TypeRank(a.handType), TypeRank(b.handType);
    if ta < tb then Less
    else if ta > tb then Greater
    else CompareRanks(a.ranks, b.ranks)
  }

  /** The sort key: the type's rank followed by the cards' ranks. */
  function Key(h: Hand): (k: seq<nat>)
    ensures |k| == |h.ranks| + 1 && k[0] == TypeRank(h.handType) && k[1..] == h.ranks
  {
    [TypeRank(h.handType)] + h.ranks
  }

  /** The independent reading of lexicographic order: a proper prefix, or
      a first difference where the left entry is smaller. */
  predicate LexLess(a: seq<nat>, b: seq<nat>)
  {
    (|a| < |b| && a == b[..|a|])
    || exists k :: 0 <= k < |a| && k < |b| && a[..k] == b[..k] && a[k] < b[k]
  }

  lemma {:induction false} CompareRanksIsLexLess(a: seq<nat>, b: seq<nat>)
    ensures CompareRanks(a, b) == Less <==> LexLess(a, b)
  {
    if |a| > 0 && |b| > 0 {
      if a[0] == b[0] {
        CompareRanksIsLexLess(a[1..], b[1..]);
        LexLessSameHead(a, b);
      } else if a[0] < b[0] {
        assert a[..0] == b[..0];
      } else {
        LexLessLargerHead(a, b);
      }
    } else if |a| == 0 && |b| > 0 {
      assert a == b[..0];
    }
  }

  /** Equal first entries leave the order to the rest. */
  lemma LexLessSameHead(a: seq<nat>, b: seq<nat>)
    requires |a| > 0 && |b| > 0 && a[0] == b[0]
    ensures LexLess(a, b) <==> LexLess(a[1..], b[1..])
  {
    if LexLess(a[1..], b[1..]) {
      LexLessConsHead(a, b);
    }
    if LexLess(a, b) {
      LexLessDropHead(a, b);
    }
  }

  lemma LexLessConsHead(a: seq<nat>, b: seq<nat>)
    requires |a| > 0 && |b| > 0 && a[0] == b[0] && LexLess(a[1..], b[1..])
    ensures LexLess(a, b)
  {
    if |a[1..]| < |b[1..]| && a[1..] == b[1..][..|a[1..]|] {
      assert a == b[..|a|];
    } else {
      var k :| 0 <= k < |a[1..]| && k < |b[1..]| && a[1..][..k] == b[1..][..k] && a[1..][k] < b[1..][k];
      assert a[..k + 1] == [a[0]] + a[1..][..k];
      assert b[..k + 1] == [b[0]] + b[1..][..k];
    }
  }

  lemma LexLessDropHead(a: seq<nat>, b: seq<nat>)
    requires |a| > 0 && |b| > 0 && a[0] == b[0] && LexLess(a, b)
    ensures LexLess(a[1..], b[1..])
  {
    if |a| < |b| && a == b[..|a|] {
      assert a[1..] == b[1..][..|a[1..]|];
    } else {
      var k :| 0 <= k < |a| && k < |b| && a[..k] == b[..k] && a[k] < b[k];
      assert k != 0;
      assert a[1..][..k - 1] == a[..k][1..];
      assert b[1..][..k - 1] == b[..k][1..];
      assert a[1..][k - 1] < b[1..][k - 1];
    }
  }

  /** A larger first entry is never lexicographically less. */
  lemma LexLessLargerHead(a: seq<nat>, b: seq<nat>)
    requires |a| > 0 && |b| > 0 && a[0] > b[0]
    ensures !LexLess(a, b)
  {
    forall k | 0 < k <= |a| && k <= |b| ensures a[..k] != b[..k] {
      assert a[..k][0] != b[..k][0];
    }
  }

  lemma {:induction false} CompareRanksFlip(a: seq<nat>, b: seq<nat>)
    ensures CompareRanks(b, a) == Flip(CompareRanks(a, b))
  {
    if a != [] && b != [] && a[0] == b[0] {
      CompareRanksFlip(a[1..], b[1..]);
    }
  }

  lemma {:induction false} CompareRanksEqual(a: seq<nat>, b: seq<nat>)
    ensures CompareRanks(a, b) == Equal <==> a == b
  {
    if a != [] && b != [] && a[0] == b[0] {
      CompareRanksEqual(a[1..], b[1..]);
      if a[1..] == b[1..] {
        assert a == [a[0]] + a[1..] && b == [b[0]] + b[1..];
      }
    }
  }

  lemma {:induction false} CompareRanksTransitive(a: seq<nat>, b: seq<nat>, c: seq<nat>)
    requires CompareRanks(a, b) != Greater && CompareRanks(b, c) != Greater
    ensures CompareRanks(a, c) != Greater
  {
    if a != [] && b != [] && c != [] && a[0] == b[0] && b[0] == c[0] {
      CompareRanksTransitive(a[1..], b[1..], c[1..]);
    }
  }

  /** Comparing hands is comparing their keys lexicographically. */
  lemma HandOrderIsKeyOrder(a: Hand, b: Hand)
    ensures CompareHands(a, b) == CompareRanks(Key(a), Key(b))
  {
  }

  lemma TypeRankInjective(s: HandType, t: HandType)
    ensures TypeRank(s) == TypeRank(t) <==> s == t
  {
  }

  /** Hands compare equal exactly when type and cards agree. */
  lemma CompareHandsEqual(a: Hand, b: Hand)
    ensures CompareHands(a, b) == Equal <==> a.handType == b.handType && a.ranks == b.ranks
  {
    HandOrderIsKeyOrder(a, b);
    CompareRanksEqual(Key(a), Key(b));
    TypeRankInjective(a.handType, b.handType);
    if Key(a) == Key(b) {
      assert Key(a)[1..] == Key(b)[1..];
    }
  }

  lemma CompareHandsFlip(a: Hand, b: Hand)
    ensures CompareHands(b, a) == Flip(CompareHands(a, b))
  {
    HandOrderIsKeyOrder(a, b);
    HandOrderIsKeyOrder(b, a);
    CompareRanksFlip(Key(a), Key(b));
  }

  lemma CompareHandsTransitive(a: Hand, b: Hand, c: Hand)
    requires CompareHands(a, b) != Greater && CompareHands(b, c) != Greater
    ensures CompareHands(a, c) != Greater
  {
    HandOrderIsKeyOrder(a, b);
    HandOrderIsKeyOrder(b, c);
    HandOrderIsKeyOrder(a, c);
    CompareRanksTransitive(Key(a), Key(b), Key(c));
  }

  // ---------------------------------------------------------------------
  // Sorting and ranking

  predicate Sorted(hs: seq<Hand>)
  {
    forall i, j :: 0 <= i < j < |hs| ==> CompareHands(hs[i], hs[j]) != Greater
  }

  /** Stable insertion into a sorted sequence: `x` goes after the last
      element that is not greater than it. */
  function Insert(x: Hand, s: seq<Hand>): (r: seq<Hand>)
    ensures multiset(r) == multiset(s) + multiset{x}
  {
    if s == [] then [x]
    else
      var n := |s| - 1;
      assert s == s[..n] + [s[n]];
      if CompareHands(s[n], x) == Greater then Insert(x, s[..n]) + [s[n]]
      else s + [x]
  }

  /** `sorted()`, the library's stable sort, written as insertion sort;
      it yields a permutation of its input. */
  function Sort(hs: seq<Hand>): (r: seq<Hand>)
    ensures multiset(r) == multiset(hs)
  {
    if hs == [] then []
    else
      var n := |hs| - 1;
      assert hs == hs[..n] + [hs[n]];
      Insert(hs[n], Sort(hs[..n]))
  }

  lemma {:induction false} InsertSorted(x: Hand, s: seq<Hand>)
    requires Sorted(s)
    ensures Sorted(Insert(x, s))
  {
    if |s| > 0 {
      var n := |s| - 1;
      var last, front := s[n], s[..n];
      InsertSnoc(x, s);
      if CompareHands(last, x) == Greater {
        assert Sorted(front);
        InsertSorted(x, front);
        CompareHandsFlip(last, x);
        InsertBelow(x, front, last);
        SortedSnoc(Insert(x, front), last);
      } else {
        forall i | 0 <= i < |s| ensures CompareHands(s[i], x) != Greater {
          if i < n {
            CompareHandsTransitive(s[i], last, x);
          }
        }
        SortedSnoc(s, x);
      }
    }
  }

  /** A hand not below any hand of a sorted list may follow it. */
  lemma SortedSnoc(r: seq<Hand>, y: Hand)
    requires Sorted(r)
    requires forall i :: 0 <= i < |r| ==> CompareHands(r[i], y) != Greater
    ensures Sorted(r + [y])
  {
  }

  /** Inserting a hand below `last` into hands below `last` keeps them
      all below `last`. */
  lemma InsertBelow(x: Hand, front: seq<Hand>, last: Hand)
    requires CompareHands(x, last) != Greater
    requires forall k :: 0 <= k < |front| ==> CompareHands(front[k], last) != Greater
    ensures forall i :: 0 <= i < |Insert(x, front)| ==> CompareHands(Insert(x, front)[i], last) != Greater
  {
    var r := Insert(x, front);
    forall i | 0 <= i < |r| ensures CompareHands(r[i], last) != Greater {
      assert r[i] in multiset(r);
      if r[i] != x {
        assert r[i] in front;
      }
    }
  }

  lemma {:induction false} SortSorted(hs: seq<Hand>)
    ensures Sorted(Sort(hs))
  {
    if hs != [] {
      var n := |hs| - 1;
      SortSorted(hs[..n]);
      InsertSorted(hs[n], Sort(hs[..n]));
    }
  }

  /** The elements of `s` that compare equal to `k`, in order. */
  function Ties(s: seq<Hand>, k: Hand): (r: seq<Hand>)
    ensures forall i :: 0 <= i < |r| ==> CompareHands(r[i], k) == Equal
  {
    if s == [] then []
    else
      var n := |s| - 1;
      Ties(s[..n], k) + (if CompareHands(s[n], k) == Equal then [s[n]] else [])
  }

  lemma {:induction false} TiesAppendOne(s: seq<Hand>, y: Hand, k: Hand)
    ensures Ties(s + [y], k) == Ties(s, k) + (if CompareHands(y, k) == Equal then [y] else [])
  {
    assert (s + [y])[..|s|] == s;
  }

  /** Hands that compare equal compare alike with every other hand. */
  lemma EqualHandsCompareAlike(x: Hand, k: Hand, y: Hand)
    requires CompareHands(x, k) == Equal
    ensures CompareHands(y, x) == CompareHands(y, k)
  {
    CompareHandsEqual(x, k);
  }

  /** Inserting `x` adds it to its own ties, behind them, and leaves every
      other class of ties alone. */
  lemma {:induction false} InsertTies(x: Hand, s: seq<Hand>, k: Hand)
    ensures Ties(Insert(x, s), k) == Ties(s, k) + (if CompareHands(x, k) == Equal then [x] else [])
  {
    if |s| > 0 {
      var n := |s| - 1;
      var last, front := s[n], s[..n];
      InsertSnoc(x, s);
      assert s == front + [last];
      TiesAppendOne(front, last, k);
      if CompareHands(last, x) == Greater {
        InsertTies(x, front, k);
        TiesAppendOne(Insert(x, front), last, k);
        if CompareHands(x, k) == Equal {
          EqualHandsCompareAlike(x, k, last);
        }
        SwapPastEmpty(Ties(front, k), if CompareHands(x, k) == Equal then [x] else [],
                      if CompareHands(last, k) == Equal then [last] else []);
      } else {
        TiesAppendOne(s, x, k);
      }
    }
  }

  lemma SwapPastEmpty(a: seq<Hand>, b: seq<Hand>, c: seq<Hand>)
    requires |b| == 0 || |c| == 0
    ensures a + b + c == a + c + b
  {
  }

  /** The last step of `Insert`. */
  lemma InsertSnoc(x: Hand, s: seq<Hand>)
    requires |s| > 0
    ensures Insert(x, s) == if CompareHands(s[|s| - 1], x) == Greater then Insert(x, s[..|s| - 1]) + [s[|s| - 1]]
                            else s + [x]
  {
  }

  /** The sort is stable: hands that compare equal keep their input
      order. */
  lemma {:induction false} SortStable(hs: seq<Hand>, k: Hand)
    ensures Ties(Sort(hs), k) == Ties(hs, k)
  {
    if hs != [] {
      var n := |hs| - 1;
      SortStable(hs[..n], k);
      InsertTies(hs[n], Sort(hs[..n]), k);
    }
  }

  /** No two different hands of `s` compare equal. */
  predicate DistinctKeys(s: seq<Hand>)
  {
    forall x, y :: x in s && y in s && CompareHands(x, y) == Equal ==> x == y
  }

  /** Two sorted permutations of each other with distinct keys end in
      the same hand. */
  lemma SortedPermutationsShareLast(a: seq<Hand>, b: seq<Hand>)
    requires Sorted(a) && Sorted(b) && multiset(a) == multiset(b) && DistinctKeys(a)
    requires a != [] && |a| == |b|
    ensures a[|a| - 1] == b[|b| - 1]
  {
    var n := |a| - 1;
    var x, y := a[n], b[n];
    assert x in multiset(b) && y in multiset(a);
    var i :| 0 <= i < |b| && b[i] == x;
    var j :| 0 <= j < |a| && a[j] == y;
    assert CompareHands(x, y) != Greater by {
      if i < n { assert CompareHands(b[i], b[n]) != Greater; } else { CompareHandsEqual(x, y); }
    }
    assert CompareHands(y, x) != Greater by {
      if j < n { assert CompareHands(a[j], a[n]) != Greater; } else { CompareHandsEqual(y, x); }
    }
    CompareHandsFlip(x, y);
    assert x in a && y in a;
  }

  /** Permutations that end alike stay permutations without the end. */
  lemma DropLastPermutation(a: seq<Hand>, b: seq<Hand>)
    requires multiset(a) == multiset(b) && a != [] && |a| == |b| && a[|a| - 1] == b[|b| - 1]
    ensures multiset(a[..|a| - 1]) == multiset(b[..|b| - 1])
  {
    var n, x := |a| - 1, a[|a| - 1];
    assert a == a[..n] + [x];
    assert b == b[..n] + [x];
    var ma, mb := multiset(a[..n]), multiset(b[..n]);
    assert ma + multiset{x} == mb + multiset{x};
    forall y ensures ma[y] == mb[y] {
      assert (ma + multiset{x})[y] == (mb + multiset{x})[y];
    }
  }

  lemma DropLastSorted(a: seq<Hand>)
    requires Sorted(a) && DistinctKeys(a) && a != []
    ensures Sorted(a[..|a| - 1]) && DistinctKeys(a[..|a| - 1])
  {
    forall z | z in a[..|a| - 1] ensures z in a {
    }
  }

  /** When no two hands compare equal there is only one sorted
      permutation. */
  lemma {:induction false} SortedPermutationUnique(a: seq<Hand>, b: seq<Hand>)
    requires Sorted(a) && Sorted(b) && multiset(a) == multiset(b) && DistinctKeys(a)
    ensures a == b
  {
    assert |a| == |multiset(a)| == |b|;
    if a != [] {
      var n := |a| - 1;
      SortedPermutationsShareLast(a, b);
      DropLastPermutation(a, b);
      DropLastSorted(a);
      DropLastSorted2(b);
      SortedPermutationUnique(a[..n], b[..n]);
      assert a == a[..n] + [a[n]] && b == b[..n] + [b[n]];
    }
  }

  lemma DropLastSorted2(a: seq<Hand>)
    requires Sorted(a) && a != []
    ensures Sorted(a[..|a| - 1])
  {
  }

  /** With distinct keys `Sort` is the sorted permutation, whatever
      algorithm the library uses. */
  lemma SortIsTheSortedPermutation(hs: seq<Hand>, r: seq<Hand>)
    requires Sorted(r) && multiset(r) == multiset(hs) && DistinctKeys(hs)
    ensures Sort(hs) == r
  {
    SortSorted(hs);
    assert DistinctKeys(Sort(hs)) by {
      forall x | x in Sort(hs) ensures x in hs {
        assert x in multiset(Sort(hs));
      }
    }
    SortedPermutationUnique(Sort(hs), r);
  }

  /** `.rev()`. */
  function Reverse(hs: seq<Hand>): (r: seq<Hand>)
    ensures |r| == |hs|
    ensures forall i :: 0 <= i < |hs| ==> r[i] == hs[|hs| - 1 - i]
  {
    seq(|hs|, i requires 0 <= i < |hs| => hs[|hs| - 1 - i])
  }

  lemma {:induction false} ReversePermutation(hs: seq<Hand>)
    ensures multiset(Reverse(hs)) == multiset(hs)
  {
    if hs != [] {
      var n := |hs| - 1;
      ReversePermutation(hs[..n]);
      assert Reverse(hs) == [hs[n]] + Reverse(hs[..n]);
      assert hs == hs[..n] + [hs[n]];
    }
  }

  /** The ranked hands weakest first: every later hand is at least as
      strong as every earlier one. */
  predicate WeakestFirst(r: seq<Hand>)
  {
    forall i, j :: 0 <= i < j < |r| ==> CompareHands(r[j], r[i]) != Greater
  }

  /** `.sorted().rev()` lists a permutation of the hands weakest first. */
  lemma SortedReversedIsWeakestFirst(hs: seq<Hand>)
    ensures WeakestFirst(Reverse(Sort(hs)))
    ensures multiset(Reverse(Sort(hs))) == multiset(hs)
  {
    SortSorted(hs);
    ReversePermutation(Sort(hs));
  }

  /** With distinct keys there is one weakest-first ranking, and
      `.sorted().rev()` finds it. */
  lemma RankingIsUnique(hs: seq<Hand>, r: seq<Hand>)
    requires WeakestFirst(r) && multiset(r) == multiset(hs) && DistinctKeys(hs)
    ensures Reverse(Sort(hs)) == r
  {
    var back := Reverse(r);
    ReversePermutation(r);
    assert Sorted(back);
    SortIsTheSortedPermutation(hs, back);
    assert Reverse(back) == r;
  }

  /** `.enumerate().map(|(i, hand)| (i + 1) * hand.bid).sum()`: the rank
      of a hand is its position counted from 1. */
  function Winnings(ranked: seq<Hand>): int
  {
    Sum(seq(|ranked|, i requires 0 <= i < |ranked| => (i + 1) * ranked[i].bid))
  }

  // ---------------------------------------------------------------------
  // The solvers

  /** A parsed line: five cards and a bid. */
  datatype Input = Input(hand: seq<Card>, bid: nat)

  /** The parser takes exactly five cards per line. */
  predicate FiveCardHands(input: seq<Input>)
  {
    forall i :: 0 <= i < |input| ==> |input[i].hand| == 5
  }

  function Ranks(cards: seq<Card>): (r: seq<nat>)
    ensures |r| == |cards| && forall i :: 0 <= i < |cards| ==> r[i] == Rank(cards[i])
  {
    seq(|cards|, i requires 0 <= i < |cards| => Rank(cards[i]))
  }

  /** The cards after `Card2::from`. */
  function Ranks2(cards: seq<Card>): (r: seq<nat>)
    ensures |r| == |cards| && forall i :: 0 <= i < |cards| ==> r[i] == Rank2(cards[i])
  {
    seq(|cards|, i requires 0 <= i < |cards| => Rank2(cards[i]))
  }

  /** The `Hand` that `solve_part1` builds for a line. */
  function MakeHand(line: Input): Hand
    requires |line.hand| == 5
  {
    HandTypeByLargestGroup(line.hand);
    Hand(GetHandType(line.hand).value, Ranks(line.hand), line.bid)
  }

  /** The `Hand2` that `solve_part2` builds for a line. */
  function MakeHand2(line: Input): Hand
    requires |line.hand| == 5
  {
    Part2JokersJoinLargestGroup(line.hand);
    Hand(GetHandTypePart2(line.hand).value, Ranks2(line.hand), line.bid)
  }

  function Hands(input: seq<Input>): (hs: seq<Hand>)
    requires FiveCardHands(input)
  {
    seq(|input|, i requires 0 <= i < |input| => MakeHand(input[i]))
  }

  function Hands2(input: seq<Input>): (hs: seq<Hand>)
    requires FiveCardHands(input)
  {
    seq(|input|, i requires 0 <= i < |input| => MakeHand2(input[i]))
  }

  function SolvePart1(input: seq<Input>): int
    requires FiveCardHands(input)
  {
    Winnings(Reverse(Sort(Hands(input))))
  }

  function SolvePart2(input: seq<Input>): int
    requires FiveCardHands(input)
  {
    Winnings(Reverse(Sort(Hands2(input))))
  }

  /** Part 1 ranks the hands weakest first, by the classification of
      `get_hand_type`, and when no two hands tie its total is that of the
      one such ranking. */
  lemma Part1RanksWeakestFirst(input: seq<Input>, r: seq<Hand>)
    requires FiveCardHands(input)
    ensures WeakestFirst(Reverse(Sort(Hands(input))))
    ensures multiset(Reverse(Sort(Hands(input)))) == multiset(Hands(input))
    ensures WeakestFirst(r) && multiset(r) == multiset(Hands(input)) && DistinctKeys(Hands(input))
            ==> SolvePart1(input) == Winnings(r)
  {
    SortedReversedIsWeakestFirst(Hands(input));
    if WeakestFirst(r) && multiset(r) == multiset(Hands(input)) && DistinctKeys(Hands(input)) {
      RankingIsUnique(Hands(input), r);
    }
  }

  lemma Part2RanksWeakestFirst(input: seq<Input>, r: seq<Hand>)
    requires FiveCardHands(input)
    ensures WeakestFirst(Reverse(Sort(Hands2(input))))
    ensures multiset(Reverse(Sort(Hands2(input)))) == multiset(Hands2(input))
    ensures WeakestFirst(r) && multiset(r) == multiset(Hands2(input)) && DistinctKeys(Hands2(input))
            ==> SolvePart2(input) == Winnings(r)
  {
    SortedReversedIsWeakestFirst(Hands2(input));
    if WeakestFirst(r) && multiset(r) == multiset(Hands2(input)) && DistinctKeys(Hands2(input)) {
      RankingIsUnique(Hands2(input), r);
    }
  }

  /** Every hand of part 2 is classified by the jokers joining the largest
      group, and at least as strong as in part 1. */
  lemma Part2HandsNeverWeaker(input: seq<Input>, i: nat)
    requires FiveCardHands(input) && i < |input|
    ensures Hands2(input)[i].handType == JokersJoinLargestGroup(input[i].hand)
    ensures TypeRank(Hands2(input)[i].handType) <= TypeRank(Hands(input)[i].handType)
  {
    Part2JokersJoinLargestGroup(input[i].hand);
    JokersNeverWeaken(input[i].hand);
  }

  // ---------------------------------------------------------------------
  // The puzzle's published example

  /** Reading a five-card hand's type off its distinct cards and largest
      count. */
  lemma TypeFromCounts(cards: seq<Card>, keys: set<Card>, m: nat)
    requires |cards| == 5 && Keys(cards) == keys
    requires forall c :: c in keys ==> Count(cards, c) <= m
    requires exists c :: c in keys && Count(cards, c) == m
    ensures GetHandType(cards) == Some(ByLargestGroup(|keys|, m))
  {
    HandTypeByLargestGroup(cards);
    var c :| c in keys && Count(cards, c) == m;
    var i :| 0 <= i < |cards| && cards[i] == c;
    assert Count(cards, cards[i]) <= MaxCount(cards);
    var j :| 0 <= j < |cards| && Count(cards, cards[j]) == MaxCount(cards);
    assert cards[j] in keys;
  }

  /** The same for part 2, from the other cards' distinct cards and
      largest count. */
  lemma Type2FromCounts(cards: seq<Card>, keys: set<Card>, m: nat)
    requires |cards| == 5 && Keys(cards) - {J} == keys
    requires forall c :: c in keys ==> Count(cards, c) <= m
    requires exists c :: c in keys && Count(cards, c) == m
    ensures GetHandTypePart2(cards) == Some(JokersJoin(|keys|, m, Count(cards, J)))
  {
    OthersFromCounts(cards, keys, m);
    Part2FromOthers(cards, |keys|, m);
  }

  lemma Part2FromOthers(cards: seq<Card>, d: nat, m: nat)
    requires |cards| == 5 && |NonJokers(cards)| > 0
    requires |Keys(NonJokers(cards))| == d && MaxCount(NonJokers(cards)) == m
    ensures GetHandTypePart2(cards) == Some(JokersJoin(d, m, Count(cards, J)))
  {
    Part2JokersJoinLargestGroup(cards);
  }

  lemma OthersFromCounts(cards: seq<Card>, keys: set<Card>, m: nat)
    requires Keys(cards) - {J} == keys
    requires forall c :: c in keys ==> Count(cards, c) <= m
    requires exists c :: c in keys && Count(cards, c) == m
    ensures var others := NonJokers(cards);
            |others| > 0 && Keys(others) == keys && MaxCount(others) == m
  {
    var others := NonJokers(cards);
    NonJokersMembers(cards);
    assert Keys(others) == keys;
    var c :| c in keys && Count(cards, c) == m;
    OtherCount(cards, c);
    CountAtMostMax(others, c);
    var top := LargestGroupCard(others);
    OtherCount(cards, top);
  }

  /** The distinct cards of a hand of five. */
  lemma KeysFive(h: seq<Card>)
    requires |h| == 5
    ensures Keys(h) == {h[0], h[1], h[2], h[3], h[4]}
  {
    assert forall c :: c in h <==> c == h[0] || c == h[1] || c == h[2] || c == h[3] || c == h[4];
  }

  /** How often a card occurs in a hand of five, position by position. */
  lemma CountFive(h: seq<Card>, c: Card)
    requires |h| == 5
    ensures Count(h, c) == (if h[0] == c then 1 else 0) + (if h[1] == c then 1 else 0) + (if h[2] == c then 1 else 0)
                           + (if h[3] == c then 1 else 0) + (if h[4] == c then 1 else 0)
  {
    assert h == [h[0]] + [h[1]] + [h[2]] + [h[3]] + [h[4]];
    assert multiset(h) == multiset{h[0]} + multiset{h[1]} + multiset{h[2]} + multiset{h[3]} + multiset{h[4]};
  }

  lemma ExampleHand0(h: seq<Card>)
    requires h == [Three, Two, T, Three, K]
    ensures GetHandType(h) == Some(OnePair)
  {
    assert |{Three, Two, T, K}| == 4 && ByLargestGroup(4, 2) == OnePair;
    KeysFive(h);
    assert Keys(h) == {Three, Two, T, K};
    CountFive(h, Three);
    CountFive(h, Two);
    CountFive(h, T);
    CountFive(h, K);
    assert Count(h, Three) == 2 && Count(h, Two) == 1 && Count(h, T) == 1 && Count(h, K) == 1;
    TypeFromCounts(h, {Three, Two, T, K}, 2);
  }

  lemma ExampleHand0Jokers(h: seq<Card>)
    requires h == [Three, Two, T, Three, K]
    ensures GetHandTypePart2(h) == Some(OnePair)
  {
    assert Count(h, J) == 0;
    ExampleHand0(h);
  }

  lemma ExampleHand1(h: seq<Card>)
    requires h == [T, Five, Five, J, Five]
    ensures GetHandType(h) == Some(ThreeKind)
  {
    assert |{T, Five, J}| == 3 && ByLargestGroup(3, 3) == ThreeKind;
    KeysFive(h);
    assert Keys(h) == {T, Five, J};
    CountFive(h, T);
    CountFive(h, Five);
    CountFive(h, J);
    assert Count(h, T) == 1 && Count(h, Five) == 3 && Count(h, J) == 1;
    TypeFromCounts(h, {T, Five, J}, 3);
  }

  lemma ExampleHand1Jokers(h: seq<Card>)
    requires h == [T, Five, Five, J, Five]
    ensures GetHandTypePart2(h) == Some(FourKind)
  {
    assert Keys(h) - {J} == {T, Five};
    assert Count(h, T) == 1 && Count(h, Five) == 3;
    Type2FromCounts(h, {T, Five}, 3);
  }

  lemma ExampleHand2(h: seq<Card>)
    requires h == [K, K, Six, Seven, Seven]
    ensures GetHandType(h) == Some(TwoPair)
  {
    assert |{K, Six, Seven}| == 3 && ByLargestGroup(3, 2) == TwoPair;
    KeysFive(h);
    assert Keys(h) == {K, Six, Seven};
    CountFive(h, K);
    CountFive(h, Six);
    CountFive(h, Seven);
    assert Count(h, K) == 2 && Count(h, Six) == 1 && Count(h, Seven) == 2;
    TypeFromCounts(h, {K, Six, Seven}, 2);
  }

  lemma ExampleHand2Jokers(h: seq<Card>)
    requires h == [K, K, Six, Seven, Seven]
    ensures GetHandTypePart2(h) == Some(TwoPair)
  {
    assert Count(h, J) == 0;
    ExampleHand2(h);
  }

  lemma ExampleHand3(h: seq<Card>)
    requires h == [K, T, J, J, T]
    ensures GetHandType(h) == Some(TwoPair)
  {
    assert |{K, T, J}| == 3 && ByLargestGroup(3, 2) == TwoPair;
    KeysFive(h);
    assert Keys(h) == {K, T, J};
    CountFive(h, K);
    CountFive(h, T);
    CountFive(h, J);
    assert Count(h, K) == 1 && Count(h, T) == 2 && Count(h, J) == 2;
    TypeFromCounts(h, {K, T, J}, 2);
  }

  lemma ExampleHand3Jokers(h: seq<Card>)
    requires h == [K, T, J, J, T]
    ensures GetHandTypePart2(h) == Some(FourKind)
  {
    assert Keys(h) - {J} == {K, T};
    assert Count(h, K) == 1 && Count(h, T) == 2;
    Type2FromCounts(h, {K, T}, 2);
  }

  lemma ExampleHand4(h: seq<Card>)
    requires h == [Q, Q, Q, J, A]
    ensures GetHandType(h) == Some(ThreeKind)
  {
    assert |{Q, J, A}| == 3 && ByLargestGroup(3, 3) == ThreeKind;
    KeysFive(h);
    assert Keys(h) == {Q, J, A};
    CountFive(h, Q);
    CountFive(h, J);
    CountFive(h, A);
    assert Count(h, Q) == 3 && Count(h, J) == 1 && Count(h, A) == 1;
    TypeFromCounts(h, {Q, J, A}, 3);
  }

  lemma ExampleHand4Jokers(h: seq<Card>)
    requires h == [Q, Q, Q, J, A]
    ensures GetHandTypePart2(h) == Some(FourKind)
  {
    assert Keys(h) - {J} == {Q, A};
    assert Count(h, Q) == 3 && Count(h, A) == 1;
    Type2FromCounts(h, {Q, A}, 3);
  }

  /** Hands whose cards all differ never tie. */
  lemma DistinctCardsNeverTie(s: seq<Hand>)
    requires forall i, j :: 0 <= i < j < |s| ==> s[i].ranks != s[j].ranks
    ensures DistinctKeys(s)
  {
    forall x, y | x in s && y in s && CompareHands(x, y) == Equal ensures x == y {
      CompareHandsEqual(x, y);
      var i :| 0 <= i < |s| && s[i] == x;
      var j :| 0 <= j < |s| && s[j] == y;
      assert s[i].ranks == s[j].ranks;
    }
  }

  /** The ranks of five cards, position by position. These facts are
      established before any fact about the hand's type: the type's
      definition on a literal hand is costly to have in scope. */
  lemma RanksOf(cards: seq<Card>, rs: seq<nat>)
    requires |cards| == 5 && |rs| == 5
    requires Rank(cards[0]) == rs[0] && Rank(cards[1]) == rs[1] && Rank(cards[2]) == rs[2]
    requires Rank(cards[3]) == rs[3] && Rank(cards[4]) == rs[4]
    ensures Ranks(cards) == rs
  {
    FiveEqual(Ranks(cards), rs);
  }

  /** The same in the part-2 order. */
  lemma Ranks2Of(cards: seq<Card>, rs: seq<nat>)
    requires |cards| == 5 && |rs| == 5
    requires Rank2(cards[0]) == rs[0] && Rank2(cards[1]) == rs[1] && Rank2(cards[2]) == rs[2]
    requires Rank2(cards[3]) == rs[3] && Rank2(cards[4]) == rs[4]
    ensures Ranks2(cards) == rs
  {
    FiveEqual(Ranks2(cards), rs);
  }

  lemma ExampleLine0(line: Input)
    requires line == Input([Three, Two, T, Three, K], 765)
    ensures |line.hand| == 5 && MakeHand(line) == Hand(OnePair, [11, 12, 4, 11, 1], 765)
  {
    RanksOf(line.hand, [11, 12, 4, 11, 1]);
    ExampleHand0(line.hand);
  }

  lemma ExampleLine0Jokers(line: Input)
    requires line == Input([Three, Two, T, Three, K], 765)
    ensures |line.hand| == 5 && MakeHand2(line) == Hand(OnePair, [10, 11, 3, 10, 1], 765)
  {
    Ranks2Of(line.hand, [10, 11, 3, 10, 1]);
    ExampleHand0Jokers(line.hand);
  }

  lemma ExampleLine1(line: Input)
    requires line == Input([T, Five, Five, J, Five], 684)
    ensures |line.hand| == 5 && MakeHand(line) == Hand(ThreeKind, [4, 9, 9, 3, 9], 684)
  {
    RanksOf(line.hand, [4, 9, 9, 3, 9]);
    ExampleHand1(line.hand);
  }

  lemma ExampleLine1Jokers(line: Input)
    requires line == Input([T, Five, Five, J, Five], 684)
    ensures |line.hand| == 5 && MakeHand2(line) == Hand(FourKind, [3, 8, 8, 12, 8], 684)
  {
    Ranks2Of(line.hand, [3, 8, 8, 12, 8]);
    ExampleHand1Jokers(line.hand);
  }

  lemma ExampleLine2(line: Input)
    requires line == Input([K, K, Six, Seven, Seven], 28)
    ensures |line.hand| == 5 && MakeHand(line) == Hand(TwoPair, [1, 1, 8, 7, 7], 28)
  {
    RanksOf(line.hand, [1, 1, 8, 7, 7]);
    ExampleHand2(line.hand);
  }

  lemma ExampleLine2Jokers(line: Input)
    requires line == Input([K, K, Six, Seven, Seven], 28)
    ensures |line.hand| == 5 && MakeHand2(line) == Hand(TwoPair, [1, 1, 7, 6, 6], 28)
  {
    Ranks2Of(line.hand, [1, 1, 7, 6, 6]);
    ExampleHand2Jokers(line.hand);
  }

  lemma ExampleLine3(line: Input)
    requires line == Input([K, T, J, J, T], 220)
    ensures |line.hand| == 5 && MakeHand(line) == Hand(TwoPair, [1, 4, 3, 3, 4], 220)
  {
    RanksOf(line.hand, [1, 4, 3, 3, 4]);
    ExampleHand3(line.hand);
  }

  lemma ExampleLine3Jokers(line: Input)
    requires line == Input([K, T, J, J, T], 220)
    ensures |line.hand| == 5 && MakeHand2(line) == Hand(FourKind, [1, 3, 12, 12, 3], 220)
  {
    Ranks2Of(line.hand, [1, 3, 12, 12, 3]);
    ExampleHand3Jokers(line.hand);
  }

  lemma ExampleLine4(line: Input)
    requires line == Input([Q, Q, Q, J, A], 483)
    ensures |line.hand| == 5 && MakeHand(line) == Hand(ThreeKind, [2, 2, 2, 3, 0], 483)
  {
    RanksOf(line.hand, [2, 2, 2, 3, 0]);
    ExampleHand4(line.hand);
  }

  lemma ExampleLine4Jokers(line: Input)
    requires line == Input([Q, Q, Q, J, A], 483)
    ensures |line.hand| == 5 && MakeHand2(line) == Hand(FourKind, [2, 2, 2, 12, 0], 483)
  {
    Ranks2Of(line.hand, [2, 2, 2, 12, 0]);
    ExampleHand4Jokers(line.hand);
  }

  /** The hands built from five lines, line by line. */
  lemma HandsOfFive(input: seq<Input>)
    requires |input| == 5 && FiveCardHands(input)
    ensures Hands(input) == [MakeHand(input[0]), MakeHand(input[1]), MakeHand(input[2]), MakeHand(input[3]), MakeHand(input[4])]
  {
    var r := Hands(input);
    var e := [MakeHand(input[0]), MakeHand(input[1]), MakeHand(input[2]), MakeHand(input[3]), MakeHand(input[4])];
    assert r[0] == e[0] && r[1] == e[1] && r[2] == e[2] && r[3] == e[3] && r[4] == e[4];
    FiveEqual(r, e);
  }

  /** The same for part 2. */
  lemma Hands2OfFive(input: seq<Input>)
    requires |input| == 5 && FiveCardHands(input)
    ensures Hands2(input) == [MakeHand2(input[0]), MakeHand2(input[1]), MakeHand2(input[2]), MakeHand2(input[3]), MakeHand2(input[4])]
  {
    var r := Hands2(input);
    var e := [MakeHand2(input[0]), MakeHand2(input[1]), MakeHand2(input[2]), MakeHand2(input[3]), MakeHand2(input[4])];
    assert r[0] == e[0] && r[1] == e[1] && r[2] == e[2] && r[3] == e[3] && r[4] == e[4];
    FiveEqual(r, e);
  }

  lemma FiveLinesOfFive(input: seq<Input>)
    requires |input| == 5 && |input[0].hand| == 5 && |input[1].hand| == 5 && |input[2].hand| == 5
    requires |input[3].hand| == 5 && |input[4].hand| == 5
    ensures FiveCardHands(input)
  {
  }

  lemma ExampleHands(input: seq<Input>)
    requires input == [Input([Three, Two, T, Three, K], 765), Input([T, Five, Five, J, Five], 684),
                       Input([K, K, Six, Seven, Seven], 28), Input([K, T, J, J, T], 220),
                       Input([Q, Q, Q, J, A], 483)]
    ensures FiveCardHands(input)
    ensures Hands(input) == [Hand(OnePair, [11, 12, 4, 11, 1], 765), Hand(ThreeKind, [4, 9, 9, 3, 9], 684),
                             Hand(TwoPair, [1, 1, 8, 7, 7], 28), Hand(TwoPair, [1, 4, 3, 3, 4], 220),
                             Hand(ThreeKind, [2, 2, 2, 3, 0], 483)]
    ensures Hands2(input) == [Hand(OnePair, [10, 11, 3, 10, 1], 765), Hand(FourKind, [3, 8, 8, 12, 8], 684),
                              Hand(TwoPair, [1, 1, 7, 6, 6], 28), Hand(FourKind, [1, 3, 12, 12, 3], 220),
                              Hand(FourKind, [2, 2, 2, 12, 0], 483)]
  {
    ExampleHandsPart1(input);
    ExampleHandsPart2(input);
  }

  lemma ExampleHandsPart1(input: seq<Input>)
    requires |input| == 5
    requires input[0] == Input([Three, Two, T, Three, K], 765) && input[1] == Input([T, Five, Five, J, Five], 684)
    requires input[2] == Input([K, K, Six, Seven, Seven], 28) && input[3] == Input([K, T, J, J, T], 220)
    requires input[4] == Input([Q, Q, Q, J, A], 483)
    ensures FiveCardHands(input)
    ensures Hands(input) == [Hand(OnePair, [11, 12, 4, 11, 1], 765), Hand(ThreeKind, [4, 9, 9, 3, 9], 684),
                             Hand(TwoPair, [1, 1, 8, 7, 7], 28), Hand(TwoPair, [1, 4, 3, 3, 4], 220),
                             Hand(ThreeKind, [2, 2, 2, 3, 0], 483)]
  {
    ExampleLine0(input[0]);
    ExampleLine1(input[1]);
    ExampleLine2(input[2]);
    ExampleLine3(input[3]);
    ExampleLine4(input[4]);
    FiveLinesOfFive(input);
    HandsOfFive(input);
  }

  lemma ExampleHandsPart2(input: seq<Input>)
    requires |input| == 5
    requires input[0] == Input([Three, Two, T, Three, K], 765) && input[1] == Input([T, Five, Five, J, Five], 684)
    requires input[2] == Input([K, K, Six, Seven, Seven], 28) && input[3] == Input([K, T, J, J, T], 220)
    requires input[4] == Input([Q, Q, Q, J, A], 483)
    ensures FiveCardHands(input)
    ensures Hands2(input) == [Hand(OnePair, [10, 11, 3, 10, 1], 765), Hand(FourKind, [3, 8, 8, 12, 8], 684),
                              Hand(TwoPair, [1, 1, 7, 6, 6], 28), Hand(FourKind, [1, 3, 12, 12, 3], 220),
                              Hand(FourKind, [2, 2, 2, 12, 0], 483)]
  {
    ExampleLine0Jokers(input[0]);
    ExampleLine1Jokers(input[1]);
    ExampleLine2Jokers(input[2]);
    ExampleLine3Jokers(input[3]);
    ExampleLine4Jokers(input[4]);
    FiveLinesOfFive(input);
    Hands2OfFive(input);
  }

  /** The example's part-1 hands, weakest first: 32T3K, KTJJT, KK677,
      T55J5, QQQJA. */
  lemma ExampleRanking(hs: seq<Hand>)
    requires hs == [Hand(OnePair, [11, 12, 4, 11, 1], 765), Hand(ThreeKind, [4, 9, 9, 3, 9], 684),
                    Hand(TwoPair, [1, 1, 8, 7, 7], 28), Hand(TwoPair, [1, 4, 3, 3, 4], 220),
                    Hand(ThreeKind, [2, 2, 2, 3, 0], 483)]
    ensures var r := [hs[0], hs[3], hs[2], hs[1], hs[4]];
            WeakestFirst(r) && multiset(r) == multiset(hs) && DistinctKeys(hs) && Winnings(r) == 6440
  {
    var r := [hs[0], hs[3], hs[2], hs[1], hs[4]];
    ExampleOrder(r);
    DistinctCardsNeverTie(hs);
    ExampleWinnings(r);
  }

  lemma ExampleOrder(r: seq<Hand>)
    requires r == [Hand(OnePair, [11, 12, 4, 11, 1], 765), Hand(TwoPair, [1, 4, 3, 3, 4], 220),
                   Hand(TwoPair, [1, 1, 8, 7, 7], 28), Hand(ThreeKind, [4, 9, 9, 3, 9], 684),
                   Hand(ThreeKind, [2, 2, 2, 3, 0], 483)]
    ensures WeakestFirst(r)
  {
  }

  lemma ExampleWinnings(r: seq<Hand>)
    requires |r| == 5 && r[0].bid == 765 && r[1].bid == 220 && r[2].bid == 28
    requires r[3].bid == 684 && r[4].bid == 483
    ensures Winnings(r) == 6440
  {
    SumFive(seq(5, i requires 0 <= i < 5 => (i + 1) * r[i].bid));
  }

  /** The example's part-2 hands, weakest first: 32T3K, KK677, T55J5,
      QQQJA, KTJJT. */
  lemma ExampleRanking2(hs: seq<Hand>)
    requires hs == [Hand(OnePair, [10, 11, 3, 10, 1], 765), Hand(FourKind, [3, 8, 8, 12, 8], 684),
                    Hand(TwoPair, [1, 1, 7, 6, 6], 28), Hand(FourKind, [1, 3, 12, 12, 3], 220),
                    Hand(FourKind, [2, 2, 2, 12, 0], 483)]
    ensures var r := [hs[0], hs[2], hs[1], hs[4], hs[3]];
            WeakestFirst(r) && multiset(r) == multiset(hs) && DistinctKeys(hs) && Winnings(r) == 5905
  {
    var r := [hs[0], hs[2], hs[1], hs[4], hs[3]];
    ExampleOrder2(r);
    DistinctCardsNeverTie(hs);
    ExampleWinnings2(r);
  }

  lemma ExampleOrder2(r: seq<Hand>)
    requires r == [Hand(OnePair, [10, 11, 3, 10, 1], 765), Hand(TwoPair, [1, 1, 7, 6, 6], 28),
                   Hand(FourKind, [3, 8, 8, 12, 8], 684), Hand(FourKind, [2, 2, 2, 12, 0], 483),
                   Hand(FourKind, [1, 3, 12, 12, 3], 220)]
    ensures WeakestFirst(r)
  {
  }

  lemma ExampleWinnings2(r: seq<Hand>)
    requires |r| == 5 && r[0].bid == 765 && r[1].bid == 28 && r[2].bid == 684
    requires r[3].bid == 483 && r[4].bid == 220
    ensures Winnings(r) == 5905
  {
    SumFive(seq(5, i requires 0 <= i < 5 => (i + 1) * r[i].bid));
  }

  /** The part-1 total of the example, 6440. */
  lemma ExamplePart1(input: seq<Input>)
    requires input == [Input([Three, Two, T, Three, K], 765), Input([T, Five, Five, J, Five], 684),
                       Input([K, K, Six, Seven, Seven], 28), Input([K, T, J, J, T], 220),
                       Input([Q, Q, Q, J, A], 483)]
    ensures FiveCardHands(input) && SolvePart1(input) == 6440
  {
    ExampleHands(input);
    var hs := Hands(input);
    ExampleRanking(hs);
    Part1RanksWeakestFirst(input, [hs[0], hs[3], hs[2], hs[1], hs[4]]);
  }

  /** The part-2 total of the example, 5905. */
  lemma ExamplePart2(input: seq<Input>)
    requires input == [Input([Three, Two, T, Three, K], 765), Input([T, Five, Five, J, Five], 684),
                       Input([K, K, Six, Seven, Seven], 28), Input([K, T, J, J, T], 220),
                       Input([Q, Q, Q, J, A], 483)]
    ensures FiveCardHands(input) && SolvePart2(input) == 5905
  {
    ExampleHands(input);
    var hs := Hands2(input);
    ExampleRanking2(hs);
    Part2RanksWeakestFirst(input, [hs[0], hs[2], hs[1], hs[4], hs[3]]);
  }
}
