/** Day 2: the cube game (src/bin/day2.rs). Each game is a list of draws
    of red, green and blue cubes; part 1 sums the ids of the games a given
    bag could have produced, part 2 the powers of the smallest such bags. */
module Day2 {
  import opened Common

  datatype Colour = Red | Green | Blue

  /** One `<count> <colour>` item of a draw (the parser's `Ball`). */
  datatype Cube = Cube(count: nat, colour: Colour)

  /** One draw, or a bag: how many cubes of each colour (`Balls`). */
  datatype Balls = Balls(red: nat, green: nat, blue: nat)
  {
    function Get(c: Colour): nat
    {
      match c
      case Red => red
      case Green => green
      case Blue => blue
    }
  }

  /** One line of the input: the game's id and its draws (`Input`). */
  datatype Game = Game(id: nat, draws: seq<Balls>)

  /** The `find_map` of `parse_game`: the count of the first item of
      colour `c`, if there is one. */
  function FirstOfColour(cubes: seq<Cube>, c: Colour): (r: Option<nat>)
    ensures r.None? <==> forall i :: 0 <= i < |cubes| ==> cubes[i].colour != c
    ensures r.Some? ==> exists i :: 0 <= i < |cubes| && cubes[i] == Cube(r.value, c)
                          && forall j :: 0 <= j < i ==> cubes[j].colour != c
  {
    if cubes == [] then None
    else if cubes[0].colour == c then Some(cubes[0].count)
    else
      var r := FirstOfColour(cubes[1..], c);
      assert forall i :: 1 <= i < |cubes| ==> cubes[i] == cubes[1..][i - 1];
      r
  }

  function CountOrZero(r: Option<nat>): nat
  {
    if r.Some? then r.value else 0
  }

  /** `parse_game` after the list of items has been read: more than three
      items is an error (the source panics); otherwise each colour takes
      the count of its first item, or 0 if it has none. */
  function ParseGame(cubes: seq<Cube>): (r: Option<Balls>)
    ensures r.None? <==> |cubes| > 3
    ensures r.Some? ==> forall c: Colour ::
      (r.value.Get(c) == 0 && forall i :: 0 <= i < |cubes| ==> cubes[i].colour != c)
      || exists i :: 0 <= i < |cubes| && cubes[i] == Cube(r.value.Get(c), c)
                     && forall j :: 0 <= j < i ==> cubes[j].colour != c
  {
    if |cubes| > 3 then None
    else
      var b := Balls(CountOrZero(FirstOfColour(cubes, Red)),
                     CountOrZero(FirstOfColour(cubes, Green)),
                     CountOrZero(FirstOfColour(cubes, Blue)));
      assert forall c: Colour :: b.Get(c) == CountOrZero(FirstOfColour(cubes, c));
      Some(b)
  }

  /** `is_legal_game`: the draw fits in the bag, colour by colour. */
  predicate IsLegalGame(draw: Balls, bag: Balls)
  {
    draw.blue <= bag.blue && draw.red <= bag.red && draw.green <= bag.green
  }

  predicate IsPossible(game: Game, bag: Balls)
  {
    forall i :: 0 <= i < |game.draws| ==> IsLegalGame(game.draws[i], bag)
  }

  function PossibleIds(games: seq<Game>, bag: Balls): (ids: seq<int>)
    ensures |ids| == |games|
    ensures forall i :: 0 <= i < |games| ==>
      ids[i] == if IsPossible(games[i], bag) then games[i].id else 0
  {
    seq(|games|, i requires 0 <= i < |games| =>
      if IsPossible(games[i], bag) then games[i].id as int else 0)
  }

  /** `solve_part1`: the sum of the ids of the possible games. */
  function SolvePart1(games: seq<Game>, bag: Balls): int
  {
    Sum(PossibleIds(games, bag))
  }

  function Max(a: nat, b: nat): (m: nat)
    ensures m >= a && m >= b && (m == a || m == b)
  {
    if a >= b then a else b
  }

  /** The fold of `solve_part2` from `(0, 0, 0)`: the largest count of
      each colour over the draws. */
  function MaxFold(draws: seq<Balls>): (m: Balls)
    ensures forall c: Colour, i :: 0 <= i < |draws| ==> draws[i].Get(c) <= m.Get(c)
    ensures forall c: Colour :: m.Get(c) == 0 || exists i :: 0 <= i < |draws| && draws[i].Get(c) == m.Get(c)
  {
    if draws == [] then Balls(0, 0, 0)
    else
      var front := draws[..|draws| - 1];
      var acc := MaxFold(front);
      var d := draws[|draws| - 1];
      var m := Balls(Max(acc.red, d.red), Max(acc.green, d.green), Max(acc.blue, d.blue));
      assert forall c: Colour :: m.Get(c) == Max(acc.Get(c), d.Get(c));
      assert forall i :: 0 <= i < |front| ==> front[i] == draws[i];
      m
  }

  function Power(bag: Balls): nat
  {
    bag.red * bag.green * bag.blue
  }

  function Powers(games: seq<Game>): (ps: seq<int>)
    ensures |ps| == |games|
    ensures forall i :: 0 <= i < |games| ==> ps[i] == Power(MaxFold(games[i].draws))
  {
    seq(|games|, i requires 0 <= i < |games| => Power(MaxFold(games[i].draws)) as int)
  }

  /** `solve_part2`: the sum of the powers of the per-game maxima. */
  function SolvePart2(games: seq<Game>): int
  {
    Sum(Powers(games))
  }

  // ---------------------------------------------------------------------
  // Properties

  /** The fold's maxima form the smallest bag the game is possible with:
      a bag admits the game exactly when it holds at least that many of
      every colour. */
  lemma MaxFoldIsSmallestBag(game: Game, bag: Balls)
    ensures IsPossible(game, bag) <==> IsLegalGame(MaxFold(game.draws), bag)
  {
    var m := MaxFold(game.draws);
    if IsPossible(game, bag) {
      forall c: Colour ensures m.Get(c) <= bag.Get(c) {
        if m.Get(c) != 0 {
          var i :| 0 <= i < |game.draws| && game.draws[i].Get(c) == m.Get(c);
          assert IsLegalGame(game.draws[i], bag);
        }
      }
      assert m.Get(Red) <= bag.Get(Red) && m.Get(Green) <= bag.Get(Green) && m.Get(Blue) <= bag.Get(Blue);
    }
    if IsLegalGame(m, bag) {
      forall i | 0 <= i < |game.draws| ensures IsLegalGame(game.draws[i], bag) {
        var d := game.draws[i];
        assert d.Get(Red) <= m.Get(Red) && d.Get(Green) <= m.Get(Green) && d.Get(Blue) <= m.Get(Blue);
      }
    }
  }

  /** The game is possible with the bag of its own maxima. */
  lemma MaxFoldAdmitsGame(game: Game)
    ensures IsPossible(game, MaxFold(game.draws))
  {
    MaxFoldIsSmallestBag(game, MaxFold(game.draws));
  }

  /** A bigger bag admits every game a smaller one does, so the part-1
      sum can only grow. */
  lemma PossibleMonotone(games: seq<Game>, small: Balls, big: Balls)
    requires IsLegalGame(small, big)
    ensures forall i :: 0 <= i < |games| && IsPossible(games[i], small) ==> IsPossible(games[i], big)
    ensures SolvePart1(games, small) <= SolvePart1(games, big)
  {
    var a := PossibleIds(games, small);
    var b := PossibleIds(games, big);
    var diff := seq(|games|, i requires 0 <= i < |games| => b[i] - a[i]);
    assert b == seq(|games|, i requires 0 <= i < |games| => a[i] + diff[i]);
    SumPointwise(a, diff);
    SumNonNegative(diff);
  }

  /** A draw-free game is possible with any bag, and needs an empty bag
      (power 0). */
  lemma EmptyGame(id: nat, bag: Balls)
    ensures IsPossible(Game(id, []), bag)
    ensures MaxFold([]) == Balls(0, 0, 0) && Power(MaxFold([])) == 0
  {
  }

  /** Part 1 is never more than the sum of all ids, and equals it when
      every game is possible. */
  lemma Part1Bounds(games: seq<Game>, bag: Balls)
    ensures SolvePart1(games, bag) <= Sum(seq(|games|, i requires 0 <= i < |games| => games[i].id as int))
    ensures (forall i :: 0 <= i < |games| ==> IsPossible(games[i], bag))
            ==> SolvePart1(games, bag) == Sum(seq(|games|, i requires 0 <= i < |games| => games[i].id as int))
  {
    var all := seq(|games|, i requires 0 <= i < |games| => games[i].id as int);
    var ids := PossibleIds(games, bag);
    var diff := seq(|games|, i requires 0 <= i < |games| => all[i] - ids[i]);
    assert all == seq(|ids|, i requires 0 <= i < |ids| => ids[i] + diff[i]);
    SumPointwise(ids, diff);
    SumNonNegative(diff);
    if forall i :: 0 <= i < |games| ==> IsPossible(games[i], bag) {
      assert ids == all;
    }
  }

  // ---------------------------------------------------------------------
  // The puzzle's published example, with the bag of 12 red, 13 green and
  // 14 blue cubes

  /** Parsing `3 blue, 4 red` keeps both counts and fills green with 0. */
  lemma ExampleParse(cubes: seq<Cube>)
    requires cubes == [Cube(3, Blue), Cube(4, Red)]
    ensures ParseGame(cubes) == Some(Balls(4, 0, 3))
  {
    assert FirstOfColour(cubes[1..][1..], Green).None?;
    assert FirstOfColour(cubes, Green).None?;
    assert FirstOfColour(cubes, Red) == Some(4);
  }

  /** Four cube items are rejected. */
  lemma ExampleParseTooMany(cubes: seq<Cube>)
    requires cubes == [Cube(1, Red), Cube(2, Green), Cube(3, Blue), Cube(4, Red)]
    ensures ParseGame(cubes).None?
  {
  }

  lemma ExampleGames(g: seq<Game>)
    requires g == [
      Game(1, [Balls(4, 0, 3), Balls(1, 2, 6), Balls(0, 2, 0)]),
      Game(2, [Balls(0, 2, 1), Balls(1, 3, 4), Balls(0, 1, 1)]),
      Game(3, [Balls(20, 8, 6), Balls(4, 13, 5), Balls(1, 5, 0)]),
      Game(4, [Balls(3, 1, 6), Balls(6, 3, 0), Balls(14, 3, 15)]),
      Game(5, [Balls(6, 3, 1), Balls(1, 2, 2)])]
    ensures SolvePart1(g, Balls(12, 13, 14)) == 8
  {
    var bag := Balls(12, 13, 14);
    assert IsPossible(g[0], bag) && IsPossible(g[1], bag) && IsPossible(g[4], bag);
    assert !IsLegalGame(g[2].draws[0], bag) && !IsLegalGame(g[3].draws[2], bag);
    var ids := PossibleIds(g, bag);
    assert ids == [1, 2, 0, 0, 5];
    SumFive(ids);
  }

  lemma ExamplePowers(g: seq<Game>)
    requires g == [
      Game(1, [Balls(4, 0, 3), Balls(1, 2, 6), Balls(0, 2, 0)]),
      Game(2, [Balls(0, 2, 1), Balls(1, 3, 4), Balls(0, 1, 1)]),
      Game(3, [Balls(20, 8, 6), Balls(4, 13, 5), Balls(1, 5, 0)]),
      Game(4, [Balls(3, 1, 6), Balls(6, 3, 0), Balls(14, 3, 15)]),
      Game(5, [Balls(6, 3, 1), Balls(1, 2, 2)])]
    ensures SolvePart2(g) == 2286
  {
    MaxOfThree(g[0].draws);
    MaxOfThree(g[1].draws);
    MaxOfThree(g[2].draws);
    MaxOfThree(g[3].draws);
    var d := g[4].draws;
    assert d[..1][..0] == [] && d[..1] == [d[0]];
    assert MaxFold(d) == Balls(6, 3, 2);
    var ps := Powers(g);
    assert ps == [48, 12, 1560, 630, 36];
    SumFive(ps);
  }

  lemma MaxOfThree(d: seq<Balls>)
    requires |d| == 3
    ensures MaxFold(d) == Balls(Max(Max(d[0].red, d[1].red), d[2].red),
                                Max(Max(d[0].green, d[1].green), d[2].green),
                                Max(Max(d[0].blue, d[1].blue), d[2].blue))
  {
    var d1 := d[..2][..1];
    assert d1 == [d[0]] && d1[..0] == [] && d[..2][1] == d[1];
    assert MaxFold(d1) == Balls(d[0].red, d[0].green, d[0].blue);
    assert MaxFold(d[..2]) == Balls(Max(d[0].red, d[1].red), Max(d[0].green, d[1].green), Max(d[0].blue, d[1].blue));
  }
}
