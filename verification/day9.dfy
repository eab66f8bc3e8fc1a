/** Day 9: extrapolating a history by repeated differences
    (src/bin/day9.rs). */
module Day9 {
  import opened Common

  /** `find_differences`: the `tuple_windows` differences `b - a`. */
  function FindDifferences(xs: seq<int>): (d: seq<int>)
    ensures |d| == if |xs| == 0 then 0 else |xs| - 1
    ensures forall i :: 0 <= i < |d| ==> d[i] == xs[i + 1] - xs[i]
  {
    if |xs| < 2 then []
    else [xs[1] - xs[0]] + FindDifferences(xs[1..])
  }

  predicate AllZero(xs: seq<int>)
  {
    forall i :: 0 <= i < |xs| ==> xs[i] == 0
  }

  /** `find_next_number`: zero for an all-zero history (the empty one
      included), otherwise the last value plus the extrapolation of the
      differences, which are one shorter. */
  function FindNextNumber(xs: seq<int>): int
    decreases |xs|
  {
    if AllZero(xs) then 0
    else xs[|xs| - 1] + FindNextNumber(FindDifferences(xs))
  }

  /** `find_previous_number`: the first value minus the backward
      extrapolation of the differences. */
  function FindPreviousNumber(xs: seq<int>): int
    decreases |xs|
  {
    if AllZero(xs) then 0
    else xs[0] - FindPreviousNumber(FindDifferences(xs))
  }

  function NextNumbers(histories: seq<seq<int>>): (r: seq<int>)
    ensures |r| == |histories|
    ensures forall i :: 0 <= i < |r| ==> r[i] == FindNextNumber(histories[i])
  {
    seq(|histories|, i requires 0 <= i < |histories| => FindNextNumber(histories[i]))
  }

  function PreviousNumbers(histories: seq<seq<int>>): (r: seq<int>)
    ensures |r| == |histories|
    ensures forall i :: 0 <= i < |r| ==> r[i] == FindPreviousNumber(histories[i])
  {
    seq(|histories|, i requires 0 <= i < |histories| => FindPreviousNumber(histories[i]))
  }

  function SolvePart1(histories: seq<seq<int>>): int
  {
    Sum(NextNumbers(histories))
  }

  function SolvePart2(histories: seq<seq<int>>): int
  {
    Sum(PreviousNumbers(histories))
  }

  // ---------------------------------------------------------------------
  // Helpers on sequences

  function Constant(n: nat, c: int): (s: seq<int>)
    ensures |s| == n && forall i :: 0 <= i < n ==> s[i] == c
  {
    seq(n, _ => c)
  }

  function Reverse(xs: seq<int>): (r: seq<int>)
    ensures |r| == |xs|
    ensures forall i :: 0 <= i < |xs| ==> r[i] == xs[|xs| - 1 - i]
  {
    seq(|xs|, i requires 0 <= i < |xs| => xs[|xs| - 1 - i])
  }

  function Negate(xs: seq<int>): (r: seq<int>)
    ensures |r| == |xs|
    ensures forall i :: 0 <= i < |xs| ==> r[i] == -xs[i]
  {
    seq(|xs|, i requires 0 <= i < |xs| => -xs[i])
  }

  // ---------------------------------------------------------------------
  // Properties

  /** The all-zero history, including the empty one, extrapolates to 0
      both ways. */
  lemma AllZeroGivesZero(xs: seq<int>)
    requires AllZero(xs)
    ensures FindNextNumber(xs) == 0 && FindPreviousNumber(xs) == 0
  {
  }

  /** A history that is not all zero is not empty and gets strictly
      shorter, which is why the recursion stops. */
  lemma RecursionShrinks(xs: seq<int>)
    requires !AllZero(xs)
    ensures |xs| > 0 && |FindDifferences(xs)| < |xs|
  {
  }

  /** A constant history `c, c, ..., c` extrapolates to `c` both ways. */
  lemma ConstantExtrapolates(n: nat, c: int)
    requires n >= 1
    ensures FindNextNumber(Constant(n, c)) == c
    ensures FindPreviousNumber(Constant(n, c)) == c
  {
    var xs := Constant(n, c);
    var d := FindDifferences(xs);
    forall i | 0 <= i < |d| ensures d[i] == 0 {
      assert d[i] == xs[i + 1] - xs[i];
    }
    if c != 0 {
      assert xs[0] != 0;
    }
  }

  /** An arithmetic history with step `d` continues with `last + d` and
      starts with `first - d`. */
  lemma ArithmeticExtrapolates(xs: seq<int>, a: int, d: int)
    requires |xs| >= 2
    requires forall i :: 0 <= i < |xs| ==> xs[i] == a + d * i
    ensures FindNextNumber(xs) == xs[|xs| - 1] + d
    ensures FindPreviousNumber(xs) == xs[0] - d
  {
    var diffs := FindDifferences(xs);
    forall i | 0 <= i < |diffs| ensures diffs[i] == d {
      assert diffs[i] == xs[i + 1] - xs[i];
      assert xs[i + 1] == a + d * (i + 1) && d * (i + 1) == d * i + d;
    }
    assert diffs == Constant(|xs| - 1, d);
    ConstantExtrapolates(|xs| - 1, d);
    if AllZero(xs) {
      assert xs[0] == a && xs[1] == a + d;
    }
  }

  lemma DifferencesOfNegation(xs: seq<int>)
    ensures FindDifferences(Negate(xs)) == Negate(FindDifferences(xs))
  {
    var l := FindDifferences(Negate(xs));
    var r := Negate(FindDifferences(xs));
    forall i | 0 <= i < |l| ensures l[i] == r[i] {
      assert l[i] == Negate(xs)[i + 1] - Negate(xs)[i];
    }
  }

  lemma DifferencesOfReverse(xs: seq<int>)
    ensures FindDifferences(Reverse(xs)) == Negate(Reverse(FindDifferences(xs)))
  {
    var n := |xs|;
    var l := FindDifferences(Reverse(xs));
    var r := Negate(Reverse(FindDifferences(xs)));
    assert |l| == |r|;
    forall i | 0 <= i < |l| ensures l[i] == r[i] {
      assert l[i] == Reverse(xs)[i + 1] - Reverse(xs)[i];
      assert Reverse(xs)[i + 1] == xs[n - 2 - i] && Reverse(xs)[i] == xs[n - 1 - i];
      assert Reverse(FindDifferences(xs))[i] == FindDifferences(xs)[n - 2 - i];
    }
  }

  /** Extrapolation is linear: negating the history negates the result. */
  lemma {:induction false} NextOfNegation(xs: seq<int>)
    ensures FindNextNumber(Negate(xs)) == -FindNextNumber(xs)
    decreases |xs|
  {
    assert AllZero(Negate(xs)) <==> AllZero(xs) by {
      assert forall i :: 0 <= i < |xs| ==> (Negate(xs)[i] == 0 <==> xs[i] == 0);
    }
    if !AllZero(xs) {
      DifferencesOfNegation(xs);
      NextOfNegation(FindDifferences(xs));
    }
  }

  /** Extrapolating backwards is extrapolating forwards over the reversed
      history. */
  lemma {:induction false} PreviousIsNextOfReverse(xs: seq<int>)
    ensures FindPreviousNumber(xs) == FindNextNumber(Reverse(xs))
    decreases |xs|
  {
    var rx := Reverse(xs);
    assert AllZero(rx) <==> AllZero(xs) by {
      assert forall i :: 0 <= i < |xs| ==> rx[|xs| - 1 - i] == xs[i];
    }
    if !AllZero(xs) {
      var d := FindDifferences(xs);
      calc {
        FindNextNumber(rx);
        rx[|rx| - 1] + FindNextNumber(FindDifferences(rx));
        { DifferencesOfReverse(xs); }
        xs[0] + FindNextNumber(Negate(Reverse(d)));
        { NextOfNegation(Reverse(d)); }
        xs[0] - FindNextNumber(Reverse(d));
        { PreviousIsNextOfReverse(d); }
        xs[0] - FindPreviousNumber(d);
        FindPreviousNumber(xs);
      }
    }
  }

  /** Part 2 over the histories is part 1 over the reversed histories. */
  lemma Part2IsPart1OfReversed(histories: seq<seq<int>>)
    ensures SolvePart2(histories)
         == SolvePart1(seq(|histories|, i requires 0 <= i < |histories| => Reverse(histories[i])))
  {
    var rev := seq(|histories|, i requires 0 <= i < |histories| => Reverse(histories[i]));
    forall i | 0 <= i < |histories| ensures PreviousNumbers(histories)[i] == NextNumbers(rev)[i] {
      PreviousIsNextOfReverse(histories[i]);
    }
    assert PreviousNumbers(histories) == NextNumbers(rev);
  }

  // ---------------------------------------------------------------------
  // The puzzle's published example (the test input file itself is not
  // part of this model)

  lemma ExampleFirstHistory(h: seq<int>)
    requires h == [0, 3, 6, 9, 12, 15]
    ensures FindNextNumber(h) == 18 && FindPreviousNumber(h) == -3
  {
    assert forall i :: 0 <= i < |h| ==> h[i] == 3 * i;
    ArithmeticExtrapolates(h, 0, 3);
  }

  lemma ExampleSecondHistory(h: seq<int>)
    requires h == [1, 3, 6, 10, 15, 21]
    ensures FindNextNumber(h) == 28 && FindPreviousNumber(h) == 0
  {
    assert !AllZero(h) by { assert h[0] != 0; }
    var d := FindDifferences(h);
    assert d[0] == h[1] - h[0] && d[1] == h[2] - h[1] && d[2] == h[3] - h[2];
    assert d[3] == h[4] - h[3] && d[4] == h[5] - h[4];
    assert forall i :: 0 <= i < |d| ==> d[i] == 2 + 1 * i;
    ArithmeticExtrapolates(d, 2, 1);
  }

  lemma ExampleThirdHistory(h: seq<int>)
    requires h == [10, 13, 16, 21, 30, 45]
    ensures FindNextNumber(h) == 68 && FindPreviousNumber(h) == 5
  {
    assert !AllZero(h) by { assert h[0] != 0; }
    var d := FindDifferences(h);
    assert d[0] == h[1] - h[0] && d[1] == h[2] - h[1] && d[2] == h[3] - h[2];
    assert d[3] == h[4] - h[3] && d[4] == h[5] - h[4];
    assert !AllZero(d) by { assert d[0] != 0; }
    var d2 := FindDifferences(d);
    assert d2[0] == d[1] - d[0] && d2[1] == d[2] - d[1] && d2[2] == d[3] - d[2] && d2[3] == d[4] - d[3];
    assert forall i :: 0 <= i < |d2| ==> d2[i] == 0 + 2 * i;
    ArithmeticExtrapolates(d2, 0, 2);
  }

  /** The part-1 test sum, 114. */
  lemma ExamplePart1(h: seq<seq<int>>)
    requires h == [[0, 3, 6, 9, 12, 15], [1, 3, 6, 10, 15, 21], [10, 13, 16, 21, 30, 45]]
    ensures SolvePart1(h) == 114
  {
    ExampleFirstHistory(h[0]);
    ExampleSecondHistory(h[1]);
    ExampleThirdHistory(h[2]);
    SumOfThree(NextNumbers(h));
  }

  /** The part-2 test sum, 2. */
  lemma ExamplePart2(h: seq<seq<int>>)
    requires h == [[0, 3, 6, 9, 12, 15], [1, 3, 6, 10, 15, 21], [10, 13, 16, 21, 30, 45]]
    ensures SolvePart2(h) == 2
  {
    ExampleFirstHistory(h[0]);
    ExampleSecondHistory(h[1]);
    ExampleThirdHistory(h[2]);
    SumOfThree(PreviousNumbers(h));
  }
}
