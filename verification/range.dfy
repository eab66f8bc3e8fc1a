/** The shared closed-interval type `Range` and its predicates
    (src/range.rs). The Rust type stores `i32` bounds; here they are
    unbounded integers, since the day-5 solver instantiates the same shape
    with `u64`. */
module Ranges {

  /** `[lower, upper]`, both ends included. Nothing forces
      `lower <= upper`; a range with `lower > upper` holds no point. */
  datatype Range = Range(lower: int, upper: int)
  {
    predicate WellFormed() { lower <= upper }

    /** Point membership, the meaning every predicate below is checked
        against. */
    predicate Contains(x: int) { lower <= x <= upper }
  }

  /** `From<(i32, i32)>`: the pair becomes `(lower, upper)` unchanged. */
  function FromPair(p: (int, int)): (r: Range)
    ensures (r.lower, r.upper) == p
  {
    Range(p.0, p.1)
  }

  predicate IsSubrangeInclusive(a: Range, b: Range)
  {
    a.lower >= b.lower && a.upper <= b.upper
  }

  predicate IsSubrangeExclusive(a: Range, b: Range)
  {
    a.lower > b.lower && a.upper < b.upper
  }

  /** The four-way disjunction of the source, kept as written. */
  predicate Overlap(a: Range, b: Range)
  {
    (a.lower >= b.lower && a.lower <= b.upper)
    || (a.upper <= b.upper && a.upper >= b.lower)
    || IsSubrangeInclusive(a, b)
    || IsSubrangeInclusive(b, a)
  }

  predicate OverlapOrAdjacent(a: Range, b: Range)
  {
    Overlap(a, b) || a.upper == b.lower - 1 || b.upper == a.lower - 1
  }

  /** The smallest range holding both inputs; the source assumes they
      overlap. */
  function Merge(a: Range, b: Range): (r: Range)
    ensures r.lower <= a.lower && r.lower <= b.lower
    ensures r.lower == a.lower || r.lower == b.lower
    ensures r.upper >= a.upper && r.upper >= b.upper
    ensures r.upper == a.upper || r.upper == b.upper
  {
    Range(if a.lower <= b.lower then a.lower else b.lower,
          if a.upper >= b.upper then a.upper else b.upper)
  }

  // ---------------------------------------------------------------------
  // Properties

  /** On a well-formed range, being an inclusive subrange is exactly
      containment of the point sets. */
  lemma SubrangeInclusiveMeansPointInclusion(a: Range, b: Range)
    requires a.WellFormed()
    ensures IsSubrangeInclusive(a, b) <==> (forall x :: a.Contains(x) ==> b.Contains(x))
  {
    if forall x :: a.Contains(x) ==> b.Contains(x) {
      assert a.Contains(a.lower) && a.Contains(a.upper);
    }
  }

  lemma SubrangeInclusiveReflexive(a: Range)
    ensures IsSubrangeInclusive(a, a)
  {
  }

  lemma SubrangeInclusiveTransitive(a: Range, b: Range, c: Range)
    requires IsSubrangeInclusive(a, b) && IsSubrangeInclusive(b, c)
    ensures IsSubrangeInclusive(a, c)
  {
  }

  lemma SubrangeExclusiveImpliesInclusive(a: Range, b: Range)
    requires IsSubrangeExclusive(a, b)
    ensures IsSubrangeInclusive(a, b)
    ensures !IsSubrangeExclusive(b, a)
  {
  }

  /** For well-formed ranges the source's four-way test is the usual
      two-comparison test, and both say that the ranges share a point. */
  lemma OverlapCharacterised(a: Range, b: Range)
    requires a.WellFormed() && b.WellFormed()
    ensures Overlap(a, b) <==> a.lower <= b.upper && b.lower <= a.upper
    ensures Overlap(a, b) <==> exists x :: a.Contains(x) && b.Contains(x)
  {
    if a.lower <= b.upper && b.lower <= a.upper {
      var x := if a.lower <= b.lower then b.lower else a.lower;
      assert a.Contains(x) && b.Contains(x);
    }
  }

  lemma OverlapSymmetric(a: Range, b: Range)
    requires a.WellFormed() && b.WellFormed()
    ensures Overlap(a, b) == Overlap(b, a)
  {
    OverlapCharacterised(a, b);
    OverlapCharacterised(b, a);
  }

  /** Overlapping ranges are also "overlapping or adjacent"; the only
      extra cases are those where one range ends just before the other
      begins. */
  lemma OverlapOrAdjacentExtraCases(a: Range, b: Range)
    requires a.WellFormed() && b.WellFormed()
    ensures Overlap(a, b) ==> OverlapOrAdjacent(a, b)
    ensures OverlapOrAdjacent(a, b) && !Overlap(a, b)
            <==> a.upper == b.lower - 1 || b.upper == a.lower - 1
  {
    OverlapCharacterised(a, b);
  }

  lemma MergeCommutative(a: Range, b: Range)
    ensures Merge(a, b) == Merge(b, a)
  {
  }

  lemma MergeContainsBoth(a: Range, b: Range)
    ensures IsSubrangeInclusive(a, Merge(a, b))
    ensures IsSubrangeInclusive(b, Merge(a, b))
  {
  }

  /** Under the source's assumption (the ranges overlap, or at least
      touch), merging loses and adds no point: the merged range holds
      exactly the union of the two point sets. */
  lemma MergeIsUnion(a: Range, b: Range, x: int)
    requires a.WellFormed() && b.WellFormed()
    requires OverlapOrAdjacent(a, b)
    ensures Merge(a, b).Contains(x) <==> a.Contains(x) || b.Contains(x)
  {
    OverlapCharacterised(a, b);
  }

  /** Without the assumption the merge can gain points: two ranges with a
      gap between them merge into one that also covers the gap. */
  lemma MergeOfDisjointCoversGap()
    ensures var a, b := Range(0, 1), Range(3, 4);
            !OverlapOrAdjacent(a, b) && Merge(a, b).Contains(2)
            && !a.Contains(2) && !b.Contains(2)
  {
  }
}
