/** Small shared vocabulary: an optional value for the source's `Option`
    and `unwrap()` panics, and the sum and minimum folds that the solvers
    end with. */
module Common {

  datatype Option<+T> = None | Some(value: T)

  /** `iter().sum()` over integers. */
  function Sum(s: seq<int>): int
  {
    if s == [] then 0 else Sum(s[..|s| - 1]) + s[|s| - 1]
  }

  lemma {:induction false} SumAppend(a: seq<int>, b: seq<int>)
    ensures Sum(a + b) == Sum(a) + Sum(b)
    decreases |b|
  {
    if b == [] {
      assert a + b == a;
    } else {
      assert (a + b)[..|a + b| - 1] == a + b[..|b| - 1];
      SumAppend(a, b[..|b| - 1]);
    }
  }

  lemma SumCons(x: int, s: seq<int>)
    ensures Sum([x] + s) == x + Sum(s)
  {
    SumAppend([x], s);
    assert [x][..0] == [];
  }

  lemma {:induction false} SumNonNegative(s: seq<int>)
    requires forall i :: 0 <= i < |s| ==> s[i] >= 0
    ensures Sum(s) >= 0
  {
    if s != [] {
      SumNonNegative(s[..|s| - 1]);
    }
  }

  /** A sum of entries that are each at least one is at least the length. */
  lemma {:induction false} SumAtLeastLength(s: seq<int>)
    requires forall i :: 0 <= i < |s| ==> s[i] >= 1
    ensures Sum(s) >= |s|
  {
    if s != [] {
      SumAtLeastLength(s[..|s| - 1]);
    }
  }

  /** Summing two sequences entry by entry sums their sums. */
  lemma {:induction false} SumPointwise(a: seq<int>, d: seq<int>)
    requires |a| == |d|
    ensures Sum(seq(|a|, i requires 0 <= i < |a| => a[i] + d[i])) == Sum(a) + Sum(d)
  {
    if a != [] {
      var n := |a| - 1;
      SumPointwise(a[..n], d[..n]);
      assert seq(|a|, i requires 0 <= i < |a| => a[i] + d[i])[..n]
          == seq(n, i requires 0 <= i < n => a[..n][i] + d[..n][i]);
    }
  }

  /** Scaling every entry scales the sum. */
  lemma {:induction false} SumScale(s: seq<int>, k: int)
    ensures Sum(seq(|s|, i requires 0 <= i < |s| => k * s[i])) == k * Sum(s)
  {
    if s != [] {
      var n := |s| - 1;
      SumScale(s[..n], k);
      assert seq(|s|, i requires 0 <= i < |s| => k * s[i])[..n]
          == seq(n, i requires 0 <= i < n => k * s[..n][i]);
    }
  }

  /** Taking one entry out of a sequence takes it out of the sum. */
  lemma SumRemove(s: seq<int>, j: nat)
    requires j < |s|
    ensures Sum(s) == Sum(s[..j] + s[j + 1..]) + s[j]
  {
    assert s == s[..j] + [s[j]] + s[j + 1..];
    SumAppend(s[..j] + [s[j]], s[j + 1..]);
    SumAppend(s[..j], [s[j]]);
    SumAppend(s[..j], s[j + 1..]);
    SumCons(s[j], []);
    assert [s[j]] + [] == [s[j]];
  }

  /** A sum of entries each at most `b` is at most `|s| * b`. */
  lemma {:induction false} SumAtMost(s: seq<int>, b: int)
    requires forall i :: 0 <= i < |s| ==> s[i] <= b
    ensures Sum(s) <= |s| * b
  {
    if s != [] {
      SumAtMost(s[..|s| - 1], b);
    }
  }

  /** A sum of entries that are each at least one is at least the length
      minus one plus any single entry. */
  lemma {:induction false} SumAtLeastOneLarge(s: seq<int>, j: nat)
    requires j < |s|
    requires forall i :: 0 <= i < |s| ==> s[i] >= 1
    ensures Sum(s) >= |s| - 1 + s[j]
  {
    var n := |s| - 1;
    if j == n {
      SumAtLeastLength(s[..n]);
    } else {
      SumAtLeastOneLarge(s[..n], j);
    }
  }

  /** `iter().min()` on a non-empty sequence: the least element, which
      occurs in the sequence. */
  function Min(s: seq<int>): (m: int)
    requires |s| > 0
    ensures m in s
    ensures forall i :: 0 <= i < |s| ==> m <= s[i]
  {
    if |s| == 1 then s[0]
    else
      var rest := Min(s[1..]);
      assert forall i :: 1 <= i < |s| ==> s[i] == s[1..][i - 1];
      if s[0] <= rest then s[0] else rest
  }

  /** `iter().min()` followed by the `Option` it returns: `None` exactly
      when there is nothing to minimise over. */
  function MinOption(s: seq<int>): (r: Option<int>)
    ensures r.None? <==> s == []
    ensures r.Some? ==> r.value in s && forall i :: 0 <= i < |s| ==> r.value <= s[i]
  {
    if s == [] then None else Some(Min(s))
  }

  lemma SumOfThree(s: seq<int>)
    requires |s| == 3
    ensures Sum(s) == s[0] + s[1] + s[2]
  {
    assert s[..2][..1] == s[..1] && s[..1][..0] == [];
    assert Sum(s[..1]) == s[0];
    assert Sum(s[..2]) == s[0] + s[1];
  }

  lemma SumFive(s: seq<int>)
    requires |s| == 5
    ensures Sum(s) == s[0] + s[1] + s[2] + s[3] + s[4]
  {
    assert s == [s[0]] + ([s[1]] + ([s[2]] + ([s[3]] + [s[4]])));
    SumCons(s[0], [s[1]] + ([s[2]] + ([s[3]] + [s[4]])));
    SumCons(s[1], [s[2]] + ([s[3]] + [s[4]]));
    SumCons(s[2], [s[3]] + [s[4]]);
    SumCons(s[3], [s[4]]);
    SumCons(s[4], []);
    assert [s[4]] + [] == [s[4]];
  }

  /** Two sequences of five that agree entry by entry are equal. */
  lemma FiveEqual<T>(a: seq<T>, b: seq<T>)
    requires |a| == 5 && |b| == 5
    requires a[0] == b[0] && a[1] == b[1] && a[2] == b[2] && a[3] == b[3] && a[4] == b[4]
    ensures a == b
  {
    assert forall i :: 0 <= i < 5 ==> a[i] == b[i] by {
      forall i | 0 <= i < 5 ensures a[i] == b[i] {
        if i == 0 { } else if i == 1 { } else if i == 2 { } else if i == 3 { } else { }
      }
    }
  }
}
