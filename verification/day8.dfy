/** Day 8: walking a network of nodes by a cyclic list of left/right
    directions (src/bin/day8.rs). Both solvers count steps in a loop that
    only stops at the goal; here each loop also stops after `fuel` steps,
    and a missing node (the `unwrap()` on the map lookup) is an outcome of
    its own. */
module Day8 {
  import opened Common

  datatype Direction = L | R

  datatype Node = Node(left: string, right: string)

  /** The parsed input: the directions and the network, keyed by node
      name. */
  datatype Input = Input(directions: seq<Direction>, nodes: map<string, Node>)

  /** How a walk ends: after `count` steps, at the panic of a missing
      node, or with the step budget used up. */
  datatype Outcome = Steps(count: nat) | MissingNode | OutOfFuel

  /** The position in a cycle of length `n` after `j` steps: `cycle()`
      starts over after the last entry. */
  function DirIndex(j: nat, n: nat): (i: nat)
    requires n > 0
    ensures i < n
  {
    if j < n then j else DirIndex(j - n, n)
  }

  lemma {:induction false} DirIndexNext(j: nat, n: nat)
    requires n > 0
    ensures DirIndex(j + 1, n) == if DirIndex(j, n) + 1 == n then 0 else DirIndex(j, n) + 1
  {
    if j >= n {
      DirIndexNext(j - n, n);
    }
  }

  /** The direction of step `j` (counting from 0) of `cycle()`. */
  function DirectionAt(input: Input, j: nat): Direction
    requires |input.directions| > 0
  {
    input.directions[DirIndex(j, |input.directions|)]
  }

  /** One step from `cur` as step `j`: the left child on `L`, the right
      child on `R`; `None` when `cur` is not in the network. */
  function Move(input: Input, cur: string, j: nat): (next: Option<string>)
    requires |input.directions| > 0
    ensures next.None? <==> cur !in input.nodes
    ensures next.Some? ==>
              next.value == if DirectionAt(input, j) == L then input.nodes[cur].left else input.nodes[cur].right
  {
    if cur !in input.nodes then None
    else
      var choice := input.nodes[cur];
      Some(match DirectionAt(input, j) case L => choice.left case R => choice.right)
  }

  /** Where a walker that starts at `from` is after `k` steps, or `None`
      when it has met a missing node on the way. */
  function Walk(input: Input, from: string, k: nat): Option<string>
    requires |input.directions| > 0
  {
    if k == 0 then Some(from)
    else
      match Walk(input, from, k - 1)
      case None => None
      case Some(cur) => Move(input, cur, k - 1)
  }

  // ---------------------------------------------------------------------
  // Part 1

  /** The walk from `from` is at some name other than `goal` after each
      of the steps `lo` up to (not including) `hi`. */
  predicate NotYet(input: Input, from: string, goal: string, lo: nat, hi: nat)
    requires |input.directions| > 0
  {
    forall j :: lo <= j < hi ==> Walk(input, from, j).Some? && Walk(input, from, j).value != goal
  }

  /** The first of the steps `k..fuel` after which the walk from `from`
      is at `goal`. */
  function Search(input: Input, from: string, goal: string, k: nat, fuel: nat): Outcome
    requires |input.directions| > 0
    decreases fuel + 1 - k
  {
    if k > fuel then OutOfFuel
    else
      match Walk(input, from, k)
      case None => MissingNode
      case Some(at) => if at == goal then Steps(k) else Search(input, from, goal, k + 1, fuel)
  }

  /** What `solve_part1` returns within `fuel` steps. With no directions
      the `for` loop over `cycle()` never runs and the count stays 0. */
  function Part1(input: Input, fuel: nat): Outcome
  {
    if input.directions == [] then Steps(0) else Search(input, "AAA", "ZZZ", 1, fuel)
  }

  /** `solve_part1`: the step loop from "AAA", counting each step before
      checking for "ZZZ". */
  method SolvePart1(input: Input, fuel: nat) returns (r: Outcome)
    ensures r == Part1(input, fuel)
  {
    if |input.directions| == 0 {
      return Steps(0);
    }
    var n := |input.directions|;
    var start, goal := "AAA", "ZZZ";
    var current := start;
    var count := 0;
    var i := 0;
    while count < fuel
      invariant count <= fuel
      invariant i == DirIndex(count, n)
      invariant Walk(input, start, count) == Some(current)
      invariant Search(input, start, goal, 1, fuel) == Search(input, start, goal, count + 1, fuel)
      decreases fuel - count
    {
      if current !in input.nodes {
        return MissingNode;
      }
      var choice := input.nodes[current];
      var next := match input.directions[i] case L => choice.left case R => choice.right;
      DirIndexNext(count, n);
      count := count + 1;
      if next == goal {
        return Steps(count);
      }
      current := next;
      i := if i + 1 == n then 0 else i + 1;
    }
    return OutOfFuel;
  }

  /** The three outcomes of the search from step `k`: the first arrival
      at `goal`, the first missing node, or no arrival by step `fuel`. */
  lemma {:induction false} SearchSpec(input: Input, from: string, goal: string, k: nat, fuel: nat)
    requires |input.directions| > 0
    ensures Search(input, from, goal, k, fuel).Steps? ==>
              var n := Search(input, from, goal, k, fuel).count;
              k <= n <= fuel && Walk(input, from, n) == Some(goal) && NotYet(input, from, goal, k, n)
    ensures Search(input, from, goal, k, fuel).MissingNode? ==>
              exists m :: k <= m <= fuel && Walk(input, from, m).None? && NotYet(input, from, goal, k, m)
    ensures Search(input, from, goal, k, fuel).OutOfFuel? ==> NotYet(input, from, goal, k, fuel + 1)
    decreases fuel + 1 - k
  {
    if k <= fuel {
      var w := Walk(input, from, k);
      if w.None? {
        assert NotYet(input, from, goal, k, k);
      } else if w.value != goal {
        SearchSpec(input, from, goal, k + 1, fuel);
        var r := Search(input, from, goal, k + 1, fuel);
        if r.Steps? {
          assert NotYet(input, from, goal, k, r.count);
        } else if r.MissingNode? {
          var m :| k + 1 <= m <= fuel && Walk(input, from, m).None? && NotYet(input, from, goal, k + 1, m);
          assert NotYet(input, from, goal, k, m);
        } else {
          assert NotYet(input, from, goal, k, fuel + 1);
        }
      }
    }
  }

  /** Part 1 counts the steps to the first arrival at "ZZZ", which is at
      least one step since the start is never checked; it panics at the
      first missing node met before that. */
  lemma Part1Spec(input: Input, fuel: nat)
    ensures input.directions == [] <==> Part1(input, fuel) == Steps(0)
    ensures input.directions != [] && Part1(input, fuel).Steps? ==>
              var n := Part1(input, fuel).count;
              1 <= n <= fuel && Walk(input, "AAA", n) == Some("ZZZ") && NotYet(input, "AAA", "ZZZ", 1, n)
    ensures input.directions != [] && Part1(input, fuel).MissingNode? ==>
              exists m :: 1 <= m <= fuel && Walk(input, "AAA", m).None? && NotYet(input, "AAA", "ZZZ", 1, m)
    ensures input.directions != [] && Part1(input, fuel).OutOfFuel? ==> NotYet(input, "AAA", "ZZZ", 1, fuel + 1)
  {
    if input.directions != [] {
      SearchSpec(input, "AAA", "ZZZ", 1, fuel);
    }
  }

  /** A walk that finished (or panicked) within `fuel` steps finishes the
      same way with any larger budget: the budget only cuts off walks
      that have not ended. */
  lemma {:induction false} SearchMoreFuel(input: Input, from: string, goal: string, k: nat, fuel: nat, more: nat)
    requires |input.directions| > 0
    requires fuel <= more
    requires !Search(input, from, goal, k, fuel).OutOfFuel?
    ensures Search(input, from, goal, k, more) == Search(input, from, goal, k, fuel)
    decreases fuel + 1 - k
  {
    if Walk(input, from, k).Some? && Walk(input, from, k).value != goal {
      SearchMoreFuel(input, from, goal, k + 1, fuel, more);
    }
  }

  lemma Part1MoreFuel(input: Input, fuel: nat, more: nat)
    requires fuel <= more
    requires !Part1(input, fuel).OutOfFuel?
    ensures Part1(input, more) == Part1(input, fuel)
  {
    if input.directions != [] {
      SearchMoreFuel(input, "AAA", "ZZZ", 1, fuel, more);
    }
  }

  // ---------------------------------------------------------------------
  // Walks

  /** Once a walker has met a missing node it stays lost. */
  lemma {:induction false} LostStaysLost(input: Input, from: string, k: nat, m: nat)
    requires |input.directions| > 0
    requires k <= m && Walk(input, from, k).None?
    ensures Walk(input, from, m).None?
    decreases m
  {
    if m > k {
      LostStaysLost(input, from, k, m - 1);
    }
  }

  /** The directions repeat: after one whole pass over them, the rest of
      the walk is a fresh walk from where the walker is. */
  lemma {:induction false} WalkAfterPass(input: Input, from: string, k: nat)
    requires |input.directions| > 0
    ensures Walk(input, from, |input.directions| + k)
         == match Walk(input, from, |input.directions|) case None => None case Some(at) => Walk(input, at, k)
    decreases k
  {
    if k > 0 {
      WalkAfterPass(input, from, k - 1);
      assert DirectionAt(input, |input.directions| + k - 1) == DirectionAt(input, k - 1);
    }
  }

  // ---------------------------------------------------------------------
  // Part 2

  predicate EndsWith(s: string, c: char)
  {
    |s| > 0 && s[|s| - 1] == c
  }

  /** The names of the network that end in 'A'. */
  function Starts(input: Input): set<string>
  {
    set name | name in input.nodes && EndsWith(name, 'A')
  }

  predicate Distinct(s: seq<string>)
  {
    forall i, j :: 0 <= i < j < |s| ==> s[i] != s[j]
  }

  /** `s` lists the set `names`, each once, in some order. */
  predicate Enumerates(s: seq<string>, names: set<string>)
  {
    Distinct(s) && (forall i :: 0 <= i < |s| ==> s[i] in names) && forall x :: x in names ==> x in s
  }

  /** The `keys().filter(...)` that starts part 2: the names ending in
      'A', in whatever order the map hands them out. */
  method StartNodes(input: Input) returns (starts: seq<string>)
    ensures Enumerates(starts, Starts(input))
  {
    starts := [];
    var rest := input.nodes.Keys;
    while rest != {}
      invariant rest <= input.nodes.Keys
      invariant Distinct(starts)
      invariant forall i :: 0 <= i < |starts| ==> starts[i] in Starts(input) && starts[i] !in rest
      invariant forall x :: x in Starts(input) ==> x in starts || x in rest
      decreases rest
    {
      var name :| name in rest;
      if EndsWith(name, 'A') {
        starts := starts + [name];
      }
      rest := rest - {name};
    }
  }

  /** One step of every walker in `cur`, as step `j`; `None` when one of
      them is at a missing node. */
  function MoveAll(input: Input, cur: seq<string>, j: nat): Option<seq<string>>
    requires |input.directions| > 0
  {
    if cur == [] then Some([])
    else
      var n := |cur| - 1;
      var front := MoveAll(input, cur[..n], j);
      var last := Move(input, cur[n], j);
      if front.None? || last.None? then None else Some(front.value + [last.value])
  }

  /** Every walker takes its own step: the list keeps its length, and it
      is lost exactly when one of the walkers is at a missing node. */
  lemma {:induction false} MoveAllSpec(input: Input, cur: seq<string>, j: nat)
    requires |input.directions| > 0
    ensures MoveAll(input, cur, j).None? <==> exists i :: 0 <= i < |cur| && cur[i] !in input.nodes
    ensures MoveAll(input, cur, j).Some? ==>
              var next := MoveAll(input, cur, j).value;
              |next| == |cur| && forall i :: 0 <= i < |cur| ==> Some(next[i]) == Move(input, cur[i], j)
  {
    if cur != [] {
      var n := |cur| - 1;
      MoveAllSpec(input, cur[..n], j);
      assert forall i :: 0 <= i < n ==> cur[..n][i] == cur[i];
    }
  }

  /** Where the walkers that start at `starts` are after `k` steps, all
      moving together. */
  function WalkAll(input: Input, starts: seq<string>, k: nat): Option<seq<string>>
    requires |input.directions| > 0
  {
    if k == 0 then Some(starts)
    else
      match WalkAll(input, starts, k - 1)
      case None => None
      case Some(cur) => MoveAll(input, cur, k - 1)
  }

  /** One more joint step from where the walkers are after `k` steps. */
  lemma WalkAllNext(input: Input, starts: seq<string>, k: nat, cur: seq<string>)
    requires |input.directions| > 0
    requires WalkAll(input, starts, k) == Some(cur)
    ensures WalkAll(input, starts, k + 1) == MoveAll(input, cur, k)
  {
  }

  predicate AllEndInZ(cur: seq<string>)
  {
    forall i :: 0 <= i < |cur| ==> EndsWith(cur[i], 'Z')
  }

  /** The first of the steps `k..fuel` after which every walker is at a
      name ending in 'Z'. */
  function Search2(input: Input, starts: seq<string>, k: nat, fuel: nat): Outcome
    requires |input.directions| > 0
    decreases fuel + 1 - k
  {
    if k > fuel then OutOfFuel
    else
      match WalkAll(input, starts, k)
      case None => MissingNode
      case Some(cur) => if AllEndInZ(cur) then Steps(k) else Search2(input, starts, k + 1, fuel)
  }

  /** What `solve_part2` returns within `fuel` steps for the walkers
      listed in `starts`. */
  function Part2(input: Input, starts: seq<string>, fuel: nat): Outcome
  {
    if input.directions == [] then Steps(0) else Search2(input, starts, 1, fuel)
  }

  /** `solve_part2`: all the walkers step together until, after some
      step, every one of them is at a name ending in 'Z'. */
  method SolvePart2(input: Input, fuel: nat) returns (r: Outcome)
    ensures exists starts :: Enumerates(starts, Starts(input)) && r == Part2(input, starts, fuel)
  {
    var starts := StartNodes(input);
    if |input.directions| == 0 {
      return Steps(0);
    }
    var n := |input.directions|;
    var current := starts;
    var count := 0;
    var i := 0;
    while count < fuel
      invariant count <= fuel
      invariant i == DirIndex(count, n)
      invariant WalkAll(input, starts, count) == Some(current)
      invariant Search2(input, starts, 1, fuel) == Search2(input, starts, count + 1, fuel)
      decreases fuel - count
    {
      var next := MoveAll(input, current, count);
      WalkAllNext(input, starts, count, current);
      if next.None? {
        return MissingNode;
      }
      DirIndexNext(count, n);
      count := count + 1;
      if AllEndInZ(next.value) {
        return Steps(count);
      }
      Search2Skip(input, starts, count, fuel);
      current := next.value;
      i := if i + 1 == n then 0 else i + 1;
    }
    return OutOfFuel;
  }

  /** The walkers move independently: after `k` steps together they are
      lost exactly when one of them is lost on its own, and otherwise
      each is where its own walk has taken it, so the list keeps its
      length. */
  lemma {:induction false} WalkAllSpec(input: Input, starts: seq<string>, k: nat)
    requires |input.directions| > 0
    ensures WalkAll(input, starts, k).None? <==> exists i :: 0 <= i < |starts| && Walk(input, starts[i], k).None?
    ensures WalkAll(input, starts, k).Some? ==>
              |WalkAll(input, starts, k).value| == |starts|
              && forall i :: 0 <= i < |starts| ==> Some(WalkAll(input, starts, k).value[i]) == Walk(input, starts[i], k)
  {
    if k > 0 {
      WalkAllSpec(input, starts, k - 1);
      match WalkAll(input, starts, k - 1)
      case Some(cur) =>
        WalkAllStepFrom(input, starts, k - 1, cur);
      case None =>
        var i :| 0 <= i < |starts| && Walk(input, starts[i], k - 1).None?;
        LostStaysLost(input, starts[i], k - 1, k);
    }
  }

  /** The step of `WalkAllSpec` from walkers that are all still on the
      network. */
  lemma WalkAllStepFrom(input: Input, starts: seq<string>, k: nat, cur: seq<string>)
    requires |input.directions| > 0
    requires WalkAll(input, starts, k) == Some(cur)
    requires |cur| == |starts| && forall i :: 0 <= i < |starts| ==> Some(cur[i]) == Walk(input, starts[i], k)
    ensures WalkAll(input, starts, k + 1).None? <==> exists i :: 0 <= i < |starts| && Walk(input, starts[i], k + 1).None?
    ensures WalkAll(input, starts, k + 1).Some? ==>
              |WalkAll(input, starts, k + 1).value| == |starts|
              && forall i :: 0 <= i < |starts| ==> Some(WalkAll(input, starts, k + 1).value[i]) == Walk(input, starts[i], k + 1)
  {
    MoveAllSpec(input, cur, k);
    assert WalkAll(input, starts, k + 1) == MoveAll(input, cur, k);
    assert forall i :: 0 <= i < |starts| ==> Walk(input, starts[i], k + 1) == Move(input, cur[i], k);
  }

  /** Every walker from `names` is at a name ending in 'Z' after `k`
      steps. */
  ghost predicate AllArrive(input: Input, names: set<string>, k: nat)
    requires |input.directions| > 0
  {
    forall s :: s in names ==> Walk(input, s, k).Some? && EndsWith(Walk(input, s, k).value, 'Z')
  }

  /** Some walker from `names` is lost after `k` steps. */
  ghost predicate SomeLost(input: Input, names: set<string>, k: nat)
    requires |input.directions| > 0
  {
    exists s :: s in names && Walk(input, s, k).None?
  }

  /** For a list of the starting names, the joint walk's decisions at
      step `k` depend only on which names are listed. */
  lemma StepDecisions(input: Input, starts: seq<string>, names: set<string>, k: nat)
    requires |input.directions| > 0
    requires Enumerates(starts, names)
    ensures WalkAll(input, starts, k).None? <==> SomeLost(input, names, k)
    ensures WalkAll(input, starts, k).Some? ==> (AllEndInZ(WalkAll(input, starts, k).value) <==> AllArrive(input, names, k))
  {
    WalkAllSpec(input, starts, k);
    if WalkAll(input, starts, k).None? {
      var i :| 0 <= i < |starts| && Walk(input, starts[i], k).None?;
      assert starts[i] in names;
    } else {
      var cur := WalkAll(input, starts, k).value;
      if AllEndInZ(cur) {
        forall s | s in names ensures Walk(input, s, k).Some? && EndsWith(Walk(input, s, k).value, 'Z') {
          var i :| 0 <= i < |starts| && starts[i] == s;
        }
      }
      if AllArrive(input, names, k) {
        forall i | 0 <= i < |cur| ensures EndsWith(cur[i], 'Z') {
          assert starts[i] in names;
        }
      }
    }
  }

  /** The order in which the map hands out the starting names does not
      change the answer. */
  lemma {:induction false} Search2OrderFree(input: Input, s1: seq<string>, s2: seq<string>, names: set<string>, k: nat, fuel: nat)
    requires |input.directions| > 0
    requires Enumerates(s1, names) && Enumerates(s2, names)
    ensures Search2(input, s1, k, fuel) == Search2(input, s2, k, fuel)
    decreases fuel + 1 - k
  {
    if k <= fuel {
      StepDecisions(input, s1, names, k);
      StepDecisions(input, s2, names, k);
      Search2OrderFree(input, s1, s2, names, k + 1, fuel);
    }
  }

  lemma Part2OrderFree(input: Input, s1: seq<string>, s2: seq<string>, fuel: nat)
    requires Enumerates(s1, Starts(input)) && Enumerates(s2, Starts(input))
    ensures Part2(input, s1, fuel) == Part2(input, s2, fuel)
  {
    if input.directions != [] {
      Search2OrderFree(input, s1, s2, Starts(input), 1, fuel);
    }
  }

  /** No walker from `names` is lost, and not all have arrived, after
      each of the steps `lo` up to (not including) `hi`. */
  ghost predicate NoneYet(input: Input, names: set<string>, lo: nat, hi: nat)
    requires |input.directions| > 0
  {
    forall j :: lo <= j < hi ==> !SomeLost(input, names, j) && !AllArrive(input, names, j)
  }

  /** The walkers have all moved without meeting a missing node, and are
      not all at a name ending in 'Z', after each of the steps `lo` up to
      (not including) `hi`. */
  predicate NotYetAll(input: Input, starts: seq<string>, lo: nat, hi: nat)
    requires |input.directions| > 0
  {
    forall j :: lo <= j < hi ==> WalkAll(input, starts, j).Some? && !AllEndInZ(WalkAll(input, starts, j).value)
  }

  /** The three outcomes of the joint search from step `k`. */
  lemma Search2Spec(input: Input, starts: seq<string>, k: nat, fuel: nat)
    requires |input.directions| > 0
    ensures Search2(input, starts, k, fuel).Steps? ==>
              var n := Search2(input, starts, k, fuel).count;
              k <= n <= fuel && WalkAll(input, starts, n).Some? && AllEndInZ(WalkAll(input, starts, n).value)
              && NotYetAll(input, starts, k, n)
    ensures Search2(input, starts, k, fuel).MissingNode? ==>
              exists m :: k <= m <= fuel && WalkAll(input, starts, m).None? && NotYetAll(input, starts, k, m)
    ensures Search2(input, starts, k, fuel).OutOfFuel? ==> NotYetAll(input, starts, k, fuel + 1)
  {
    Search2Found(input, starts, k, fuel);
    Search2Missing(input, starts, k, fuel);
    Search2Exhausted(input, starts, k, fuel);
  }

  /** A count found by the joint search is the first step from `k` after
      which every walker is at a name ending in 'Z'. */
  lemma {:induction false} Search2Found(input: Input, starts: seq<string>, k: nat, fuel: nat)
    requires |input.directions| > 0
    ensures Search2(input, starts, k, fuel).Steps? ==>
              var n := Search2(input, starts, k, fuel).count;
              k <= n <= fuel && WalkAll(input, starts, n).Some? && AllEndInZ(WalkAll(input, starts, n).value)
              && NotYetAll(input, starts, k, n)
    decreases fuel + 1 - k
  {
    if k <= fuel {
      var w := WalkAll(input, starts, k);
      if w.Some? && !AllEndInZ(w.value) {
        Search2Found(input, starts, k + 1, fuel);
        var r := Search2(input, starts, k + 1, fuel);
        assert Search2(input, starts, k, fuel) == r;
        if r.Steps? {
          NotYetExtend(input, starts, k, r.count);
        }
      }
    }
  }

  /** The joint search reports a missing node only at a step that meets
      one, before any step after which all have arrived. */
  lemma {:induction false} Search2Missing(input: Input, starts: seq<string>, k: nat, fuel: nat)
    requires |input.directions| > 0
    ensures Search2(input, starts, k, fuel).MissingNode? ==>
              exists m :: k <= m <= fuel && WalkAll(input, starts, m).None? && NotYetAll(input, starts, k, m)
    decreases fuel + 1 - k
  {
    if k <= fuel {
      var w := WalkAll(input, starts, k);
      if w.None? {
        assert NotYetAll(input, starts, k, k);
      } else if !AllEndInZ(w.value) {
        Search2Missing(input, starts, k + 1, fuel);
        var r := Search2(input, starts, k + 1, fuel);
        assert Search2(input, starts, k, fuel) == r;
        if r.MissingNode? {
          var m :| k + 1 <= m <= fuel && WalkAll(input, starts, m).None? && NotYetAll(input, starts, k + 1, m);
          NotYetExtend(input, starts, k, m);
        }
      }
    }
  }

  /** The joint search runs out of fuel only when no step from `k` up to
      the fuel bound loses a walker or sees them all arrive. */
  lemma {:induction false} Search2Exhausted(input: Input, starts: seq<string>, k: nat, fuel: nat)
    requires |input.directions| > 0
    ensures Search2(input, starts, k, fuel).OutOfFuel? ==> NotYetAll(input, starts, k, fuel + 1)
    decreases fuel + 1 - k
  {
    if k <= fuel {
      var w := WalkAll(input, starts, k);
      if w.Some? && !AllEndInZ(w.value) {
        Search2Exhausted(input, starts, k + 1, fuel);
        var r := Search2(input, starts, k + 1, fuel);
        assert Search2(input, starts, k, fuel) == r;
        if r.OutOfFuel? {
          NotYetExtend(input, starts, k, fuel + 1);
        }
      }
    }
  }

  /** A step that neither loses a walker nor sees them all arrive
      extends a range of such steps one step back. */
  lemma NotYetExtend(input: Input, starts: seq<string>, k: nat, hi: nat)
    requires |input.directions| > 0
    requires k < hi
    requires WalkAll(input, starts, k).Some? && !AllEndInZ(WalkAll(input, starts, k).value)
    requires NotYetAll(input, starts, k + 1, hi)
    ensures NotYetAll(input, starts, k, hi)
  {
  }

  /** The joint walk's state over a range of steps, read over the set of
      starting names. */
  lemma NotYetOverNames(input: Input, starts: seq<string>, names: set<string>, lo: nat, hi: nat)
    requires |input.directions| > 0
    requires Enumerates(starts, names)
    requires NotYetAll(input, starts, lo, hi)
    ensures NoneYet(input, names, lo, hi)
  {
    forall j | lo <= j < hi ensures !SomeLost(input, names, j) && !AllArrive(input, names, j) {
      StepDecisions(input, starts, names, j);
    }
  }

  /** Part 2 counts the steps to the first moment every walker from a
      name ending in 'A' is at a name ending in 'Z' (one step when there
      are no such names), and panics at the first step that meets a
      missing node before that. */
  lemma Part2Spec(input: Input, starts: seq<string>, fuel: nat)
    requires Enumerates(starts, Starts(input))
    ensures input.directions == [] <==> Part2(input, starts, fuel) == Steps(0)
    ensures input.directions != [] && Part2(input, starts, fuel).Steps? ==>
              var n := Part2(input, starts, fuel).count;
              1 <= n <= fuel && AllArrive(input, Starts(input), n) && NoneYet(input, Starts(input), 1, n)
    ensures input.directions != [] && Part2(input, starts, fuel).MissingNode? ==>
              exists m :: 1 <= m <= fuel && SomeLost(input, Starts(input), m) && NoneYet(input, Starts(input), 1, m)
    ensures input.directions != [] && Part2(input, starts, fuel).OutOfFuel? ==>
              NoneYet(input, Starts(input), 1, fuel + 1)
  {
    if input.directions != [] {
      var names := Starts(input);
      Search2Spec(input, starts, 1, fuel);
      var r := Part2(input, starts, fuel);
      if r.Steps? {
        StepDecisions(input, starts, names, r.count);
        NotYetOverNames(input, starts, names, 1, r.count);
      } else if r.MissingNode? {
        var m :| 1 <= m <= fuel && WalkAll(input, starts, m).None? && NotYetAll(input, starts, 1, m);
        StepDecisions(input, starts, names, m);
        NotYetOverNames(input, starts, names, 1, m);
      } else {
        NotYetOverNames(input, starts, names, 1, fuel + 1);
      }
    }
  }

  /** With no name ending in 'A', `all` over the empty list holds at once:
      part 2 stops after one step. */
  lemma Part2NoStarts(input: Input, starts: seq<string>, fuel: nat)
    requires input.directions != [] && fuel >= 1
    requires Starts(input) == {} && Enumerates(starts, Starts(input))
    ensures Part2(input, starts, fuel) == Steps(1)
  {
    EmptyEnumeration(starts, Starts(input));
    assert WalkAll(input, starts, 0) == Some([]);
    assert MoveAll(input, [], 0) == Some([]);
  }

  lemma EmptyEnumeration(s: seq<string>, names: set<string>)
    ensures names == {} && Enumerates(s, names) ==> s == []
  {
    if s != [] {
      assert s[0] in s;
    }
  }

  // ---------------------------------------------------------------------
  // The puzzle's published example for part 1

  /** The network `LLR` with AAA = (BBB, BBB), BBB = (AAA, ZZZ) and
      ZZZ = (ZZZ, ZZZ) takes six steps, given the budget for them. */
  lemma ExamplePart1(input: Input, fuel: nat)
    requires input.directions == [L, L, R]
    requires input.nodes == map["AAA" := Node("BBB", "BBB"), "BBB" := Node("AAA", "ZZZ"), "ZZZ" := Node("ZZZ", "ZZZ")]
    requires fuel >= 6
    ensures Part1(input, fuel) == Steps(6)
  {
    var a, b, z := "AAA", "BBB", "ZZZ";
    assert a != z && b != z;
    assert Walk(input, a, 1) == Some(b);
    assert Walk(input, a, 2) == Some(a);
    assert Walk(input, a, 3) == Some(b);
    assert Walk(input, a, 4) == Some(a);
    assert Walk(input, a, 5) == Some(b);
    assert Walk(input, a, 6) == Some(z);
    assert Search(input, a, z, 6, 6) == Steps(6);
    assert Search(input, a, z, 4, 6) == Steps(6);
    assert Search(input, a, z, 2, 6) == Steps(6);
    assert Part1(input, 6) == Steps(6);
    Part1MoreFuel(input, 6, fuel);
  }

  lemma ExampleFirstSteps(input: Input, starts: seq<string>)
    requires input.directions == [L, R]
    requires input.nodes == map["11A" := Node("11B", "XXX"), "11B" := Node("XXX", "11Z"), "11Z" := Node("11B", "XXX"),
                                "22A" := Node("22B", "XXX"), "22B" := Node("22C", "22C"), "22C" := Node("22Z", "22Z"),
                                "22Z" := Node("22B", "22B"), "XXX" := Node("XXX", "XXX")]
    requires starts == ["11A", "22A"]
    ensures WalkAll(input, starts, 1) == Some(["11B", "22B"])
    ensures WalkAll(input, starts, 2) == Some(["11Z", "22C"])
    ensures WalkAll(input, starts, 3) == Some(["11B", "22Z"])
  {
    forall x, y, j | Move(input, x, j).Some? && Move(input, y, j).Some?
      ensures MoveAll(input, [x, y], j) == Some([Move(input, x, j).value, Move(input, y, j).value])
    {
      MoveAllPair(input, x, y, j);
    }
  }

  lemma ExampleLastSteps(input: Input, starts: seq<string>)
    requires input.directions == [L, R]
    requires input.nodes == map["11A" := Node("11B", "XXX"), "11B" := Node("XXX", "11Z"), "11Z" := Node("11B", "XXX"),
                                "22A" := Node("22B", "XXX"), "22B" := Node("22C", "22C"), "22C" := Node("22Z", "22Z"),
                                "22Z" := Node("22B", "22B"), "XXX" := Node("XXX", "XXX")]
    requires starts == ["11A", "22A"]
    ensures WalkAll(input, starts, 4) == Some(["11Z", "22B"])
    ensures WalkAll(input, starts, 5) == Some(["11B", "22C"])
    ensures WalkAll(input, starts, 6) == Some(["11Z", "22Z"])
  {
    ExampleFirstSteps(input, starts);
    forall x, y, j | Move(input, x, j).Some? && Move(input, y, j).Some?
      ensures MoveAll(input, [x, y], j) == Some([Move(input, x, j).value, Move(input, y, j).value])
    {
      MoveAllPair(input, x, y, j);
    }
    assert DirIndex(3, 2) == 1 && DirIndex(4, 2) == 0 && DirIndex(5, 2) == 1;
  }

  /** 11A and 22A are the names of the example that end in 'A'. */
  lemma ExampleStarts(input: Input, starts: seq<string>)
    requires input.directions == [L, R]
    requires input.nodes == map["11A" := Node("11B", "XXX"), "11B" := Node("XXX", "11Z"), "11Z" := Node("11B", "XXX"),
                                "22A" := Node("22B", "XXX"), "22B" := Node("22C", "22C"), "22C" := Node("22Z", "22Z"),
                                "22Z" := Node("22B", "22B"), "XXX" := Node("XXX", "XXX")]
    requires starts == ["11A", "22A"]
    ensures Enumerates(starts, Starts(input))
  {
    assert input.nodes.Keys == {"11A", "11B", "11Z", "22A", "22B", "22C", "22Z", "XXX"};
    assert Starts(input) == {"11A", "22A"};
  }

  /** The two walkers of part 2's example, from 11A and 22A, are at
      names ending in 'Z' together for the first time after six steps. */
  lemma ExamplePart2(input: Input, starts: seq<string>)
    requires input.directions == [L, R]
    requires input.nodes == map["11A" := Node("11B", "XXX"), "11B" := Node("XXX", "11Z"), "11Z" := Node("11B", "XXX"),
                                "22A" := Node("22B", "XXX"), "22B" := Node("22C", "22C"), "22C" := Node("22Z", "22Z"),
                                "22Z" := Node("22B", "22B"), "XXX" := Node("XXX", "XXX")]
    requires starts == ["11A", "22A"]
    ensures Enumerates(starts, Starts(input))
    ensures Part2(input, starts, 6) == Steps(6)
  {
    ExampleStarts(input, starts);
    ExampleFirstSteps(input, starts);
    ExampleLastSteps(input, starts);
    ExampleSearch(input, starts);
  }

  lemma PairArrived(a: string, b: string)
    requires EndsWith(a, 'Z') && EndsWith(b, 'Z')
    ensures AllEndInZ([a, b])
  {
  }

  lemma PairNotArrived(a: string, b: string)
    requires !EndsWith(a, 'Z') || !EndsWith(b, 'Z')
    ensures !AllEndInZ([a, b])
  {
    if !EndsWith(a, 'Z') {
      assert [a, b][0] == a;
    } else {
      assert [a, b][1] == b;
    }
  }

  /** A step at which the walkers are all on the network and not all at
      a name ending in 'Z' passes the search on to the next step. */
  lemma Search2Skip(input: Input, starts: seq<string>, k: nat, fuel: nat)
    requires |input.directions| > 0 && k <= fuel
    requires WalkAll(input, starts, k).Some? && !AllEndInZ(WalkAll(input, starts, k).value)
    ensures Search2(input, starts, k, fuel) == Search2(input, starts, k + 1, fuel)
  {
  }

  /** The joint search over the example's six positions of the walkers. */
  lemma ExampleSearch(input: Input, starts: seq<string>)
    requires |input.directions| > 0
    requires WalkAll(input, starts, 1) == Some(["11B", "22B"])
    requires WalkAll(input, starts, 2) == Some(["11Z", "22C"])
    requires WalkAll(input, starts, 3) == Some(["11B", "22Z"])
    requires WalkAll(input, starts, 4) == Some(["11Z", "22B"])
    requires WalkAll(input, starts, 5) == Some(["11B", "22C"])
    requires WalkAll(input, starts, 6) == Some(["11Z", "22Z"])
    ensures Search2(input, starts, 1, 6) == Steps(6)
  {
    assert !EndsWith("11B", 'Z') && !EndsWith("22C", 'Z') && !EndsWith("22B", 'Z');
    assert EndsWith("11Z", 'Z') && EndsWith("22Z", 'Z');
    PairNotArrived("11B", "22B");
    PairNotArrived("11Z", "22C");
    PairNotArrived("11B", "22Z");
    PairNotArrived("11Z", "22B");
    PairNotArrived("11B", "22C");
    PairArrived("11Z", "22Z");
    Search2Skip(input, starts, 1, 6);
    Search2Skip(input, starts, 2, 6);
    Search2Skip(input, starts, 3, 6);
    Search2Skip(input, starts, 4, 6);
    Search2Skip(input, starts, 5, 6);
  }

  lemma MoveAllPair(input: Input, x: string, y: string, j: nat)
    requires |input.directions| > 0
    requires Move(input, x, j).Some? && Move(input, y, j).Some?
    ensures MoveAll(input, [x, y], j) == Some([Move(input, x, j).value, Move(input, y, j).value])
  {
    assert [x, y][..1] == [x] && [x][..0] == [];
    var none: seq<string> := [];
    assert MoveAll(input, [x], j) == Some(none + [Move(input, x, j).value]);
    assert none + [Move(input, x, j).value] == [Move(input, x, j).value];
    assert [Move(input, x, j).value] + [Move(input, y, j).value] == [Move(input, x, j).value, Move(input, y, j).value];
  }
}
