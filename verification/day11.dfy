/** Day 11: cosmic expansion (src/bin/day11.rs). Empty rows and columns of
    an image of galaxies are widened, and the distances between all pairs
    of galaxies are summed; part 2 widens them arithmetically instead of
    building the expanded image. */
module Day11 {
  import opened Common

  datatype Point = Galaxy | Space

  /** A position in the image; `enumerate` makes both parts
      non-negative. */
  datatype Coord = Coord(row: nat, col: nat)

  /** The number of columns: the length of the first row. */
  function Width(g: seq<seq<Point>>): nat
  {
    if g == [] then 0 else |g[0]|
  }

  /** Every row as long as the first. */
  predicate Rectangular(g: seq<seq<Point>>)
  {
    forall r :: 0 <= r < |g| ==> |g[r]| == Width(g)
  }

  predicate AllSpace(points: seq<Point>)
  {
    forall i :: 0 <= i < |points| ==> points[i] == Space
  }

  predicate Increasing(xs: seq<nat>)
  {
    forall i, j :: 0 <= i < j < |xs| ==> xs[i] < xs[j]
  }

  // ---------------------------------------------------------------------
  // Empty rows and columns

  /** `enumerate().filter(all Space).map(index)`: the indices of the lines
      made only of space, in increasing order. */
  function EmptyIndices(lines: seq<seq<Point>>): (r: seq<nat>)
    ensures Increasing(r)
    ensures forall i :: 0 <= i < |r| ==> r[i] < |lines|
    ensures forall i: nat :: i in r <==> i < |lines| && AllSpace(lines[i])
  {
    if lines == [] then []
    else
      var n := |lines| - 1;
      var front := EmptyIndices(lines[..n]);
      assert forall i :: 0 <= i < n ==> lines[..n][i] == lines[i];
      front + (if AllSpace(lines[n]) then [n] else [])
  }

  /** `find_empty_rows`. */
  function FindEmptyRows(g: seq<seq<Point>>): (rows: seq<nat>)
    ensures Increasing(rows)
    ensures forall r: nat :: r in rows <==> r < |g| && AllSpace(g[r])
  {
    EmptyIndices(g)
  }

  /** The `transpose` helper, which is not part of this model, specified
      on a rectangular image: row `c` of the result is column `c`. */
  function Transpose(g: seq<seq<Point>>): (t: seq<seq<Point>>)
    requires Rectangular(g)
    ensures |t| == Width(g)
    ensures forall c :: 0 <= c < |t| ==> |t[c]| == |g|
    ensures forall c, r :: 0 <= c < |t| && 0 <= r < |g| ==> t[c][r] == g[r][c]
  {
    seq(Width(g), c requires 0 <= c < Width(g) =>
      seq(|g|, r requires 0 <= r < |g| => g[r][c]))
  }

  /** `find_empty_cols`: the columns made only of space, in increasing
      order. */
  function FindEmptyCols(g: seq<seq<Point>>): (cols: seq<nat>)
    requires Rectangular(g)
    ensures Increasing(cols)
    ensures forall c: nat :: c in cols <==>
              c < Width(g) && forall r :: 0 <= r < |g| ==> g[r][c] == Space
  {
    var t := Transpose(g);
    var cols := EmptyIndices(t);
    assert forall c: nat :: c < Width(g) ==>
      (AllSpace(t[c]) <==> forall r :: 0 <= r < |g| ==> g[r][c] == Space) by {
      forall c: nat | c < Width(g)
        ensures AllSpace(t[c]) <==> forall r :: 0 <= r < |g| ==> g[r][c] == Space
      {
        assert forall r :: 0 <= r < |g| ==> t[c][r] == g[r][c];
      }
    }
    cols
  }

  // ---------------------------------------------------------------------
  // Expansion

  /** How many of the indices below `i` are in `xs`: the number of lines
      duplicated before line `i`. */
  function Dup(xs: seq<nat>, i: nat): nat
  {
    if i == 0 then 0 else Dup(xs, i - 1) + (if i - 1 in xs then 1 else 0)
  }

  /** Where line `i` lands once the lines in `xs` are doubled. */
  function Shift(xs: seq<nat>, i: nat): nat
  {
    i + Dup(xs, i)
  }

  /** The inner `flat_map` of `expand`: each point of a column in `cols`
      appears twice. */
  function ExpandRow(points: seq<Point>, cols: seq<nat>): (r: seq<Point>)
    ensures |r| == Shift(cols, |points|)
  {
    if points == [] then []
    else
      var n := |points| - 1;
      ExpandRow(points[..n], cols) + (if n in cols then [points[n], points[n]] else [points[n]])
  }

  /** The outer `flat_map` of `expand`: each row is widened, and a row in
      `rows` appears twice. */
  function ExpandRows(g: seq<seq<Point>>, rows: seq<nat>, cols: seq<nat>): (e: seq<seq<Point>>)
    ensures |e| == Shift(rows, |g|)
  {
    if g == [] then []
    else
      var n := |g| - 1;
      var row := ExpandRow(g[n], cols);
      ExpandRows(g[..n], rows, cols) + (if n in rows then [row, row] else [row])
  }

  /** `expand`. */
  function Expand(g: seq<seq<Point>>): seq<seq<Point>>
    requires Rectangular(g)
  {
    ExpandRows(g, FindEmptyRows(g), FindEmptyCols(g))
  }

  lemma {:induction false} DupMonotone(xs: seq<nat>, i: nat, j: nat)
    requires i <= j
    ensures Dup(xs, i) <= Dup(xs, j)
    decreases j
  {
    if i < j {
      DupMonotone(xs, i, j - 1);
    }
  }

  /** Line `c` of a row lands at `Shift(cols, c)`, and a doubled line
      again just after it. */
  lemma {:induction false} ExpandRowAt(points: seq<Point>, cols: seq<nat>, c: nat)
    requires c < |points|
    ensures Shift(cols, c) < |ExpandRow(points, cols)| && ExpandRow(points, cols)[Shift(cols, c)] == points[c]
    ensures c in cols ==> Shift(cols, c) + 1 < |ExpandRow(points, cols)|
                          && ExpandRow(points, cols)[Shift(cols, c) + 1] == points[c]
  {
    var n := |points| - 1;
    var front := points[..n];
    if c < n {
      ExpandRowAt(front, cols, c);
      DupMonotone(cols, c + 1, n);
      assert Shift(cols, c + 1) <= Shift(cols, n);
    }
  }

  /** Every point of the widened row comes from a point of the row: from
      its own column, or as the copy of a doubled one. */
  lemma {:induction false} ExpandRowCovers(points: seq<Point>, cols: seq<nat>, j: nat)
    requires j < |ExpandRow(points, cols)|
    ensures exists c :: 0 <= c < |points| && ExpandRow(points, cols)[j] == points[c]
              && (j == Shift(cols, c) || (c in cols && j == Shift(cols, c) + 1))
  {
    var n := |points| - 1;
    var front := points[..n];
    if j < Shift(cols, n) {
      ExpandRowCovers(front, cols, j);
      var c :| 0 <= c < |front| && ExpandRow(front, cols)[j] == front[c]
               && (j == Shift(cols, c) || (c in cols && j == Shift(cols, c) + 1));
      assert points[c] == front[c];
    } else {
      assert ExpandRow(points, cols)[j] == points[n];
    }
  }

  /** Row `r` of the image lands at `Shift(rows, r)` widened, and a doubled
      row again just after it. */
  lemma {:induction false} ExpandRowsAt(g: seq<seq<Point>>, rows: seq<nat>, cols: seq<nat>, r: nat)
    requires r < |g|
    ensures Shift(rows, r) < |ExpandRows(g, rows, cols)|
            && ExpandRows(g, rows, cols)[Shift(rows, r)] == ExpandRow(g[r], cols)
    ensures r in rows ==> Shift(rows, r) + 1 < |ExpandRows(g, rows, cols)|
                          && ExpandRows(g, rows, cols)[Shift(rows, r) + 1] == ExpandRow(g[r], cols)
  {
    var n := |g| - 1;
    var front := g[..n];
    if r < n {
      ExpandRowsAt(front, rows, cols, r);
      DupMonotone(rows, r + 1, n);
      assert Shift(rows, r + 1) <= Shift(rows, n);
      assert front[r] == g[r];
    }
  }

  /** Every row of the expanded image is a widened row of the image. */
  lemma {:induction false} ExpandRowsCovers(g: seq<seq<Point>>, rows: seq<nat>, cols: seq<nat>, j: nat)
    requires j < |ExpandRows(g, rows, cols)|
    ensures exists r :: 0 <= r < |g| && ExpandRows(g, rows, cols)[j] == ExpandRow(g[r], cols)
              && (j == Shift(rows, r) || (r in rows && j == Shift(rows, r) + 1))
  {
    var n := |g| - 1;
    var front := g[..n];
    if j < Shift(rows, n) {
      ExpandRowsCovers(front, rows, cols, j);
      var r :| 0 <= r < |front| && ExpandRows(front, rows, cols)[j] == ExpandRow(front[r], cols)
               && (j == Shift(rows, r) || (r in rows && j == Shift(rows, r) + 1));
      assert g[r] == front[r];
    } else {
      assert ExpandRows(g, rows, cols)[j] == ExpandRow(g[n], cols);
    }
  }

  // ---------------------------------------------------------------------
  // Counting indices

  /** How many entries of `xs` are below `hi`. */
  function CountBelow(xs: seq<nat>, hi: int): nat
  {
    if xs == [] then 0
    else CountBelow(xs[..|xs| - 1], hi) + (if xs[|xs| - 1] < hi then 1 else 0)
  }

  /** How many entries of `xs` equal `v`. */
  function CountEq(xs: seq<nat>, v: int): nat
  {
    if xs == [] then 0
    else CountEq(xs[..|xs| - 1], v) + (if xs[|xs| - 1] == v then 1 else 0)
  }

  lemma {:induction false} CountEqOfIncreasing(xs: seq<nat>, v: nat)
    requires Increasing(xs)
    ensures CountEq(xs, v) == if v in xs then 1 else 0
  {
    if xs != [] {
      var n := |xs| - 1;
      CountEqOfIncreasing(xs[..n], v);
      assert forall i :: 0 <= i < n ==> xs[..n][i] == xs[i] && xs[i] < xs[n];
      assert xs == xs[..n] + [xs[n]];
    }
  }

  lemma {:induction false} CountBelowStep(xs: seq<nat>, hi: int)
    ensures CountBelow(xs, hi + 1) == CountBelow(xs, hi) + CountEq(xs, hi)
  {
    if xs != [] {
      CountBelowStep(xs[..|xs| - 1], hi);
    }
  }

  /** For increasing indices, `Dup` counts the entries below. */
  lemma {:induction false} DupIsCountBelow(xs: seq<nat>, i: nat)
    requires Increasing(xs)
    ensures Dup(xs, i) == CountBelow(xs, i)
  {
    if i > 0 {
      var k: nat := i - 1;
      DupIsCountBelow(xs, k);
      CountBelowStep(xs, k);
      CountEqOfIncreasing(xs, k);
      assert Dup(xs, i) == Dup(xs, k) + (if k in xs then 1 else 0);
      assert CountBelow(xs, k + 1) == CountBelow(xs, k) + CountEq(xs, k);
    } else {
      CountBelowZero(xs);
    }
  }

  lemma {:induction false} CountBelowZero(xs: seq<nat>)
    ensures CountBelow(xs, 0) == 0
  {
    if xs != [] {
      CountBelowZero(xs[..|xs| - 1]);
    }
  }

  lemma {:induction false} CountBelowAll(xs: seq<nat>, hi: int)
    requires forall i :: 0 <= i < |xs| ==> xs[i] < hi
    ensures CountBelow(xs, hi) == |xs|
  {
    if xs != [] {
      CountBelowAll(xs[..|xs| - 1], hi);
    }
  }

  /** Doubling the lines listed in an increasing sequence of indices
      below `n` adds one line per entry. */
  lemma ShiftOfIncreasing(xs: seq<nat>, n: nat)
    requires Increasing(xs) && forall i :: 0 <= i < |xs| ==> xs[i] < n
    ensures Shift(xs, n) == n + |xs|
  {
    DupIsCountBelow(xs, n);
    CountBelowAll(xs, n);
  }

  // ---------------------------------------------------------------------
  // The shape of the expanded image

  /** The expanded image has one more row per empty row and, in every
      row, one more column per empty column. */
  lemma ExpandSize(g: seq<seq<Point>>)
    requires Rectangular(g)
    ensures |Expand(g)| == |g| + |FindEmptyRows(g)|
    ensures Rectangular(Expand(g))
    ensures forall j :: 0 <= j < |Expand(g)| ==> |Expand(g)[j]| == Width(g) + |FindEmptyCols(g)|
  {
    var rows, cols := FindEmptyRows(g), FindEmptyCols(g);
    ShiftOfIncreasing(rows, |g|);
    ShiftOfIncreasing(cols, Width(g));
    forall j | 0 <= j < |Expand(g)| ensures |Expand(g)[j]| == Width(g) + |cols| {
      ExpandRowsCovers(g, rows, cols, j);
    }
  }

  /** Every point keeps its place up to the shift, and every doubled row
      and column is followed by its copy. */
  lemma ExpandRowsKeepsPoints(g: seq<seq<Point>>, rows: seq<nat>, cols: seq<nat>, r: nat, c: nat)
    requires r < |g| && c < |g[r]|
    ensures var e := ExpandRows(g, rows, cols);
            Shift(rows, r) < |e| && Shift(cols, c) < |e[Shift(rows, r)]|
            && e[Shift(rows, r)][Shift(cols, c)] == g[r][c]
            && (r in rows ==> Shift(rows, r) + 1 < |e| && e[Shift(rows, r) + 1] == e[Shift(rows, r)])
            && (c in cols ==> Shift(cols, c) + 1 < |e[Shift(rows, r)]|
                              && e[Shift(rows, r)][Shift(cols, c) + 1] == g[r][c])
  {
    ExpandRowsAt(g, rows, cols, r);
    ExpandRowAt(g[r], cols, c);
  }

  // ---------------------------------------------------------------------
  // Galaxies

  /** The columns of a row that hold a galaxy, in increasing order. */
  function GalaxyCols(points: seq<Point>): (cs: seq<nat>)
    ensures Increasing(cs)
    ensures forall k :: 0 <= k < |cs| ==> cs[k] < |points|
    ensures forall c: nat :: c in cs <==> c < |points| && points[c] == Galaxy
  {
    if points == [] then []
    else
      var n := |points| - 1;
      var front := GalaxyCols(points[..n]);
      assert forall i :: 0 <= i < n ==> points[..n][i] == points[i];
      front + (if points[n] == Galaxy then [n] else [])
  }

  function InRow(r: nat, cs: seq<nat>): (ps: seq<Coord>)
    ensures |ps| == |cs| && forall k :: 0 <= k < |cs| ==> ps[k] == Coord(r, cs[k])
  {
    seq(|cs|, k requires 0 <= k < |cs| => Coord(r, cs[k]))
  }

  /** Row-major order on positions. */
  predicate Before(a: Coord, b: Coord)
  {
    a.row < b.row || (a.row == b.row && a.col < b.col)
  }

  /** `get_galaxy_coordinates`: the galaxies in row-major order. */
  function Galaxies(g: seq<seq<Point>>): (ps: seq<Coord>)
    ensures forall i, j :: 0 <= i < j < |ps| ==> Before(ps[i], ps[j])
    ensures forall p :: p in ps <==> p.row < |g| && p.col < |g[p.row]| && g[p.row][p.col] == Galaxy
  {
    if g == [] then []
    else
      var n := |g| - 1;
      var front := Galaxies(g[..n]);
      var last := InRow(n, GalaxyCols(g[n]));
      assert forall i :: 0 <= i < n ==> g[..n][i] == g[i];
      assert forall p :: p in last <==> p.row == n && p.col < |g[n]| && g[n][p.col] == Galaxy by {
        forall p ensures p in last <==> p.row == n && p.col < |g[n]| && g[n][p.col] == Galaxy {
          if p.row == n && p.col < |g[n]| && g[n][p.col] == Galaxy {
            var k :| 0 <= k < |GalaxyCols(g[n])| && GalaxyCols(g[n])[k] == p.col;
            assert last[k] == p;
          }
        }
      }
      front + last
  }

  lemma GalaxyColsSnoc(points: seq<Point>, p: Point)
    ensures GalaxyCols(points + [p]) == GalaxyCols(points) + (if p == Galaxy then [|points|] else [])
  {
    assert (points + [p])[..|points|] == points;
  }

  lemma GalaxiesSnoc(g: seq<seq<Point>>, row: seq<Point>)
    ensures Galaxies(g + [row]) == Galaxies(g) + InRow(|g|, GalaxyCols(row))
  {
    assert (g + [row])[..|g|] == g;
  }

  lemma {:induction false} GalaxyColsOfSpace(points: seq<Point>)
    requires AllSpace(points)
    ensures GalaxyCols(points) == []
  {
    if points != [] {
      GalaxyColsOfSpace(points[..|points| - 1]);
    }
  }

  lemma {:induction false} ExpandRowOfSpace(points: seq<Point>, cols: seq<nat>)
    requires AllSpace(points)
    ensures AllSpace(ExpandRow(points, cols))
  {
    if points != [] {
      ExpandRowOfSpace(points[..|points| - 1], cols);
    }
  }

  /** Shifting a list of indices. */
  function ShiftAll(xs: seq<nat>, cs: seq<nat>): (r: seq<nat>)
    ensures |r| == |cs| && forall k :: 0 <= k < |cs| ==> r[k] == Shift(xs, cs[k])
  {
    seq(|cs|, k requires 0 <= k < |cs| => Shift(xs, cs[k]))
  }

  /** Shifting a list of positions. */
  function ShiftCoords(rows: seq<nat>, cols: seq<nat>, ps: seq<Coord>): (r: seq<Coord>)
    ensures |r| == |ps|
    ensures forall k :: 0 <= k < |ps| ==> r[k] == Coord(Shift(rows, ps[k].row), Shift(cols, ps[k].col))
  {
    seq(|ps|, k requires 0 <= k < |ps| => Coord(Shift(rows, ps[k].row), Shift(cols, ps[k].col)))
  }

  lemma ShiftAllAppend(xs: seq<nat>, a: seq<nat>, b: seq<nat>)
    ensures ShiftAll(xs, a + b) == ShiftAll(xs, a) + ShiftAll(xs, b)
  {
  }

  /** A column of space adds no galaxy. */
  lemma SpaceSnoc(points: seq<Point>)
    ensures GalaxyCols(points + [Space]) == GalaxyCols(points)
  {
    GalaxyColsSnoc(points, Space);
    assert GalaxyCols(points) + [] == GalaxyCols(points);
  }

  /** A doubled column of space adds no galaxy. */
  lemma SpaceAddsNoGalaxy(points: seq<Point>)
    ensures GalaxyCols(points + [Space, Space]) == GalaxyCols(points)
  {
    assert points + [Space, Space] == (points + [Space]) + [Space];
    SpaceSnoc(points + [Space]);
    SpaceSnoc(points);
  }

  /** Widening a row moves its galaxies to their shifted columns and adds
      none, since only columns of space are doubled. */
  lemma {:induction false} GalaxyColsOfExpandRow(points: seq<Point>, cols: seq<nat>)
    requires forall c: nat :: c in cols && c < |points| ==> points[c] == Space
    ensures GalaxyCols(ExpandRow(points, cols)) == ShiftAll(cols, GalaxyCols(points))
  {
    if points != [] {
      var n := |points| - 1;
      var front, p := points[..n], points[n];
      assert points == front + [p];
      assert forall c: nat :: c in cols && c < |front| ==> front[c] == Space by {
        assert forall c :: 0 <= c < n ==> front[c] == points[c];
      }
      GalaxyColsOfExpandRow(front, cols);
      GalaxyColsOfExpandRowStep(front, p, cols);
    }
  }

  /** Widening one more point at the end of a row. */
  lemma ExpandRowSnoc(front: seq<Point>, p: Point, cols: seq<nat>)
    ensures ExpandRow(front + [p], cols) == ExpandRow(front, cols) + (if |front| in cols then [p, p] else [p])
  {
    assert (front + [p])[..|front|] == front;
  }

  /** The step of `GalaxyColsOfExpandRow`: one more point at the end. */
  lemma GalaxyColsOfExpandRowStep(front: seq<Point>, p: Point, cols: seq<nat>)
    requires |front| in cols ==> p == Space
    requires GalaxyCols(ExpandRow(front, cols)) == ShiftAll(cols, GalaxyCols(front))
    ensures GalaxyCols(ExpandRow(front + [p], cols)) == ShiftAll(cols, GalaxyCols(front + [p]))
  {
    ExpandRowSnoc(front, p, cols);
    if |front| in cols {
      DoubledStep(front, ExpandRow(front, cols), cols);
    } else {
      SingleStep(front, ExpandRow(front, cols), p, cols);
    }
  }

  lemma DoubledStep(front: seq<Point>, ef: seq<Point>, cols: seq<nat>)
    requires GalaxyCols(ef) == ShiftAll(cols, GalaxyCols(front))
    ensures GalaxyCols(ef + [Space, Space]) == ShiftAll(cols, GalaxyCols(front + [Space]))
  {
    SpaceSnoc(front);
    SpaceAddsNoGalaxy(ef);
  }

  lemma SingleStep(front: seq<Point>, ef: seq<Point>, p: Point, cols: seq<nat>)
    requires |ef| == Shift(cols, |front|)
    requires GalaxyCols(ef) == ShiftAll(cols, GalaxyCols(front))
    ensures GalaxyCols(ef + [p]) == ShiftAll(cols, GalaxyCols(front + [p]))
  {
    GalaxyColsSnoc(front, p);
    GalaxyColsSnoc(ef, p);
    ShiftAllSnoc(cols, GalaxyCols(front), p, |front|);
  }

  lemma ShiftAllSnoc(xs: seq<nat>, cs: seq<nat>, p: Point, n: nat)
    ensures ShiftAll(xs, cs + (if p == Galaxy then [n] else []))
         == ShiftAll(xs, cs) + (if p == Galaxy then [Shift(xs, n)] else [])
  {
    ShiftAllAppend(xs, cs, if p == Galaxy then [n] else []);
  }

  /** Shifting the positions of one row. */
  lemma ShiftInRow(rows: seq<nat>, cols: seq<nat>, r: nat, cs: seq<nat>)
    ensures ShiftCoords(rows, cols, InRow(r, cs)) == InRow(Shift(rows, r), ShiftAll(cols, cs))
  {
  }

  lemma ShiftCoordsAppend(rows: seq<nat>, cols: seq<nat>, a: seq<Coord>, b: seq<Coord>)
    ensures ShiftCoords(rows, cols, a + b) == ShiftCoords(rows, cols, a) + ShiftCoords(rows, cols, b)
  {
  }

  /** Expanding one more row at the bottom. */
  lemma ExpandRowsSnoc(front: seq<seq<Point>>, last: seq<Point>, rows: seq<nat>, cols: seq<nat>)
    ensures ExpandRows(front + [last], rows, cols)
         == ExpandRows(front, rows, cols)
            + (if |front| in rows then [ExpandRow(last, cols), ExpandRow(last, cols)] else [ExpandRow(last, cols)])
  {
    assert (front + [last])[..|front|] == front;
  }

  /** The galaxies of the expanded image are those of the image, shifted,
      in the same order. */
  lemma {:induction false} GalaxiesOfExpandRows(g: seq<seq<Point>>, rows: seq<nat>, cols: seq<nat>)
    requires forall r: nat :: r in rows && r < |g| ==> AllSpace(g[r])
    requires forall r, c: nat :: 0 <= r < |g| && c in cols && c < |g[r]| ==> g[r][c] == Space
    ensures Galaxies(ExpandRows(g, rows, cols)) == ShiftCoords(rows, cols, Galaxies(g))
  {
    if g != [] {
      var n := |g| - 1;
      var front, last := g[..n], g[n];
      assert forall r :: 0 <= r < n ==> front[r] == g[r];
      GalaxiesOfExpandRows(front, rows, cols);
      assert g == front + [last];
      if n in rows {
        EmptyRowStep(front, last, rows, cols);
      } else {
        assert forall c: nat :: c in cols && c < |last| ==> last[c] == Space;
        KeptRowStep(front, last, rows, cols);
      }
    }
  }

  /** The step of `GalaxiesOfExpandRows` for a doubled row of space. */
  lemma EmptyRowStep(front: seq<seq<Point>>, last: seq<Point>, rows: seq<nat>, cols: seq<nat>)
    requires |front| in rows && AllSpace(last)
    requires Galaxies(ExpandRows(front, rows, cols)) == ShiftCoords(rows, cols, Galaxies(front))
    ensures Galaxies(ExpandRows(front + [last], rows, cols)) == ShiftCoords(rows, cols, Galaxies(front + [last]))
  {
    var ef := ExpandRows(front, rows, cols);
    var row := ExpandRow(last, cols);
    GalaxyColsOfSpace(last);
    ExpandRowOfSpace(last, cols);
    GalaxyColsOfSpace(row);
    GalaxiesSnocNone(front, last);
    GalaxiesSnocNone(ef, row);
    GalaxiesSnocNone(ef + [row], row);
    ExpandRowsSnoc(front, last, rows, cols);
    assert ef + [row, row] == (ef + [row]) + [row];
  }

  /** A row without galaxies adds none to the list. */
  lemma GalaxiesSnocNone(g: seq<seq<Point>>, row: seq<Point>)
    requires |GalaxyCols(row)| == 0
    ensures Galaxies(g + [row]) == Galaxies(g)
  {
    GalaxiesSnoc(g, row);
    assert Galaxies(g) + InRow(|g|, GalaxyCols(row)) == Galaxies(g);
  }

  /** The step of `GalaxiesOfExpandRows` for a row kept once. */
  lemma KeptRowStep(front: seq<seq<Point>>, last: seq<Point>, rows: seq<nat>, cols: seq<nat>)
    requires |front| !in rows
    requires forall c: nat :: c in cols && c < |last| ==> last[c] == Space
    requires Galaxies(ExpandRows(front, rows, cols)) == ShiftCoords(rows, cols, Galaxies(front))
    ensures Galaxies(ExpandRows(front + [last], rows, cols)) == ShiftCoords(rows, cols, Galaxies(front + [last]))
  {
    var ef := ExpandRows(front, rows, cols);
    var row := ExpandRow(last, cols);
    ExpandRowsSnoc(front, last, rows, cols);
    GalaxiesSnoc(front, last);
    GalaxiesSnoc(ef, row);
    GalaxyColsOfExpandRow(last, cols);
    ShiftInRow(rows, cols, |front|, GalaxyCols(last));
    ShiftCoordsAppend(rows, cols, Galaxies(front), InRow(|front|, GalaxyCols(last)));
  }

  lemma GalaxiesOfExpand(g: seq<seq<Point>>)
    requires Rectangular(g)
    ensures Galaxies(Expand(g)) == ShiftCoords(FindEmptyRows(g), FindEmptyCols(g), Galaxies(g))
  {
    GalaxiesOfExpandRows(g, FindEmptyRows(g), FindEmptyCols(g));
  }

  // ---------------------------------------------------------------------
  // Distances

  function Abs(x: int): nat
  {
    if x < 0 then -x else x
  }

  /** The Manhattan distance of the `Coordinate` helper. */
  function Manhattan(a: Coord, b: Coord): nat
  {
    Abs(a.row - b.row) + Abs(a.col - b.col)
  }

  /** `x` lies strictly between `p` and `q`, in either order. */
  predicate Between(x: int, p: int, q: int)
  {
    (x > p && x < q) || (x > q && x < p)
  }

  /** `row_between`. */
  predicate RowBetween(row: int, a: Coord, b: Coord)
  {
    Between(row, a.row, b.row)
  }

  /** `col_between`. */
  predicate ColBetween(col: int, a: Coord, b: Coord)
  {
    Between(col, a.col, b.col)
  }

  /** `row_between` and `col_between` are symmetric in the two positions
      and strict: neither end is between. */
  lemma BetweenSymmetricAndStrict(x: int, a: Coord, b: Coord)
    ensures RowBetween(x, a, b) == RowBetween(x, b, a)
    ensures ColBetween(x, a, b) == ColBetween(x, b, a)
    ensures RowBetween(x, a, b) ==> x != a.row && x != b.row
    ensures ColBetween(x, a, b) ==> x != a.col && x != b.col
    ensures RowBetween(x, a, b) <==>
              (if a.row <= b.row then a.row < x < b.row else b.row < x < a.row)
  {
  }

  /** How many entries of `xs` lie strictly between `p` and `q`. */
  function CountBetween(xs: seq<nat>, p: int, q: int): nat
  {
    if xs == [] then 0
    else CountBetween(xs[..|xs| - 1], p, q) + (if Between(xs[|xs| - 1], p, q) then 1 else 0)
  }

  /** The empty rows and columns crossed going from `a` to `b`. */
  function Crossed(rows: seq<nat>, cols: seq<nat>, a: Coord, b: Coord): nat
  {
    CountBetween(cols, a.col, b.col) + CountBetween(rows, a.row, b.row)
  }

  /** The pair distance of `solve_part2`, where `extra` is `expansion - 1`:
      each crossed empty line counts `extra` more times. */
  function Part2Distance(rows: seq<nat>, cols: seq<nat>, extra: nat, a: Coord, b: Coord): nat
  {
    Manhattan(a, b) + Crossed(rows, cols, a, b) * extra
  }

  /** `Part2Distance` as the distance function summed over the pairs. */
  function Widened(rows: seq<nat>, cols: seq<nat>, extra: nat): (d: (Coord, Coord) -> nat)
    ensures forall a, b :: d(a, b) == Part2Distance(rows, cols, extra, a, b)
  {
    (a, b) => Part2Distance(rows, cols, extra, a, b)
  }

  /** The entries the pair sum adds for the last position. */
  function LastPairs(ps: seq<Coord>, d: (Coord, Coord) -> nat): (r: seq<int>)
    requires ps != []
    ensures |r| == |ps| - 1
    ensures forall i :: 0 <= i < |r| ==> r[i] == d(ps[i], ps[|ps| - 1])
  {
    seq(|ps| - 1, i requires 0 <= i < |ps| - 1 => d(ps[i], ps[|ps| - 1]))
  }

  /** `tuple_combinations().map(d).sum()`: `d` over every pair `i < j`. */
  function PairSum(ps: seq<Coord>, d: (Coord, Coord) -> nat): int
  {
    if ps == [] then 0
    else
      var n := |ps| - 1;
      PairSum(ps[..n], d) + Sum(LastPairs(ps, d))
  }

  /** Every row as long as every other: `all_equal` on the row lengths. */
  predicate AllEqualLengths(e: seq<seq<Point>>)
  {
    forall i, j :: 0 <= i < |e| && 0 <= j < |e| ==> |e[i]| == |e[j]|
  }

  /** `solve_part1`: `None` stands for the panic on a ragged expanded
      image; otherwise the sum of the Manhattan distances of all pairs of
      galaxies of the expanded image. */
  function SolvePart1(g: seq<seq<Point>>): (r: Option<int>)
    requires Rectangular(g)
    ensures r.Some? <==> AllEqualLengths(Expand(g))
  {
    var e := Expand(g);
    if !AllEqualLengths(e) then None
    else Some(PairSum(Galaxies(e), Manhattan))
  }

  /** `solve_part2`: the galaxies of the image itself, each pair's distance
      widened by `expansion - 1` per empty line crossed. */
  function SolvePart2(g: seq<seq<Point>>, expansion: nat): int
    requires Rectangular(g) && expansion >= 1
  {
    var rows, cols := FindEmptyRows(g), FindEmptyCols(g);
    PairSum(Galaxies(g), Widened(rows, cols, expansion - 1))
  }

  // ---------------------------------------------------------------------
  // Properties of the solvers

  /** The expanded image of a rectangular image is never ragged, so part 1
      never panics. */
  lemma Part1NeverPanics(g: seq<seq<Point>>)
    requires Rectangular(g)
    ensures SolvePart1(g).Some?
    ensures SolvePart1(g).value == PairSum(Galaxies(Expand(g)), Manhattan)
  {
    ExpandSize(g);
  }

  /** Galaxies never lie in an empty row or an empty column. */
  lemma GalaxiesAvoidEmptyLines(g: seq<seq<Point>>, p: Coord)
    requires Rectangular(g) && p in Galaxies(g)
    ensures p.row !in FindEmptyRows(g) && p.col !in FindEmptyCols(g)
  {
    assert g[p.row][p.col] == Galaxy;
  }

  lemma {:induction false} CountBelowSplit(xs: seq<nat>, p: int, q: int)
    requires p < q
    ensures CountBelow(xs, q) == CountBelow(xs, p + 1) + CountBetween(xs, p, q)
  {
    if xs != [] {
      CountBelowSplit(xs[..|xs| - 1], p, q);
    }
  }

  /** Doubling the lines in `xs` moves two lines not in `xs` apart by the
      number of doubled lines between them. */
  lemma ShiftDistance(xs: seq<nat>, p: nat, q: nat)
    requires Increasing(xs) && p !in xs && q !in xs
    ensures Abs(Shift(xs, p) - Shift(xs, q)) == Abs(p - q) + CountBetween(xs, p, q)
  {
    DupIsCountBelow(xs, p);
    DupIsCountBelow(xs, q);
    if p < q {
      CountBelowSplit(xs, p, q);
      CountBelowStep(xs, p);
      CountEqOfIncreasing(xs, p);
    } else if q < p {
      CountBelowSplit(xs, q, p);
      CountBelowStep(xs, q);
      CountEqOfIncreasing(xs, q);
      CountBetweenSymmetric(xs, p, q);
    } else {
      CountBetweenEmpty(xs, p);
    }
  }

  lemma {:induction false} CountBetweenSymmetric(xs: seq<nat>, p: int, q: int)
    ensures CountBetween(xs, p, q) == CountBetween(xs, q, p)
  {
    if xs != [] {
      CountBetweenSymmetric(xs[..|xs| - 1], p, q);
    }
  }

  lemma {:induction false} CountBetweenEmpty(xs: seq<nat>, p: int)
    ensures CountBetween(xs, p, p) == 0
  {
    if xs != [] {
      CountBetweenEmpty(xs[..|xs| - 1], p);
    }
  }

  /** Two galaxies of the image, once shifted into the expanded image, are
      as far apart as part 2 says with expansion 2. */
  lemma ShiftedDistance(rows: seq<nat>, cols: seq<nat>, a: Coord, b: Coord)
    requires Increasing(rows) && Increasing(cols)
    requires a.row !in rows && b.row !in rows && a.col !in cols && b.col !in cols
    ensures Manhattan(Coord(Shift(rows, a.row), Shift(cols, a.col)),
                      Coord(Shift(rows, b.row), Shift(cols, b.col)))
         == Part2Distance(rows, cols, 1, a, b)
  {
    ShiftDistance(rows, a.row, b.row);
    ShiftDistance(cols, a.col, b.col);
  }

  /** Sums over the pairs of two equally long lists agree when the
      distances of corresponding pairs agree. */
  lemma {:induction false} PairSumAgree(ps: seq<Coord>, d: (Coord, Coord) -> nat,
                                        qs: seq<Coord>, e: (Coord, Coord) -> nat)
    requires |ps| == |qs|
    requires forall i, j :: 0 <= i < j < |ps| ==> d(ps[i], ps[j]) == e(qs[i], qs[j])
    ensures PairSum(ps, d) == PairSum(qs, e)
  {
    if ps != [] {
      var n := |ps| - 1;
      PairSumAgree(ps[..n], d, qs[..n], e);
      assert seq(n, i requires 0 <= i < n => d(ps[i], ps[n]))
          == seq(n, i requires 0 <= i < n => e(qs[i], qs[n]));
    }
  }

  /** Summing the widened distances over positions that avoid the
      doubled lines is summing the plain distances over the shifted
      positions. */
  lemma WidenedIsShifted(ps: seq<Coord>, rows: seq<nat>, cols: seq<nat>)
    requires Increasing(rows) && Increasing(cols)
    requires forall k :: 0 <= k < |ps| ==> ps[k].row !in rows && ps[k].col !in cols
    ensures PairSum(ps, Widened(rows, cols, 1)) == PairSum(ShiftCoords(rows, cols, ps), Manhattan)
  {
    var qs := ShiftCoords(rows, cols, ps);
    var d := Widened(rows, cols, 1);
    var m: (Coord, Coord) -> nat := Manhattan;
    forall i, j | 0 <= i < j < |ps| ensures d(ps[i], ps[j]) == m(qs[i], qs[j]) {
      ShiftedDistance(rows, cols, ps[i], ps[j]);
      assert d(ps[i], ps[j]) == Part2Distance(rows, cols, 1, ps[i], ps[j]);
    }
    PairSumAgree(ps, d, qs, m);
  }

  /** With nothing added per crossed line, the widened distance is the
      Manhattan distance. */
  lemma WidenedByNothing(ps: seq<Coord>, rows: seq<nat>, cols: seq<nat>)
    ensures PairSum(ps, Widened(rows, cols, 0)) == PairSum(ps, Manhattan)
  {
    var d := Widened(rows, cols, 0);
    var m: (Coord, Coord) -> nat := Manhattan;
    forall i, j | 0 <= i < j < |ps| ensures d(ps[i], ps[j]) == m(ps[i], ps[j]) {
      assert d(ps[i], ps[j]) == Part2Distance(rows, cols, 0, ps[i], ps[j]);
    }
    PairSumAgree(ps, d, ps, m);
  }

  /** With expansion 2, part 2 computes what part 1 computes on the
      expanded image. */
  lemma Part2MatchesPart1(g: seq<seq<Point>>)
    requires Rectangular(g)
    ensures SolvePart1(g).Some? && SolvePart2(g, 2) == SolvePart1(g).value
  {
    var ps := Galaxies(g);
    forall k | 0 <= k < |ps| ensures ps[k].row !in FindEmptyRows(g) && ps[k].col !in FindEmptyCols(g) {
      GalaxiesAvoidEmptyLines(g, ps[k]);
    }
    Part1NeverPanics(g);
    GalaxiesOfExpand(g);
    WidenedIsShifted(ps, FindEmptyRows(g), FindEmptyCols(g));
  }

  /** With expansion 1 nothing is widened: part 2 is the plain sum of
      Manhattan distances over the image's galaxies. */
  lemma Part2WithoutExpansion(g: seq<seq<Point>>)
    requires Rectangular(g)
    ensures SolvePart2(g, 1) == PairSum(Galaxies(g), Manhattan)
  {
    WidenedByNothing(Galaxies(g), FindEmptyRows(g), FindEmptyCols(g));
  }

  /** The number of empty lines crossed, as the function summed over the
      pairs. */
  function CrossedBy(rows: seq<nat>, cols: seq<nat>): (d: (Coord, Coord) -> nat)
    ensures forall a, b :: d(a, b) == Crossed(rows, cols, a, b)
  {
    (a, b) => Crossed(rows, cols, a, b)
  }

  lemma LastPairsLinear(ps: seq<Coord>, rows: seq<nat>, cols: seq<nat>, extra: nat)
    requires ps != []
    ensures Sum(LastPairs(ps, Widened(rows, cols, extra)))
         == Sum(LastPairs(ps, Manhattan)) + extra * Sum(LastPairs(ps, CrossedBy(rows, cols)))
  {
    var n := |ps| - 1;
    var w, m, c := LastPairs(ps, Widened(rows, cols, extra)), LastPairs(ps, Manhattan),
                   LastPairs(ps, CrossedBy(rows, cols));
    var ec := seq(n, i requires 0 <= i < n => extra * c[i]);
    SumScale(c, extra);
    SumPointwise(m, ec);
    assert w == seq(n, i requires 0 <= i < n => m[i] + ec[i]);
  }

  /** One more position adds its pairs with the earlier positions. */
  lemma PairSumStep(ps: seq<Coord>, d: (Coord, Coord) -> nat)
    requires |ps| > 0
    ensures PairSum(ps, d) == PairSum(ps[..|ps| - 1], d) + Sum(LastPairs(ps, d))
  {
  }

  /** Two parts that are each linear in `k` add up to a linear whole. */
  lemma AddLinear(w: int, m: int, c: int, w0: int, m0: int, c0: int, w1: int, m1: int, c1: int, k: int)
    requires w0 == m0 + k * c0 && w1 == m1 + k * c1
    requires w == w0 + w1 && m == m0 + m1 && c == c0 + c1
    ensures w == m + k * c
  {
  }

  /** The widened pair sum is linear in the extra distance per crossed
      line. */
  lemma {:induction false} PairSumLinear(ps: seq<Coord>, rows: seq<nat>, cols: seq<nat>, extra: nat)
    ensures PairSum(ps, Widened(rows, cols, extra))
         == PairSum(ps, Manhattan) + extra * PairSum(ps, CrossedBy(rows, cols))
  {
    if |ps| > 0 {
      var n := |ps| - 1;
      var w, m, c := Widened(rows, cols, extra), Manhattan, CrossedBy(rows, cols);
      PairSumLinear(ps[..n], rows, cols, extra);
      LastPairsLinear(ps, rows, cols, extra);
      PairSumStep(ps, w);
      PairSumStep(ps, m);
      PairSumStep(ps, c);
      AddLinear(PairSum(ps, w), PairSum(ps, m), PairSum(ps, c),
                PairSum(ps[..n], w), PairSum(ps[..n], m), PairSum(ps[..n], c),
                Sum(LastPairs(ps, w)), Sum(LastPairs(ps, m)), Sum(LastPairs(ps, c)), extra);
    }
  }

  /** Part 2 grows linearly with the expansion: each unit adds the total
      number of empty lines crossed over all pairs. */
  lemma Part2Linear(g: seq<seq<Point>>, expansion: nat)
    requires Rectangular(g) && expansion >= 1
    ensures SolvePart2(g, expansion)
         == SolvePart2(g, 1) + (expansion - 1) * PairSum(Galaxies(g), CrossedBy(FindEmptyRows(g), FindEmptyCols(g)))
  {
    var ps, rows, cols := Galaxies(g), FindEmptyRows(g), FindEmptyCols(g);
    PairSumLinear(ps, rows, cols, expansion - 1);
    PairSumLinear(ps, rows, cols, 0);
  }

  /** The three part-2 test values agree with each other: from 374 at
      expansion 2 and 1030 at expansion 10 follows 8410 at expansion 100. */
  lemma Part2TestValuesAgree(g: seq<seq<Point>>)
    requires Rectangular(g) && SolvePart2(g, 2) == 374 && SolvePart2(g, 10) == 1030
    ensures SolvePart2(g, 100) == 8410
  {
    var x := PairSum(Galaxies(g), CrossedBy(FindEmptyRows(g), FindEmptyCols(g)));
    var base := SolvePart2(g, 1);
    Part2Linear(g, 2);
    Part2Linear(g, 10);
    Part2Linear(g, 100);
    assert base + x == 374 && base + 9 * x == 1030;
    assert x == 82 && base == 292;
  }
}
