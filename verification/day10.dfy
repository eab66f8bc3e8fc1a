/** Day 10: a grid of pipe tiles (src/bin/day10.rs). What exists of the
    solver: reading a tile from its character, the neighbours a tile
    connects to inside the grid, locating the start tile, and the check
    that opens `identify_pipe`. */
module Day10 {
  import opened Common

  datatype Pipe = Start | Vertical | Horizontal | NE | NW | SE | SW | Ground

  /** `IndexingCoordinate`: a row and a column, both unsigned. */
  datatype Coord = Coord(row: nat, col: nat)

  /** The characters a tile is written with, in the order of the enum. */
  const PipeChars: seq<char> := "S|-LJF7."

  /** `Pipe::from(char)`; `None` stands for the panic on any other
      character. */
  function FromChar(c: char): (r: Option<Pipe>)
    ensures r.Some? <==> c in PipeChars
  {
    match c
    case 'S' => Some(Start)
    case '|' => Some(Vertical)
    case '-' => Some(Horizontal)
    case 'L' => Some(NE)
    case 'J' => Some(NW)
    case 'F' => Some(SE)
    case '7' => Some(SW)
    case '.' => Some(Ground)
    case _ => None
  }

  /** The character each tile is drawn with in the puzzle input. */
  function ToChar(p: Pipe): (c: char)
    ensures c in PipeChars
  {
    match p
    case Start => 'S'
    case Vertical => '|'
    case Horizontal => '-'
    case NE => 'L'
    case NW => 'J'
    case SE => 'F'
    case SW => '7'
    case Ground => '.'
  }

  /** Every tile is read back from its own character. */
  lemma ReadDrawnTile(p: Pipe)
    ensures FromChar(ToChar(p)) == Some(p)
  {
  }

  /** A character that reads as a tile is that tile's character, so no
      two characters give the same tile. */
  lemma DrawReadTile(c: char)
    requires FromChar(c).Some?
    ensures ToChar(FromChar(c).value) == c
  {
  }

  /** The eight characters are exactly the eight tiles, in enum order. */
  lemma TileCharacters()
    ensures |PipeChars| == 8
    ensures FromChar(PipeChars[0]) == Some(Start) && FromChar(PipeChars[1]) == Some(Vertical)
    ensures FromChar(PipeChars[2]) == Some(Horizontal) && FromChar(PipeChars[3]) == Some(NE)
    ensures FromChar(PipeChars[4]) == Some(NW) && FromChar(PipeChars[5]) == Some(SE)
    ensures FromChar(PipeChars[6]) == Some(SW) && FromChar(PipeChars[7]) == Some(Ground)
  {
  }

  // ---------------------------------------------------------------------
  // Connections

  datatype Direction = North | South | East | West

  /** The independent reading of the tile shapes: which sides of its cell
      each tile opens to. `L` joins north and east, `J` north and west,
      `F` south and east, `7` south and west. */
  predicate Opens(p: Pipe, d: Direction)
  {
    match p
    case Vertical => d == North || d == South
    case Horizontal => d == West || d == East
    case NE => d == North || d == East
    case NW => d == North || d == West
    case SE => d == South || d == East
    case SW => d == South || d == West
    case _ => false
  }

  function Opposite(d: Direction): Direction
  {
    match d
    case North => South
    case South => North
    case East => West
    case West => East
  }

  /** The (possibly negative) position one step from `c` towards `d`;
      rows grow southwards and columns eastwards. */
  function Toward(c: Coord, d: Direction): (int, int)
  {
    match d
    case North => (c.row - 1, c.col)
    case South => (c.row + 1, c.col)
    case East => (c.row, c.col + 1)
    case West => (c.row, c.col - 1)
  }

  /** The positions `get_connected` lists before filtering, as signed
      pairs; `None` for the start tile, which panics. */
  function Candidates(p: Pipe, c: Coord): Option<seq<(int, int)>>
  {
    var (row, col) := (c.row as int, c.col as int);
    match p
    case Vertical => Some([(row - 1, col), (row + 1, col)])
    case Horizontal => Some([(row, col - 1), (row, col + 1)])
    case NE => Some([(row - 1, col), (row, col + 1)])
    case NW => Some([(row - 1, col), (row, col - 1)])
    case SE => Some([(row + 1, col), (row, col + 1)])
    case SW => Some([(row + 1, col), (row, col - 1)])
    case Ground => Some([])
    case Start => None
  }

  /** The `filter_map` that drops positions outside the grid, keeping the
      order of the rest. */
  function InGrid(ps: seq<(int, int)>, maxRow: nat, maxCol: nat): (cs: seq<Coord>)
    ensures |cs| <= |ps|
    ensures forall x :: x in cs <==> x.row < maxRow && x.col < maxCol && (x.row as int, x.col as int) in ps
  {
    if ps == [] then []
    else
      var (r, c) := ps[0];
      var rest := InGrid(ps[1..], maxRow, maxCol);
      assert forall q :: q in ps <==> q == ps[0] || q in ps[1..];
      if r < 0 || r >= maxRow || c < 0 || c >= maxCol then rest
      else [Coord(r, c)] + rest
  }

  /** `Pipe::get_connected`: the cells inside a `maxRow` by `maxCol` grid
      that the tile at `c` connects to. `None` is the panic on the start
      tile; ground connects to nothing, and a shaped tile to at most two
      cells, each one step away along a single axis. */
  function GetConnected(p: Pipe, c: Coord, maxRow: nat, maxCol: nat): (r: Option<seq<Coord>>)
    ensures r.None? <==> p == Start
    ensures p == Ground ==> r == Some([])
    ensures r.Some? ==> |r.value| <= 2
    ensures r.Some? ==> forall x :: x in r.value ==> x.row < maxRow && x.col < maxCol
    ensures r.Some? ==> forall x :: x in r.value ==>
      (x.row == c.row && (x.col == c.col + 1 || x.col + 1 == c.col)) ||
      (x.col == c.col && (x.row == c.row + 1 || x.row + 1 == c.row))
  {
    match Candidates(p, c)
    case None => None
    case Some(ps) => Some(InGrid(ps, maxRow, maxCol))
  }

  /** The candidates are exactly the steps towards the sides the tile
      opens to. */
  lemma CandidatesOpen(p: Pipe, c: Coord)
    requires p != Start
    ensures forall q :: q in Candidates(p, c).value <==> exists d :: Opens(p, d) && Toward(c, d) == q
  {
    forall q ensures q in Candidates(p, c).value <==> exists d :: Opens(p, d) && Toward(c, d) == q {
      if q in Candidates(p, c).value {
        var d :| d in [North, South, East, West] && Opens(p, d) && Toward(c, d) == q;
      }
    }
  }

  /** `get_connected` against the shape table: a cell is listed exactly
      when it is inside the grid and one step from `c` towards a side the
      tile opens to. */
  lemma GetConnectedSpec(p: Pipe, c: Coord, maxRow: nat, maxCol: nat, x: Coord)
    requires p != Start
    ensures x in GetConnected(p, c, maxRow, maxCol).value <==>
      x.row < maxRow && x.col < maxCol &&
      exists d :: Opens(p, d) && Toward(c, d) == (x.row as int, x.col as int)
  {
    CandidatesOpen(p, c);
  }

  /** The test `solve_part1` applies to each neighbour of the start: the
      tile `q` at `x`, one step from `c` towards `d`, lists `c` back
      exactly when it opens to the opposite side. */
  lemma ConnectsBack(q: Pipe, c: Coord, d: Direction, x: Coord, maxRow: nat, maxCol: nat)
    requires q != Start
    requires Toward(c, d) == (x.row as int, x.col as int)
    requires c.row < maxRow && c.col < maxCol
    ensures c in GetConnected(q, x, maxRow, maxCol).value <==> Opens(q, Opposite(d))
  {
    GetConnectedSpec(q, x, maxRow, maxCol, c);
    if c in GetConnected(q, x, maxRow, maxCol).value {
      var e :| Opens(q, e) && Toward(x, e) == (c.row as int, c.col as int);
      assert e == Opposite(d);
    } else {
      assert Toward(x, Opposite(d)) == (c.row as int, c.col as int);
    }
  }

  /** Away from the border, every shaped tile connects to exactly two
      different cells. */
  lemma InteriorConnectsTwo(p: Pipe, c: Coord, maxRow: nat, maxCol: nat)
    requires p != Start && p != Ground
    requires 0 < c.row && c.row + 1 < maxRow && 0 < c.col && c.col + 1 < maxCol
    ensures |GetConnected(p, c, maxRow, maxCol).value| == 2
    ensures GetConnected(p, c, maxRow, maxCol).value[0] != GetConnected(p, c, maxRow, maxCol).value[1]
  {
    var ps := Candidates(p, c).value;
    InGridInside(ps, maxRow, maxCol);
  }

  /** Positions all inside the grid are all kept, in order. */
  lemma {:induction false} InGridInside(ps: seq<(int, int)>, maxRow: nat, maxCol: nat)
    requires forall i :: 0 <= i < |ps| ==> 0 <= ps[i].0 < maxRow && 0 <= ps[i].1 < maxCol
    ensures |InGrid(ps, maxRow, maxCol)| == |ps|
    ensures forall i :: 0 <= i < |ps| ==>
      InGrid(ps, maxRow, maxCol)[i] == Coord(ps[i].0 as nat, ps[i].1 as nat)
  {
    if ps != [] {
      InGridInside(ps[1..], maxRow, maxCol);
    }
  }

  // ---------------------------------------------------------------------
  // Locating the start

  /** `a` comes before `b` in row-major order. */
  predicate Before(a: Coord, b: Coord)
  {
    a.row < b.row || (a.row == b.row && a.col < b.col)
  }

  /** The inner `find_map`: the first start tile of `pipes` at or after
      column `from`. */
  function FindInRow(pipes: seq<Pipe>, from: nat): (r: Option<nat>)
    requires from <= |pipes|
    ensures r.None? <==> forall j :: from <= j < |pipes| ==> pipes[j] != Start
    ensures r.Some? ==> from <= r.value < |pipes| && pipes[r.value] == Start
    ensures r.Some? ==> forall j :: from <= j < r.value ==> pipes[j] != Start
    decreases |pipes| - from
  {
    if from == |pipes| then None
    else if pipes[from] == Start then Some(from)
    else FindInRow(pipes, from + 1)
  }

  /** The outer `find_map`, from row `from` on. */
  function FindStartFrom(grid: seq<seq<Pipe>>, from: nat): (r: Option<Coord>)
    requires from <= |grid|
    ensures r.None? <==> forall i, j :: from <= i < |grid| && 0 <= j < |grid[i]| ==> grid[i][j] != Start
    ensures r.Some? ==> from <= r.value.row < |grid| && r.value.col < |grid[r.value.row]|
    ensures r.Some? ==> grid[r.value.row][r.value.col] == Start
    ensures r.Some? ==> forall i, j :: from <= i < |grid| && 0 <= j < |grid[i]| && Before(Coord(i, j), r.value) ==>
      grid[i][j] != Start
    decreases |grid| - from
  {
    if from == |grid| then None
    else
      match FindInRow(grid[from], 0)
      case Some(col) => Some(Coord(from, col))
      case None => FindStartFrom(grid, from + 1)
  }

  /** `find_start`: the first start tile in row-major order; `None` is
      the panic of `unwrap()` on a map without one. */
  function FindStart(grid: seq<seq<Pipe>>): (r: Option<Coord>)
    ensures r.None? <==> forall i, j :: 0 <= i < |grid| && 0 <= j < |grid[i]| ==> grid[i][j] != Start
    ensures r.Some? ==> r.value.row < |grid| && r.value.col < |grid[r.value.row]|
    ensures r.Some? ==> grid[r.value.row][r.value.col] == Start
    ensures r.Some? ==> forall i, j :: 0 <= i < |grid| && 0 <= j < |grid[i]| && Before(Coord(i, j), r.value) ==>
      grid[i][j] != Start
  {
    FindStartFrom(grid, 0)
  }

  /** A map with a single start tile gives that tile, whatever else it
      holds. */
  lemma FindOnlyStart(grid: seq<seq<Pipe>>, s: Coord)
    requires s.row < |grid| && s.col < |grid[s.row]| && grid[s.row][s.col] == Start
    requires forall i, j :: 0 <= i < |grid| && 0 <= j < |grid[i]| && grid[i][j] == Start ==> Coord(i, j) == s
    ensures FindStart(grid) == Some(s)
  {
    var c := FindStart(grid).value;
    assert grid[c.row][c.col] == Start;
  }

  // ---------------------------------------------------------------------
  // identify_pipe

  datatype Failure = WrongArity | Forbidden | Unfinished

  /** What `identify_pipe` does: it could only return a tile, but every
      branch of the unfinished comparison ends in a panic. */
  datatype Identified = Identified(pipe: Pipe) | Panics(reason: Failure)

  /** `identify_pipe`: it panics unless it is given exactly two
      connecting cells; with two, it panics as forbidden when the first
      is the start itself and reaches an unfinished `todo!()` otherwise. */
  function IdentifyPipe(start: Coord, connecting: seq<Coord>): (r: Identified)
    ensures r.Panics?
    ensures r.reason == WrongArity <==> |connecting| != 2
    ensures r.reason == Forbidden <==> |connecting| == 2 && connecting[0] == start
  {
    if |connecting| != 2 then Panics(WrongArity)
    else
      var a := connecting[0];
      if start.row < a.row then Panics(Unfinished)
      else if start.row > a.row then Panics(Unfinished)
      else if start.col < a.col then Panics(Unfinished)
      else if start.col > a.col then Panics(Unfinished)
      else Panics(Forbidden)
  }

  // ---------------------------------------------------------------------
  // The puzzle's small square loop
  //
  //   .....
  //   .S-7.
  //   .|.|.
  //   .L-J.
  //   .....

  /** The start sits in the second row and second column. */
  lemma ExampleStart(grid: seq<seq<Pipe>>)
    requires grid == [
      [Ground, Ground, Ground, Ground, Ground],
      [Ground, Start, Horizontal, SW, Ground],
      [Ground, Vertical, Ground, Vertical, Ground],
      [Ground, NE, Horizontal, NW, Ground],
      [Ground, Ground, Ground, Ground, Ground]]
    ensures FindStart(grid) == Some(Coord(1, 1))
  {
    FindOnlyStart(grid, Coord(1, 1));
  }

  /** The start's east and south neighbours are the two tiles that point
      back at it; its west and north neighbours are ground. */
  lemma ExampleStartNeighbours()
    ensures Coord(1, 1) in GetConnected(Horizontal, Coord(1, 2), 5, 5).value
    ensures Coord(1, 1) in GetConnected(Vertical, Coord(2, 1), 5, 5).value
    ensures GetConnected(Ground, Coord(1, 0), 5, 5) == Some([])
    ensures IdentifyPipe(Coord(1, 1), [Coord(1, 2), Coord(2, 1)]) == Panics(Unfinished)
  {
    ConnectsBack(Horizontal, Coord(1, 1), East, Coord(1, 2), 5, 5);
    ConnectsBack(Vertical, Coord(1, 1), South, Coord(2, 1), 5, 5);
  }

  /** In a corner, a tile pointing out of the grid keeps only its inner
      neighbour. */
  lemma ExampleCorner()
    ensures GetConnected(NE, Coord(0, 0), 5, 5) == Some([Coord(0, 1)])
  {
    assert Candidates(NE, Coord(0, 0)) == Some([(-1, 0), (0, 1)]);
    assert [(-1, 0), (0, 1)][1..] == [(0, 1)];
    assert [(0, 1)][1..] == [];
    assert InGrid([(0, 1)], 5, 5) == [Coord(0, 1)] + InGrid([], 5, 5);
    assert InGrid([(-1, 0), (0, 1)], 5, 5) == InGrid([(0, 1)], 5, 5);
    assert InGrid([], 5, 5) == [];
    assert [Coord(0, 1)] + [] == [Coord(0, 1)];
    assert GetConnected(NE, Coord(0, 0), 5, 5) == Some(InGrid([(-1, 0), (0, 1)], 5, 5));
  }
}
