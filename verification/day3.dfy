/** Day 3: gear ratios (src/bin/day3.rs). A line of the engine schematic
    becomes one cell per character: a number `x` becomes `PartHead(x)`
    followed by `PartTail(i)` cells that point back to it, a '.' becomes
    `Empty` and any other character a `Symbol`. Part 1 sums the parts next
    to a symbol, each once; part 2 sums the products of the two parts next
    to each '*' that touches exactly two. */
module Day3 {
  import opened Common

  datatype Element = PartHead(value: nat) | PartTail(offset: nat) | Empty | Symbol(symbol: char)

  // ---------------------------------------------------------------------
  // Parsing

  predicate IsDigit(c: char)
  {
    '0' <= c <= '9'
  }

  function DigitValue(c: char): nat
  {
    if IsDigit(c) then c as int - '0' as int else 0
  }

  /** The length of the run of digits `digit1` takes from the front. */
  function DigitRun(s: string): (n: nat)
    ensures n <= |s|
    ensures forall i :: 0 <= i < n ==> IsDigit(s[i])
    ensures n < |s| ==> !IsDigit(s[n])
  {
    if s == [] || !IsDigit(s[0]) then 0
    else
      var n := DigitRun(s[1..]);
      assert forall i :: 1 <= i <= n ==> s[i] == s[1..][i - 1];
      1 + n
  }

  /** The number a run of digits denotes (`parse::<u32>` without its
      width). */
  function DigitsValue(ds: string): nat
  {
    if ds == [] then 0 else DigitsValue(ds[..|ds| - 1]) * 10 + DigitValue(ds[|ds| - 1])
  }

  /** `x.to_string().len()`: the number of decimal digits of `x`. */
  function DecimalLength(x: nat): (k: nat)
    ensures k >= 1
  {
    if x < 10 then 1 else 1 + DecimalLength(x / 10)
  }

  /** The cells `parse_part` produces for the number `x`: the head, then
      one tail per further digit, each holding its distance to the head. */
  function PartCells(x: nat): (cells: seq<Element>)
    ensures |cells| == DecimalLength(x)
  {
    seq(DecimalLength(x), i requires 0 <= i < DecimalLength(x) =>
      if i == 0 then PartHead(x) else PartTail(i))
  }

  /** What a parser returns: the cells read and the input left. */
  datatype Parsed = Parsed(cells: seq<Element>, rest: string)

  /** `parse_part`: a number read by `parse_number`. */
  function ParsePart(s: string): (r: Option<Parsed>)
    ensures r.Some? <==> s != [] && IsDigit(s[0])
    ensures r.Some? ==> r.value.rest == s[DigitRun(s)..]
  {
    var n := DigitRun(s);
    if n == 0 then None
    else Some(Parsed(PartCells(DigitsValue(s[..n])), s[n..]))
  }

  /** `parse_empty`: one '.'. */
  function ParseEmpty(s: string): (r: Option<Parsed>)
    ensures r.Some? <==> s != [] && s[0] == '.'
  {
    if s != [] && s[0] == '.' then Some(Parsed([Empty], s[1..])) else None
  }

  /** `parse_symbol`: any one character that is neither a digit nor '.'. */
  function ParseSymbol(s: string): (r: Option<Parsed>)
    ensures r.Some? <==> s != [] && !IsDigit(s[0]) && s[0] != '.'
  {
    if s != [] && !IsDigit(s[0]) && s[0] != '.' then Some(Parsed([Symbol(s[0])], s[1..])) else None
  }

  /** `parse_element`: the first of the three parsers that succeeds. It
      fails only at the end of the input, and otherwise consumes at least
      one character. */
  function ParseElement(s: string): (r: Option<Parsed>)
    ensures r.None? <==> s == []
    ensures r.Some? ==> |r.value.rest| < |s| && r.value.rest == s[|s| - |r.value.rest|..]
  {
    var part := ParsePart(s);
    if part.Some? then part
    else
      var empty := ParseEmpty(s);
      if empty.Some? then empty else ParseSymbol(s)
  }

  /** The `many1(parse_element)` loop of `parse_line`, flattened: it runs
      until the input is used up, where `parse_element` fails. */
  function ParseElements(s: string): seq<Element>
    decreases |s|
  {
    match ParseElement(s)
    case None => []
    case Some(p) => p.cells + ParseElements(p.rest)
  }

  /** `parse_line`: `many1` fails on an empty line. */
  function ParseLine(s: string): (r: Option<seq<Element>>)
    ensures r.None? <==> s == []
  {
    if s == [] then None else Some(ParseElements(s))
  }

  // ---------------------------------------------------------------------
  // Properties of the parsers

  /** `parse_element` reads a number when the line starts with a digit,
      an `Empty` cell for '.', and a `Symbol` for anything else. */
  lemma ParseElementByFirstChar(s: string)
    requires s != []
    ensures IsDigit(s[0]) ==>
              ParseElement(s) == Some(Parsed(PartCells(DigitsValue(s[..DigitRun(s)])), s[DigitRun(s)..]))
    ensures s[0] == '.' ==> ParseElement(s) == Some(Parsed([Empty], s[1..]))
    ensures !IsDigit(s[0]) && s[0] != '.' ==> ParseElement(s) == Some(Parsed([Symbol(s[0])], s[1..]))
  {
  }

  /** The cells of a number are its head, then tails numbered 1, 2, ...
      that each point back to the head. */
  lemma PartCellsShape(x: nat)
    ensures PartCells(x)[0] == PartHead(x)
    ensures forall i :: 1 <= i < |PartCells(x)| ==> PartCells(x)[i] == PartTail(i)
    ensures forall i :: 0 <= i < |PartCells(x)| ==> PartCells(x)[i].PartHead? || PartCells(x)[i].PartTail?
  {
  }

  /** Every tail points back, within its row, to a head. */
  predicate TailsResolve(row: seq<Element>)
  {
    forall c :: 0 <= c < |row| && row[c].PartTail? ==>
      row[c].offset <= c && row[c - row[c].offset].PartHead?
  }

  lemma TailsResolveAppend(a: seq<Element>, b: seq<Element>)
    requires TailsResolve(a) && TailsResolve(b)
    ensures TailsResolve(a + b)
  {
    var ab := a + b;
    forall c | 0 <= c < |ab| && ab[c].PartTail?
      ensures ab[c].offset <= c && ab[c - ab[c].offset].PartHead?
    {
      if c >= |a| {
        assert ab[c] == b[c - |a|];
        assert ab[c - ab[c].offset] == b[c - |a| - b[c - |a|].offset];
      }
    }
  }

  /** Every line `parse_line` accepts yields cells whose tails resolve, so
      the head lookup of `get_adjacent_parts` never panics on them. */
  lemma {:induction false} ParseElementsTailsResolve(s: string)
    ensures TailsResolve(ParseElements(s))
    decreases |s|
  {
    var e := ParseElement(s);
    if e.Some? {
      var p := e.value;
      ParseElementsTailsResolve(p.rest);
      if ParsePart(s).Some? {
        var cells := p.cells;
        assert forall c :: 1 <= c < |cells| ==> cells[c] == PartTail(c) && cells[0].PartHead?;
      }
      TailsResolveAppend(p.cells, ParseElements(p.rest));
    }
  }

  function Pow10(k: nat): (p: nat)
    ensures p >= 1
  {
    if k == 0 then 1 else 10 * Pow10(k - 1)
  }

  /** A number between `10^(k-1)` and `10^k` has `k` digits. */
  lemma {:induction false} DecimalLengthBetween(x: nat, k: nat)
    requires k >= 1 && Pow10(k - 1) <= x < Pow10(k)
    ensures DecimalLength(x) == k
  {
    if k > 1 {
      assert Pow10(k - 1) == 10 * Pow10(k - 2);
      assert x >= 10;
      assert Pow10(k - 2) <= x / 10 < Pow10(k - 1);
      DecimalLengthBetween(x / 10, k - 1);
    }
  }

  /** A run of `k` digits not starting with '0' denotes a number between
      `10^(k-1)` and `10^k`. */
  lemma {:induction false} DigitsValueBetween(ds: string)
    requires |ds| >= 1 && ds[0] != '0'
    requires forall i :: 0 <= i < |ds| ==> IsDigit(ds[i])
    ensures Pow10(|ds| - 1) <= DigitsValue(ds) < Pow10(|ds|)
  {
    var k := |ds|;
    if k > 1 {
      var front := ds[..k - 1];
      assert front[0] == ds[0];
      DigitsValueBetween(front);
      assert Pow10(k - 1) == 10 * Pow10(k - 2);
      assert DigitsValue(ds) == DigitsValue(front) * 10 + DigitValue(ds[k - 1]);
    }
  }

  /** Every digit that starts a number (none before it) and is '0' is the
      whole number: a line without leading zeros. */
  predicate NoLeadingZeros(s: string)
  {
    forall i :: 0 <= i < |s| - 1 && s[i] == '0' && IsDigit(s[i + 1]) ==> i > 0 && IsDigit(s[i - 1])
  }

  /** Without leading zeros a number yields one cell per digit. */
  lemma PartCellsPerDigit(s: string)
    requires s != [] && IsDigit(s[0]) && NoLeadingZeros(s)
    ensures |ParsePart(s).value.cells| == DigitRun(s)
  {
    var n := DigitRun(s);
    var ds := s[..n];
    if s[0] == '0' {
      if |s| > 1 {
        assert !IsDigit(s[1]);
      }
      assert n == 1;
      assert ds == [s[0]] && ds[..0] == [];
      assert DigitsValue(ds) == 0;
    } else {
      DigitsValueBetween(ds);
      DecimalLengthBetween(DigitsValue(ds), n);
    }
  }

  /** Without leading zeros a line yields one cell per character, so its
      cells line up with its columns; in general it yields at most one per
      character. */
  lemma {:induction false} ParseElementsLength(s: string)
    ensures |ParseElements(s)| <= |s|
    ensures NoLeadingZeros(s) ==> |ParseElements(s)| == |s|
    decreases |s|
  {
    if s != [] {
      var p := ParseElement(s).value;
      ParseElementsLength(p.rest);
      var k := |s| - |p.rest|;
      assert p.rest == s[k..];
      if IsDigit(s[0]) {
        DecimalLengthAtMostRun(s);
        if NoLeadingZeros(s) {
          PartCellsPerDigit(s);
          NoLeadingZerosAfter(s, k);
        }
      } else {
        if NoLeadingZeros(s) {
          NoLeadingZerosAfter(s, 1);
        }
      }
    }
  }

  /** The rest after a number or after one non-digit keeps having no
      leading zeros. */
  lemma NoLeadingZerosAfter(s: string, k: nat)
    requires 1 <= k <= |s| && NoLeadingZeros(s)
    requires !IsDigit(s[k - 1]) || (k < |s| ==> !IsDigit(s[k]))
    ensures NoLeadingZeros(s[k..])
  {
    var r := s[k..];
    forall i | 0 <= i < |r| - 1 && r[i] == '0' && IsDigit(r[i + 1])
      ensures i > 0 && IsDigit(r[i - 1])
    {
      assert s[k + i] == '0' && IsDigit(s[k + i + 1]);
    }
  }

  /** A number never yields more cells than it has digits. */
  lemma DecimalLengthAtMostRun(s: string)
    requires s != [] && IsDigit(s[0])
    ensures |ParsePart(s).value.cells| <= DigitRun(s)
  {
    DecimalLengthAtMost(s[..DigitRun(s)]);
  }

  lemma {:induction false} DecimalLengthAtMost(ds: string)
    requires |ds| >= 1
    ensures DecimalLength(DigitsValue(ds)) <= |ds|
  {
    var k := |ds|;
    DigitsValueBelow(ds);
    DecimalLengthBelow(DigitsValue(ds), k);
  }

  lemma {:induction false} DigitsValueBelow(ds: string)
    ensures DigitsValue(ds) < Pow10(|ds|)
  {
    if ds != [] {
      var k := |ds|;
      DigitsValueBelow(ds[..k - 1]);
      assert DigitsValue(ds) == DigitsValue(ds[..k - 1]) * 10 + DigitValue(ds[k - 1]);
    }
  }

  lemma {:induction false} DecimalLengthBelow(x: nat, k: nat)
    requires k >= 1 && x < Pow10(k)
    ensures DecimalLength(x) <= k
  {
    if x >= 10 {
      assert k > 1;
      assert Pow10(k) == 10 * Pow10(k - 1);
      DecimalLengthBelow(x / 10, k - 1);
    }
  }

  // ---------------------------------------------------------------------
  // The schematic as a grid

  /** A position in the schematic (`IndexingCoordinate`). */
  datatype Coord = Coord(row: nat, col: nat)

  /** The cell at `p`; `None` stands for the panic of indexing out of
      range. */
  function Cell(g: seq<seq<Element>>, p: Coord): Option<Element>
  {
    if p.row < |g| && p.col < |g[p.row]| then Some(g[p.row][p.col]) else None
  }

  predicate IsHeadAt(g: seq<seq<Element>>, p: Coord)
  {
    Cell(g, p).Some? && Cell(g, p).value.PartHead?
  }

  /** The eight neighbouring positions, `a != b` and at most one step
      apart in each direction. */
  predicate Adjacent(a: Coord, b: Coord)
  {
    a != b && -1 <= a.row - b.row <= 1 && -1 <= a.col - b.col <= 1
  }

  /** The position one step `(dr, dc)` away from `c`, when it is in
      bounds. */
  function Step(c: Coord, dr: int, dc: int, maxRow: nat, maxCol: nat): (ns: seq<Coord>)
    ensures forall n :: n in ns <==>
              n.row < maxRow && n.col < maxCol && n.row - c.row == dr && n.col - c.col == dc
  {
    var r, k := c.row + dr, c.col + dc;
    if 0 <= r < maxRow && 0 <= k < maxCol then [Coord(r, k)] else []
  }

  /** `get_adjacent_points_diagonal`, which is not part of this model,
      specified: the in-bounds neighbours of `c`, row by row and left to
      right. */
  function Neighbours(c: Coord, maxRow: nat, maxCol: nat): (ns: seq<Coord>)
    ensures forall n :: n in ns <==> Adjacent(n, c) && n.row < maxRow && n.col < maxCol
  {
    Step(c, -1, -1, maxRow, maxCol) + Step(c, -1, 0, maxRow, maxCol) + Step(c, -1, 1, maxRow, maxCol)
    + Step(c, 0, -1, maxRow, maxCol) + Step(c, 0, 1, maxRow, maxCol)
    + Step(c, 1, -1, maxRow, maxCol) + Step(c, 1, 0, maxRow, maxCol) + Step(c, 1, 1, maxRow, maxCol)
  }

  /** What one neighbouring cell contributes. */
  datatype Lookup = Head(at: Coord) | NoPart | Panic

  /** The closure of `get_adjacent_parts`' `filter_map`: a head is itself;
      a tail at column `c` with offset `o` is the head at column `c - o`,
      and anything else there (or `o > c`, where the `usize` subtraction
      fails) panics; other cells contribute nothing. */
  function Resolve(g: seq<seq<Element>>, adj: Coord): (l: Lookup)
    ensures l.Head? ==> IsHeadAt(g, l.at) && l.at.row == adj.row && l.at.col <= adj.col
  {
    match Cell(g, adj)
    case None => Panic
    case Some(e) =>
      match e
      case PartHead(_) => Head(adj)
      case PartTail(offset) =>
        if offset > adj.col then Panic
        else
          var head := Coord(adj.row, adj.col - offset);
          if IsHeadAt(g, head) then Head(head) else Panic
      case _ => NoPart
  }

  /** The heads the neighbours resolve to, in order; `None` when one of
      them panics. */
  function CollectHeads(g: seq<seq<Element>>, adjs: seq<Coord>): Option<seq<Coord>>
  {
    if adjs == [] then Some([])
    else
      var n := |adjs| - 1;
      var front := CollectHeads(g, adjs[..n]);
      var l := Resolve(g, adjs[n]);
      if front.None? || l.Panic? then None
      else Some(front.value + (if l.Head? then [l.at] else []))
  }

  /** The heads are collected unless a neighbour panics, and they are the
      heads the neighbours resolve to. */
  lemma {:induction false} CollectHeadsSpec(g: seq<seq<Element>>, adjs: seq<Coord>)
    ensures CollectHeads(g, adjs).None? <==> exists i :: 0 <= i < |adjs| && Resolve(g, adjs[i]).Panic?
    ensures CollectHeads(g, adjs).Some? ==> forall h :: h in CollectHeads(g, adjs).value <==>
              exists i :: 0 <= i < |adjs| && Resolve(g, adjs[i]) == Head(h)
  {
    if adjs != [] {
      var n := |adjs| - 1;
      CollectHeadsSpec(g, adjs[..n]);
      assert forall i :: 0 <= i < n ==> adjs[..n][i] == adjs[i];
    }
  }

  predicate Distinct(s: seq<Coord>)
  {
    forall i, j :: 0 <= i < j < |s| ==> s[i] != s[j]
  }

  /** `unique()`: the first occurrence of every element, in order. */
  function Unique(s: seq<Coord>): (r: seq<Coord>)
    ensures Distinct(r)
    ensures forall x :: x in r <==> x in s
    ensures |r| <= |s|
  {
    if s == [] then []
    else
      var n := |s| - 1;
      var front := Unique(s[..n]);
      assert forall x :: x in s <==> x in s[..n] || x == s[n] by {
        assert s == s[..n] + [s[n]];
      }
      if s[n] in front then front else front + [s[n]]
  }

  /** `h` is the head of a part with a digit next to `c`. */
  ghost predicate PartNear(g: seq<seq<Element>>, c: Coord, maxRow: nat, maxCol: nat, h: Coord)
  {
    exists adj :: Adjacent(adj, c) && adj.row < maxRow && adj.col < maxCol && Resolve(g, adj) == Head(h)
  }

  /** Some neighbour of `c` panics when it is resolved. */
  ghost predicate PanicNear(g: seq<seq<Element>>, c: Coord, maxRow: nat, maxCol: nat)
  {
    exists adj :: Adjacent(adj, c) && adj.row < maxRow && adj.col < maxCol && Resolve(g, adj).Panic?
  }

  /** `get_adjacent_parts`: the distinct heads of the parts next to `c`;
      `None` when resolving a neighbour panics. */
  function GetAdjacentParts(c: Coord, g: seq<seq<Element>>, maxRow: nat, maxCol: nat): Option<seq<Coord>>
  {
    var heads := CollectHeads(g, Neighbours(c, maxRow, maxCol));
    if heads.None? then None else Some(Unique(heads.value))
  }

  /** `get_adjacent_parts` panics exactly when resolving one of the
      neighbours panics, and otherwise lists each part next to `c` once,
      by the position of its head. */
  lemma GetAdjacentPartsSpec(c: Coord, g: seq<seq<Element>>, maxRow: nat, maxCol: nat)
    ensures GetAdjacentParts(c, g, maxRow, maxCol).None? <==> PanicNear(g, c, maxRow, maxCol)
    ensures GetAdjacentParts(c, g, maxRow, maxCol).Some? ==>
              var ps := GetAdjacentParts(c, g, maxRow, maxCol).value;
              Distinct(ps)
              && (forall h :: h in ps ==> IsHeadAt(g, h))
              && (forall h :: h in ps <==> PartNear(g, c, maxRow, maxCol, h))
  {
    NeighbourPanics(c, g, maxRow, maxCol);
    if CollectHeads(g, Neighbours(c, maxRow, maxCol)).Some? {
      NeighbourHeads(c, g, maxRow, maxCol);
    }
  }

  /** Collecting the heads around `c` panics exactly when a neighbour
      panics. */
  lemma NeighbourPanics(c: Coord, g: seq<seq<Element>>, maxRow: nat, maxCol: nat)
    ensures CollectHeads(g, Neighbours(c, maxRow, maxCol)).None? <==> PanicNear(g, c, maxRow, maxCol)
  {
    var ns := Neighbours(c, maxRow, maxCol);
    CollectHeadsSpec(g, ns);
    if CollectHeads(g, ns).None? {
      var i :| 0 <= i < |ns| && Resolve(g, ns[i]).Panic?;
      assert ns[i] in ns;
    } else {
      forall adj | Adjacent(adj, c) && adj.row < maxRow && adj.col < maxCol
        ensures !Resolve(g, adj).Panic?
      {
        assert adj in ns;
        var i :| 0 <= i < |ns| && ns[i] == adj;
      }
    }
  }

  /** The heads collected around `c` are heads, and they are the parts
      next to `c`. */
  lemma NeighbourHeads(c: Coord, g: seq<seq<Element>>, maxRow: nat, maxCol: nat)
    requires CollectHeads(g, Neighbours(c, maxRow, maxCol)).Some?
    ensures var heads := CollectHeads(g, Neighbours(c, maxRow, maxCol)).value;
            (forall h :: h in heads ==> IsHeadAt(g, h))
            && (forall h :: h in heads <==> PartNear(g, c, maxRow, maxCol, h))
  {
    var ns := Neighbours(c, maxRow, maxCol);
    var heads := CollectHeads(g, ns).value;
    CollectHeadsSpec(g, ns);
    forall h ensures h in heads <==> PartNear(g, c, maxRow, maxCol, h) {
      if PartNear(g, c, maxRow, maxCol, h) {
        var adj :| Adjacent(adj, c) && adj.row < maxRow && adj.col < maxCol && Resolve(g, adj) == Head(h);
        assert adj in ns;
        var i :| 0 <= i < |ns| && ns[i] == adj;
      }
    }
    forall h | h in heads ensures IsHeadAt(g, h) {
      var i :| 0 <= i < |ns| && Resolve(g, ns[i]) == Head(h);
    }
  }

  /** A tail at column `c` with offset `o` resolves to the head at column
      `c - o`, and panics when there is none there; a head resolves to
      itself; a cell out of range panics. */
  lemma ResolveSpec(g: seq<seq<Element>>, adj: Coord)
    ensures Cell(g, adj).None? ==> Resolve(g, adj).Panic?
    ensures IsHeadAt(g, adj) ==> Resolve(g, adj) == Head(adj)
    ensures Cell(g, adj).Some? && Cell(g, adj).value.PartTail? ==>
              var o := Cell(g, adj).value.offset;
              if o <= adj.col && IsHeadAt(g, Coord(adj.row, adj.col - o))
              then Resolve(g, adj) == Head(Coord(adj.row, adj.col - o))
              else Resolve(g, adj).Panic?
    ensures Cell(g, adj).Some? && (Cell(g, adj).value.Empty? || Cell(g, adj).value.Symbol?) ==>
              Resolve(g, adj).NoPart?
  {
  }

  // ---------------------------------------------------------------------
  // The solvers

  /** The positions of the row `r` whose cells satisfy `p`, left to
      right. */
  function RowCellsWhere(r: nat, row: seq<Element>, p: Element -> bool): (cs: seq<Coord>)
    ensures forall x :: x in cs <==> x.row == r && x.col < |row| && p(row[x.col])
  {
    if row == [] then []
    else
      var n := |row| - 1;
      var front := RowCellsWhere(r, row[..n], p);
      assert forall k :: 0 <= k < n ==> row[..n][k] == row[k];
      front + (if p(row[n]) then [Coord(r, n)] else [])
  }

  /** The positions whose cells satisfy `p`, in row-major order: the
      `enumerate` over rows and then over columns. */
  function CellsWhere(g: seq<seq<Element>>, p: Element -> bool): (cs: seq<Coord>)
    ensures forall x :: x in cs <==> x.row < |g| && x.col < |g[x.row]| && p(g[x.row][x.col])
  {
    if g == [] then []
    else
      var n := |g| - 1;
      var front := CellsWhere(g[..n], p);
      assert forall k :: 0 <= k < n ==> g[..n][k] == g[k];
      front + RowCellsWhere(n, g[n], p)
  }

  predicate IsSymbol(e: Element)
  {
    e.Symbol?
  }

  predicate IsGear(e: Element)
  {
    e == Symbol('*')
  }

  /** `flatten()` over lists that may each have panicked: `None` when
      one of them did. */
  function Flatten(os: seq<Option<seq<Coord>>>): Option<seq<Coord>>
  {
    if os == [] then Some([])
    else
      var n := |os| - 1;
      var front := Flatten(os[..n]);
      if front.None? || os[n].None? then None
      else Some(front.value + os[n].value)
  }

  /** Flattening panics exactly when one of the lists did, and otherwise
      holds exactly the elements of the lists. */
  lemma {:induction false} FlattenSpec(os: seq<Option<seq<Coord>>>)
    ensures Flatten(os).None? <==> exists i :: 0 <= i < |os| && os[i].None?
    ensures Flatten(os).Some? ==>
              forall h :: h in Flatten(os).value <==> exists i :: 0 <= i < |os| && os[i].Some? && h in os[i].value
  {
    if os != [] {
      var n := |os| - 1;
      FlattenSpec(os[..n]);
      assert forall i :: 0 <= i < n ==> os[..n][i] == os[i];
    }
  }

  /** `get_adjacent_parts` at every position of `cs`. */
  function AdjacentEach(g: seq<seq<Element>>, cs: seq<Coord>, maxRow: nat, maxCol: nat): (os: seq<Option<seq<Coord>>>)
    ensures |os| == |cs|
    ensures forall i :: 0 <= i < |cs| ==> os[i] == GetAdjacentParts(cs[i], g, maxRow, maxCol)
  {
    seq(|cs|, i requires 0 <= i < |cs| => GetAdjacentParts(cs[i], g, maxRow, maxCol))
  }

  /** The value of the part whose head is at `h`, and 0 where there is
      no head. */
  function Value(g: seq<seq<Element>>, h: Coord): int
  {
    match Cell(g, h)
    case Some(PartHead(v)) => v
    case _ => 0
  }

  function Values(g: seq<seq<Element>>, ps: seq<Coord>): (vs: seq<int>)
    ensures |vs| == |ps|
    ensures forall i :: 0 <= i < |ps| ==> vs[i] == Value(g, ps[i])
  {
    seq(|ps|, i requires 0 <= i < |ps| => Value(g, ps[i]))
  }

  /** The final `map` of `solve_part1`: the value of the head at each
      position, or `None` for the panic at anything else. */
  function HeadValues(g: seq<seq<Element>>, ps: seq<Coord>): Option<seq<int>>
  {
    if ps == [] then Some([])
    else
      var n := |ps| - 1;
      var front := HeadValues(g, ps[..n]);
      match Cell(g, ps[n])
      case Some(PartHead(v)) => if front.None? then None else Some(front.value + [v])
      case _ => None
  }

  lemma {:induction false} HeadValuesSpec(g: seq<seq<Element>>, ps: seq<Coord>)
    ensures HeadValues(g, ps).None? <==> exists i :: 0 <= i < |ps| && !IsHeadAt(g, ps[i])
    ensures HeadValues(g, ps).Some? ==> HeadValues(g, ps).value == Values(g, ps)
  {
    if ps != [] {
      var n := |ps| - 1;
      HeadValuesSpec(g, ps[..n]);
      assert forall i :: 0 <= i < n ==> ps[..n][i] == ps[i];
    }
  }

  /** `input[0].len()`, with 0 standing in for the panic on an empty
      schematic. */
  function MaxCol(g: seq<seq<Element>>): nat
  {
    if g == [] then 0 else |g[0]|
  }

  /** `solve_part1`: `None` for an empty schematic (`input[0]`) and for a
      panic while looking parts up; otherwise the sum of the values of
      the distinct parts next to any symbol. */
  function SolvePart1(g: seq<seq<Element>>): Option<int>
  {
    if g == [] then None
    else
      var all := Flatten(AdjacentEach(g, CellsWhere(g, IsSymbol), |g|, MaxCol(g)));
      if all.None? then None
      else
        var vs := HeadValues(g, Unique(all.value));
        if vs.None? then None else Some(Sum(vs.value))
  }

  /** The cell at `s` holds a symbol. */
  predicate SymbolAt(g: seq<seq<Element>>, s: Coord)
  {
    s.row < |g| && s.col < |g[s.row]| && IsSymbol(g[s.row][s.col])
  }

  /** `h` is the head of a part next to some symbol. */
  ghost predicate NearSymbol(g: seq<seq<Element>>, h: Coord)
  {
    exists s :: SymbolAt(g, s) && PartNear(g, s, |g|, MaxCol(g), h)
  }

  /** Looking up the parts next to some symbol panics. */
  ghost predicate SymbolPanics(g: seq<seq<Element>>)
  {
    exists s :: SymbolAt(g, s) && PanicNear(g, s, |g|, MaxCol(g))
  }

  /** The parts next to the positions `cs`, flattened, panic exactly
      when a lookup next to one of them panics, and otherwise are the
      heads of the parts next to any of them. */
  lemma AdjacentEachSpec(g: seq<seq<Element>>, cs: seq<Coord>, maxRow: nat, maxCol: nat)
    ensures Flatten(AdjacentEach(g, cs, maxRow, maxCol)).None? <==>
              exists c :: c in cs && PanicNear(g, c, maxRow, maxCol)
    ensures Flatten(AdjacentEach(g, cs, maxRow, maxCol)).Some? ==>
              forall h :: h in Flatten(AdjacentEach(g, cs, maxRow, maxCol)).value <==>
                IsHeadAt(g, h) && exists c :: c in cs && PartNear(g, c, maxRow, maxCol, h)
  {
    var os := AdjacentEach(g, cs, maxRow, maxCol);
    FlattenSpec(os);
    if Flatten(os).None? {
      var i :| 0 <= i < |os| && os[i].None?;
      GetAdjacentPartsSpec(cs[i], g, maxRow, maxCol);
    } else {
      forall c | c in cs ensures !PanicNear(g, c, maxRow, maxCol) {
        var i :| 0 <= i < |cs| && cs[i] == c;
        GetAdjacentPartsSpec(c, g, maxRow, maxCol);
      }
      AdjacentEachHeads(g, cs, maxRow, maxCol);
    }
  }

  /** When no neighbourhood panics, the flattened lists hold exactly the
      heads of the parts next to some position of `cs`. */
  lemma AdjacentEachHeads(g: seq<seq<Element>>, cs: seq<Coord>, maxRow: nat, maxCol: nat)
    requires Flatten(AdjacentEach(g, cs, maxRow, maxCol)).Some?
    ensures forall h :: h in Flatten(AdjacentEach(g, cs, maxRow, maxCol)).value <==>
              IsHeadAt(g, h) && exists c :: c in cs && PartNear(g, c, maxRow, maxCol, h)
  {
    var os := AdjacentEach(g, cs, maxRow, maxCol);
    FlattenSpec(os);
    forall h ensures h in Flatten(os).value <==>
              IsHeadAt(g, h) && exists c :: c in cs && PartNear(g, c, maxRow, maxCol, h)
    {
      if h in Flatten(os).value {
        var i :| 0 <= i < |os| && os[i].Some? && h in os[i].value;
        GetAdjacentPartsSpec(cs[i], g, maxRow, maxCol);
      }
      if exists c :: c in cs && PartNear(g, c, maxRow, maxCol, h) {
        var c :| c in cs && PartNear(g, c, maxRow, maxCol, h);
        var i :| 0 <= i < |cs| && cs[i] == c;
        GetAdjacentPartsSpec(c, g, maxRow, maxCol);
        assert h in os[i].value;
      }
    }
  }


  /** The symbols of the schematic are the positions that part 1 looks
      around. */
  lemma SymbolsListed(g: seq<seq<Element>>)
    ensures forall s :: s in CellsWhere(g, IsSymbol) <==> SymbolAt(g, s)
  {
  }

  /** Part 1 panics exactly on an empty schematic or when a lookup next
      to a symbol panics, and otherwise sums the values of a list that
      holds every part next to a symbol exactly once. */
  lemma Part1Spec(g: seq<seq<Element>>)
    ensures SolvePart1(g).None? <==> g == [] || SymbolPanics(g)
    ensures SolvePart1(g).Some? ==>
              exists ps :: Distinct(ps) && (forall h :: h in ps <==> NearSymbol(g, h))
                && SolvePart1(g).value == Sum(Values(g, ps))
  {
    if g != [] {
      var all := Flatten(AdjacentEach(g, CellsWhere(g, IsSymbol), |g|, MaxCol(g)));
      AdjacentEachSpec(g, CellsWhere(g, IsSymbol), |g|, MaxCol(g));
      SymbolsListed(g);
      if all.Some? {
        var ps := Unique(all.value);
        forall j | 0 <= j < |ps| ensures IsHeadAt(g, ps[j]) {
          assert ps[j] in ps;
        }
        HeadValuesSpec(g, ps);
      }
    }
  }

  /** Removing one entry from a list of positions removes its value from
      the sum. */
  lemma SumValuesRemove(g: seq<seq<Element>>, qs: seq<Coord>, j: nat)
    requires j < |qs|
    ensures Sum(Values(g, qs)) == Sum(Values(g, qs[..j] + qs[j + 1..])) + Value(g, qs[j])
  {
    var vs := Values(g, qs);
    SumRemove(vs, j);
    assert Values(g, qs[..j] + qs[j + 1..]) == vs[..j] + vs[j + 1..];
  }

  /** A list holds something exactly when it is not empty. */
  lemma NothingListed(qs: seq<Coord>)
    ensures qs == [] <==> forall h :: h !in qs
  {
    if qs != [] {
      assert qs[0] in qs;
    }
  }

  /** Taking entry `j` out of a list without repeats leaves a list
      without repeats that holds everything else. */
  lemma RemoveDistinct(qs: seq<Coord>, j: nat)
    requires j < |qs| && Distinct(qs)
    ensures Distinct(qs[..j] + qs[j + 1..])
    ensures forall h :: h in qs[..j] + qs[j + 1..] <==> h in qs && h != qs[j]
  {
    var qs' := qs[..j] + qs[j + 1..];
    assert forall i :: 0 <= i < |qs'| ==> qs'[i] == qs[if i < j then i else i + 1];
    assert qs == qs[..j] + [qs[j]] + qs[j + 1..];
  }

  /** Two lists of the same positions, each without repeats, have the
      same sum of values: the order `unique()` leaves does not matter. */
  lemma {:induction false} SumValuesSameMembers(g: seq<seq<Element>>, ps: seq<Coord>, qs: seq<Coord>)
    requires Distinct(ps) && Distinct(qs)
    requires forall h :: h in ps <==> h in qs
    ensures Sum(Values(g, ps)) == Sum(Values(g, qs))
    decreases |ps|
  {
    if ps != [] {
      var n := |ps| - 1;
      assert ps[n] in qs;
      var j :| 0 <= j < |qs| && qs[j] == ps[n];
      RemoveDistinct(ps, n);
      RemoveDistinct(qs, j);
      var ps', qs' := ps[..n] + ps[n + 1..], qs[..j] + qs[j + 1..];
      forall h ensures h in ps' <==> h in qs' {
        assert h in ps' <==> h in ps && h != ps[n];
        assert h in qs' <==> h in qs && h != ps[n];
      }
      SumValuesSameMembers(g, ps', qs');
      SumValuesRemove(g, qs, j);
      SumValuesRemove(g, ps, n);
    } else {
      NothingListed(qs);
    }
  }

  /** Part 1's answer is the sum of the values of the parts next to a
      symbol, each counted once, in whatever order they are listed. */
  lemma Part1Value(g: seq<seq<Element>>, ps: seq<Coord>)
    requires SolvePart1(g).Some?
    requires Distinct(ps) && forall h :: h in ps <==> NearSymbol(g, h)
    ensures SolvePart1(g).value == Sum(Values(g, ps))
  {
    Part1Spec(g);
    var qs :| Distinct(qs) && (forall h :: h in qs <==> NearSymbol(g, h))
              && SolvePart1(g).value == Sum(Values(g, qs));
    SumValuesSameMembers(g, qs, ps);
  }

  // ---------------------------------------------------------------------
  // Part 2

  /** The contribution of the '*' at `c` to `solve_part2`; `None` when
      the lookup panics. */
  function GearRatio(c: Coord, g: seq<seq<Element>>, maxRow: nat, maxCol: nat): Option<int>
  {
    var parts := GetAdjacentParts(c, g, maxRow, maxCol);
    if parts.None? then None else RatioOf(g, parts.value)
  }

  /** What the parts `ps` around a '*' give: the product of the two
      values when there are exactly two, and nothing (0) otherwise;
      `None` when one of the two is not a head ("Invalid items found"). */
  function RatioOf(g: seq<seq<Element>>, ps: seq<Coord>): Option<int>
  {
    if |ps| == 2 then
      match (Cell(g, ps[0]), Cell(g, ps[1]))
      case (Some(PartHead(a)), Some(PartHead(b))) => Some(a as int * b)
      case _ => None
    else Some(0)
  }

  /** The entries of `ps` are exactly `h1 != h2`. */
  predicate PairOf(ps: seq<Coord>, h1: Coord, h2: Coord)
  {
    h1 != h2 && h1 in ps && h2 in ps && forall h :: h in ps ==> h == h1 || h == h2
  }

  /** A list without repeats whose entries are exactly `h1 != h2` is one
      of the two orders of the pair. */
  lemma TwoDistinct(ps: seq<Coord>, h1: Coord, h2: Coord)
    requires Distinct(ps) && PairOf(ps, h1, h2)
    ensures ps == [h1, h2] || ps == [h2, h1]
  {
    assert h1 in ps && h2 in ps;
    var i :| 0 <= i < |ps| && ps[i] == h1;
    var j :| 0 <= j < |ps| && ps[j] == h2;
    FirstThree(ps);
  }

  lemma FirstThree(ps: seq<Coord>)
    ensures |ps| > 2 ==> ps[0] in ps && ps[1] in ps && ps[2] in ps
  {
  }

  /** For heads without repeats: the product of the two values when they
      are a pair, and 0 when they are not. */
  lemma RatioOfSpec(g: seq<seq<Element>>, ps: seq<Coord>)
    requires Distinct(ps) && forall h :: h in ps ==> IsHeadAt(g, h)
    ensures forall h1, h2 :: PairOf(ps, h1, h2) ==> RatioOf(g, ps) == Some(Value(g, h1) * Value(g, h2))
    ensures (forall h1, h2 :: !PairOf(ps, h1, h2)) ==> RatioOf(g, ps) == Some(0)
  {
    if |ps| == 2 {
      assert ps[0] in ps && ps[1] in ps;
      assert PairOf(ps, ps[0], ps[1]);
      forall h1, h2 | PairOf(ps, h1, h2)
        ensures RatioOf(g, ps) == Some(Value(g, h1) * Value(g, h2))
      {
        TwoDistinct(ps, h1, h2);
      }
    } else {
      forall h1, h2 ensures !PairOf(ps, h1, h2) {
        if PairOf(ps, h1, h2) {
          TwoDistinct(ps, h1, h2);
        }
      }
    }
  }

  /** Exactly the two distinct parts with heads `h1` and `h2` touch `c`. */
  ghost predicate ExactlyTwo(g: seq<seq<Element>>, c: Coord, maxRow: nat, maxCol: nat, h1: Coord, h2: Coord)
  {
    h1 != h2 && forall h :: PartNear(g, c, maxRow, maxCol, h) <==> h == h1 || h == h2
  }

  /** The ratio panics exactly when the lookup around the gear panics;
      otherwise it is the product of the two values when exactly two
      parts touch the gear, and 0 when any other number of parts do. */
  lemma GearRatioSpec(c: Coord, g: seq<seq<Element>>, maxRow: nat, maxCol: nat)
    ensures GearRatio(c, g, maxRow, maxCol).None? <==> PanicNear(g, c, maxRow, maxCol)
    ensures forall h1, h2 :: !PanicNear(g, c, maxRow, maxCol) && ExactlyTwo(g, c, maxRow, maxCol, h1, h2) ==>
              GearRatio(c, g, maxRow, maxCol) == Some(Value(g, h1) * Value(g, h2))
    ensures !PanicNear(g, c, maxRow, maxCol) && (forall h1, h2 :: !ExactlyTwo(g, c, maxRow, maxCol, h1, h2)) ==>
              GearRatio(c, g, maxRow, maxCol) == Some(0)
  {
    GetAdjacentPartsSpec(c, g, maxRow, maxCol);
    var parts := GetAdjacentParts(c, g, maxRow, maxCol);
    if parts.Some? {
      RatioOfSpec(g, parts.value);
      PairsAreExactlyTwo(c, g, maxRow, maxCol);
    }
  }

  /** Two heads are the parts around `c` exactly when they are the two
      entries of the list `get_adjacent_parts` returns. */
  lemma PairsAreExactlyTwo(c: Coord, g: seq<seq<Element>>, maxRow: nat, maxCol: nat)
    requires GetAdjacentParts(c, g, maxRow, maxCol).Some?
    ensures forall h1, h2 :: ExactlyTwo(g, c, maxRow, maxCol, h1, h2) <==>
              PairOf(GetAdjacentParts(c, g, maxRow, maxCol).value, h1, h2)
  {
    GetAdjacentPartsSpec(c, g, maxRow, maxCol);
  }

  /** Adding up values that may each have panicked: `None` when one of
      them did. */
  function SumAll(os: seq<Option<int>>): Option<int>
  {
    if os == [] then Some(0)
    else
      var n := |os| - 1;
      var front := SumAll(os[..n]);
      if front.None? || os[n].None? then None
      else Some(front.value + os[n].value)
  }

  /** The values present, with 0 for a panic. */
  function Present(os: seq<Option<int>>): (vs: seq<int>)
    ensures |vs| == |os|
    ensures forall i :: 0 <= i < |os| ==> vs[i] == if os[i].Some? then os[i].value else 0
  {
    seq(|os|, i requires 0 <= i < |os| => if os[i].Some? then os[i].value else 0)
  }

  lemma {:induction false} SumAllSpec(os: seq<Option<int>>)
    ensures SumAll(os).None? <==> exists i :: 0 <= i < |os| && os[i].None?
    ensures SumAll(os).Some? ==> SumAll(os).value == Sum(Present(os))
  {
    if os != [] {
      var n := |os| - 1;
      SumAllSpec(os[..n]);
      assert forall i :: 0 <= i < n ==> os[..n][i] == os[i];
      assert Present(os)[..n] == Present(os[..n]);
    }
  }

  /** `GearRatio` at every position of `cs`. */
  function GearRatios(g: seq<seq<Element>>, cs: seq<Coord>, maxRow: nat, maxCol: nat): (os: seq<Option<int>>)
    ensures |os| == |cs|
    ensures forall i :: 0 <= i < |cs| ==> os[i] == GearRatio(cs[i], g, maxRow, maxCol)
  {
    seq(|cs|, i requires 0 <= i < |cs| => GearRatio(cs[i], g, maxRow, maxCol))
  }

  /** `solve_part2`: `None` for an empty schematic and for a panic; the
      sum of the ratios of the '*' cells otherwise. The source adds the
      ratios row by row and then the rows; one sum in row-major order is
      the same number. */
  function SolvePart2(g: seq<seq<Element>>): Option<int>
  {
    if g == [] then None
    else SumAll(GearRatios(g, CellsWhere(g, IsGear), |g|, MaxCol(g)))
  }

  /** The cell at `s` holds a '*'. */
  predicate GearAt(g: seq<seq<Element>>, s: Coord)
  {
    s.row < |g| && s.col < |g[s.row]| && IsGear(g[s.row][s.col])
  }

  /** Looking up the parts next to some '*' panics. */
  ghost predicate GearPanics(g: seq<seq<Element>>)
  {
    exists s :: GearAt(g, s) && PanicNear(g, s, |g|, MaxCol(g))
  }

  /** The ratios around the positions `cs`, added up, panic exactly
      when a lookup next to one of them panics. */
  lemma GearRatiosSpec(g: seq<seq<Element>>, cs: seq<Coord>, maxRow: nat, maxCol: nat)
    ensures SumAll(GearRatios(g, cs, maxRow, maxCol)).None? <==>
              exists c :: c in cs && PanicNear(g, c, maxRow, maxCol)
  {
    var os := GearRatios(g, cs, maxRow, maxCol);
    SumAllSpec(os);
    if SumAll(os).None? {
      var i :| 0 <= i < |os| && os[i].None?;
      GearRatioSpec(cs[i], g, maxRow, maxCol);
    } else {
      forall c | c in cs ensures !PanicNear(g, c, maxRow, maxCol) {
        var i :| 0 <= i < |cs| && cs[i] == c;
        GearRatioSpec(c, g, maxRow, maxCol);
      }
    }
  }

  /** Part 2 panics exactly on an empty schematic or when a lookup next
      to a '*' panics; otherwise it adds up the ratios of all the '*'
      cells, which `GearRatioSpec` describes, in row-major order. */
  lemma Part2Spec(g: seq<seq<Element>>)
    ensures SolvePart2(g).None? <==> g == [] || GearPanics(g)
    ensures SolvePart2(g).Some? ==>
              var gears := CellsWhere(g, IsGear);
              (forall s :: s in gears <==> GearAt(g, s))
              && SolvePart2(g).value == Sum(Present(GearRatios(g, gears, |g|, MaxCol(g))))
  {
    if g != [] {
      var gears := CellsWhere(g, IsGear);
      GearRatiosSpec(g, gears, |g|, MaxCol(g));
      SumAllSpec(GearRatios(g, gears, |g|, MaxCol(g)));
      assert forall s :: s in gears <==> GearAt(g, s);
    }
  }

  // ---------------------------------------------------------------------
  // When nothing panics

  /** A schematic of equal-length rows whose tails all point back to a
      head, as `parse_input` produces them from equal-length lines. */
  predicate WellFormed(g: seq<seq<Element>>)
  {
    g != [] && forall r :: 0 <= r < |g| ==> |g[r]| == |g[0]| && TailsResolve(g[r])
  }

  /** On a well-formed schematic no lookup panics. */
  lemma NoPanicNear(g: seq<seq<Element>>, c: Coord)
    requires WellFormed(g)
    ensures !PanicNear(g, c, |g|, MaxCol(g))
  {
    forall adj | Adjacent(adj, c) && adj.row < |g| && adj.col < MaxCol(g)
      ensures !Resolve(g, adj).Panic?
    {
      ResolveSpec(g, adj);
      var row := g[adj.row];
      if row[adj.col].PartTail? {
        assert row[adj.col - row[adj.col].offset].PartHead?;
      }
    }
  }

  /** Neither part panics on a well-formed schematic. */
  lemma WellFormedNeverPanics(g: seq<seq<Element>>)
    requires WellFormed(g)
    ensures SolvePart1(g).Some? && SolvePart2(g).Some?
  {
    Part1Spec(g);
    Part2Spec(g);
    forall s ensures !PanicNear(g, s, |g|, MaxCol(g)) {
      NoPanicNear(g, s);
    }
  }

  /** `parse_input` over the lines of the input: `None` when a line
      fails to parse. */
  function ParseInput(lines: seq<string>): (r: Option<seq<seq<Element>>>)
    ensures r.None? <==> exists i :: 0 <= i < |lines| && lines[i] == []
    ensures r.Some? ==> |r.value| == |lines|
    ensures r.Some? ==> forall i :: 0 <= i < |lines| ==> r.value[i] == ParseElements(lines[i])
  {
    if lines == [] then Some([])
    else
      var n := |lines| - 1;
      var front := ParseInput(lines[..n]);
      assert forall i :: 0 <= i < n ==> lines[..n][i] == lines[i];
      var last := ParseLine(lines[n]);
      if front.None? || last.None? then None else Some(front.value + [last.value])
  }

  /** Parsed lines that all give rows of the same length never make
      either part panic. */
  lemma ParsedInputNeverPanics(lines: seq<string>)
    requires lines != [] && ParseInput(lines).Some?
    requires forall i :: 0 <= i < |lines| ==> |ParseElements(lines[i])| == |ParseElements(lines[0])|
    ensures SolvePart1(ParseInput(lines).value).Some? && SolvePart2(ParseInput(lines).value).Some?
  {
    var g := ParseInput(lines).value;
    forall r | 0 <= r < |g| ensures TailsResolve(g[r]) {
      ParseElementsTailsResolve(lines[r]);
    }
    WellFormedNeverPanics(g);
  }

  // ---------------------------------------------------------------------
  // A one-line example

  lemma ExampleFirstNumber()
    ensures ParseElements("467*35") == [PartHead(467), PartTail(1), PartTail(2)] + ParseElements("*35")
  {
    var line := "467*35";
    assert DigitRun(line) == 3;
    assert line[..3] == "467" && line[3..] == "*35";
    assert "467"[..2] == "46" && "46"[..1] == "4" && "4"[..0] == [];
    assert DigitsValue("467") == 467;
    assert PartCells(467) == [PartHead(467), PartTail(1), PartTail(2)];
  }

  lemma ExampleRest()
    ensures ParseElements("*35") == [Symbol('*'), PartHead(35), PartTail(1)]
  {
    assert "*35"[1..] == "35";
    assert "35"[..2] == "35" && "35"[..1] == "3" && "3"[..0] == [] && "35"[2..] == [];
    assert DigitsValue("35") == 35;
    assert PartCells(35) == [PartHead(35), PartTail(1)];
    assert ParseElements("35") == PartCells(35) + ParseElements([]);
  }

  /** The line "467*35" reads as a three-digit part, a '*' and a
      two-digit part, one cell per character. */
  lemma ExampleLine(line: string)
    requires line == "467*35"
    ensures ParseElements(line)
         == [PartHead(467), PartTail(1), PartTail(2)] + [Symbol('*'), PartHead(35), PartTail(1)]
  {
    ExampleFirstNumber();
    ExampleRest();
  }

  /** A leading zero is dropped with the number's value, so "07" takes
      two characters but one cell. */
  lemma LeadingZeroShortens()
    ensures ParseElements("07") == [PartHead(7)]
  {
    assert DigitRun("07") == 2;
    assert DigitsValue("07") == 7;
  }

  /** Around the '*' of "467*35" lie exactly the two parts, 467 and 35. */
  lemma ExampleAdjacent(g: seq<seq<Element>>)
    requires g == [[PartHead(467), PartTail(1), PartTail(2), Symbol('*'), PartHead(35), PartTail(1)]]
    ensures GetAdjacentParts(Coord(0, 3), g, 1, 6) == Some([Coord(0, 0), Coord(0, 4)])
  {
    var c := Coord(0, 3);
    assert Step(c, -1, -1, 1, 6) == [] && Step(c, -1, 0, 1, 6) == [] && Step(c, -1, 1, 1, 6) == [];
    assert Step(c, 0, -1, 1, 6) == [Coord(0, 2)] && Step(c, 0, 1, 1, 6) == [Coord(0, 4)];
    assert Step(c, 1, -1, 1, 6) == [] && Step(c, 1, 0, 1, 6) == [] && Step(c, 1, 1, 1, 6) == [];
    assert Neighbours(c, 1, 6) == [Coord(0, 2), Coord(0, 4)];
    assert Resolve(g, Coord(0, 2)) == Head(Coord(0, 0));
    assert Resolve(g, Coord(0, 4)) == Head(Coord(0, 4));
    assert [Coord(0, 2)][..0] == [];
    var empty: seq<Coord> := [];
    assert CollectHeads(g, empty) == Some([]);
    assert CollectHeads(g, [Coord(0, 2)]) == Some(empty + [Coord(0, 0)]);
    assert empty + [Coord(0, 0)] == [Coord(0, 0)];
    var ns := [Coord(0, 2), Coord(0, 4)];
    assert ns[..1] == [Coord(0, 2)] && ns[1] == Coord(0, 4);
    assert CollectHeads(g, ns) == Some([Coord(0, 0)] + [Coord(0, 4)]);
    assert Unique([Coord(0, 0), Coord(0, 4)]) == [Coord(0, 0), Coord(0, 4)];
  }

  /** The cells of the row "467*35" that satisfy a test true of the
      '*' alone. */
  lemma ExampleRowCells(row: seq<Element>, p: Element -> bool)
    requires row == [PartHead(467), PartTail(1), PartTail(2), Symbol('*'), PartHead(35), PartTail(1)]
    requires !p(PartHead(467)) && !p(PartTail(1)) && !p(PartTail(2)) && p(Symbol('*')) && !p(PartHead(35))
    ensures RowCellsWhere(0, row, p) == [Coord(0, 3)]
  {
    var empty: seq<Coord> := [];
    assert row[..0] == [];
    assert RowCellsWhere(0, row[..1], p) == empty by { assert row[..1][..0] == row[..0]; }
    assert RowCellsWhere(0, row[..2], p) == empty by { assert row[..2][..1] == row[..1]; }
    assert RowCellsWhere(0, row[..3], p) == empty by { assert row[..3][..2] == row[..2]; }
    assert RowCellsWhere(0, row[..4], p) == [Coord(0, 3)] by { assert row[..4][..3] == row[..3]; }
    assert RowCellsWhere(0, row[..5], p) == [Coord(0, 3)] by { assert row[..5][..4] == row[..4]; }
  }

  lemma ExampleCells(g: seq<seq<Element>>, p: Element -> bool)
    requires g == [[PartHead(467), PartTail(1), PartTail(2), Symbol('*'), PartHead(35), PartTail(1)]]
    requires !p(PartHead(467)) && !p(PartTail(1)) && !p(PartTail(2)) && p(Symbol('*')) && !p(PartHead(35))
    ensures CellsWhere(g, p) == [Coord(0, 3)]
  {
    ExampleRowCells(g[0], p);
    assert g[..0] == [];
    var empty: seq<Coord> := [];
    assert empty + [Coord(0, 3)] == [Coord(0, 3)];
  }

  lemma ExampleValues(g: seq<seq<Element>>, ps: seq<Coord>)
    requires g == [[PartHead(467), PartTail(1), PartTail(2), Symbol('*'), PartHead(35), PartTail(1)]]
    requires ps == [Coord(0, 0), Coord(0, 4)]
    ensures HeadValues(g, ps) == Some([467, 35])
  {
    assert ps[..1] == [Coord(0, 0)] && ps[..1][..0] == [];
    var vs: seq<int> := [];
    assert Cell(g, Coord(0, 0)) == Some(PartHead(467)) && Cell(g, Coord(0, 4)) == Some(PartHead(35));
    assert HeadValues(g, ps[..1]) == Some(vs + [467]);
    assert vs + [467] == [467];
    assert [467] + [35] == [467, 35];
  }

  /** Flattening a single list that did not panic gives that list. */
  lemma FlattenOne(os: seq<Option<seq<Coord>>>)
    requires |os| == 1 && os[0].Some?
    ensures Flatten(os) == os[0]
  {
    assert os[..0] == [];
    var none: seq<Coord> := [];
    assert none + os[0].value == os[0].value;
  }

  /** Summing a single value that did not panic gives that value. */
  lemma SumAllOne(os: seq<Option<int>>)
    requires |os| == 1 && os[0].Some?
    ensures SumAll(os) == os[0]
  {
    assert os[..0] == [];
  }

  lemma ExampleFlatten(g: seq<seq<Element>>, ps: seq<Coord>)
    requires g == [[PartHead(467), PartTail(1), PartTail(2), Symbol('*'), PartHead(35), PartTail(1)]]
    requires ps == [Coord(0, 0), Coord(0, 4)]
    ensures Flatten(AdjacentEach(g, CellsWhere(g, IsSymbol), 1, 6)) == Some(ps)
  {
    ExampleCells(g, IsSymbol);
    var os := AdjacentEach(g, [Coord(0, 3)], 1, 6);
    ExampleAdjacent(g);
    FlattenOne(os);
  }

  lemma ExampleUnique(ps: seq<Coord>)
    requires ps == [Coord(0, 0), Coord(0, 4)]
    ensures Unique(ps) == ps
  {
    var none: seq<Coord> := [];
    assert ps[..1] == [Coord(0, 0)] && ps[..1][..0] == none;
    assert Unique(ps[..1]) == none + [Coord(0, 0)];
    assert none + [Coord(0, 0)] == [Coord(0, 0)];
    assert [Coord(0, 0)] + [Coord(0, 4)] == ps;
  }

  /** The row "467*35" on its own: part 1 adds 467 and 35. */
  lemma ExamplePart1(g: seq<seq<Element>>)
    requires g == [[PartHead(467), PartTail(1), PartTail(2), Symbol('*'), PartHead(35), PartTail(1)]]
    ensures SolvePart1(g) == Some(502)
  {
    var ps := [Coord(0, 0), Coord(0, 4)];
    assert Sum([467, 35]) == 502 by {
      assert [467, 35][..1] == [467] && [467][..0] == [];
    }
    assert |g| == 1 && MaxCol(g) == 6;
    ExampleUnique(ps);
    ExampleValues(g, ps);
    ExampleFlatten(g, ps);
  }

  /** The row "467*35" on its own: part 2 multiplies 467 by 35. */
  lemma ExamplePart2(g: seq<seq<Element>>)
    requires g == [[PartHead(467), PartTail(1), PartTail(2), Symbol('*'), PartHead(35), PartTail(1)]]
    ensures SolvePart2(g) == Some(16345)
  {
    ExampleCells(g, IsGear);
    var os := GearRatios(g, [Coord(0, 3)], 1, 6);
    ExampleGearRatio(g);
    SumAllOne(os);
  }

  /** The gear of that line: its two parts multiplied. */
  lemma ExampleGearRatio(g: seq<seq<Element>>)
    requires g == [[PartHead(467), PartTail(1), PartTail(2), Symbol('*'), PartHead(35), PartTail(1)]]
    ensures GearRatio(Coord(0, 3), g, 1, 6) == Some(16345)
  {
    ExampleAdjacent(g);
    assert Cell(g, Coord(0, 0)) == Some(PartHead(467)) && Cell(g, Coord(0, 4)) == Some(PartHead(35));
  }
}
