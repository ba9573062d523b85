/** The board display of jumps-and-hits: `make_grid` and `fill_grid_square`
    (jumps_and_hits.py:25-62). A map of n entries is drawn as rows of
    k = ceil(sqrt(n)) cells, each `GridWidth` by `GridHeight` characters with
    `*` borders, laid out in snake order: even rows run left to right, odd
    rows right to left. The floating-point square root of the source is
    replaced by an exact integer ceiling square root. */
module Grid {
  import opened Text

  const GridWidth: nat := 8
  const GridHeight: nat := 3

  function CeilSqrtFrom(n: nat, k: nat): (r: nat)
    requires k == 0 || (k - 1) * (k - 1) < n
    ensures r * r >= n
    ensures r == 0 || (r - 1) * (r - 1) < n
    decreases n - k
  {
    if k * k >= n then k
    else
      assert k <= k * k;
      CeilSqrtFrom(n, k + 1)
  }

  /** The number of cells per row: the least k with k * k >= n. */
  function CeilSqrt(n: nat): (k: nat)
    ensures k * k >= n
    ensures k == 0 || (k - 1) * (k - 1) < n
  {
    CeilSqrtFrom(n, 0)
  }

  lemma CeilSqrtPositive(n: nat)
    ensures n >= 1 <==> CeilSqrt(n) >= 1
  {
  }

  /** The number of cell rows: k, or k - 1 when k * (k - 1) cells already hold
      the map. For an empty map this is -1 and the grid has no rows at all. */
  function TableHeight(n: nat): (h: int)
    ensures n == 0 ==> h == -1
    ensures n >= 1 ==> h >= 1 && h * CeilSqrt(n) >= n && (h - 1) * CeilSqrt(n) < n
  {
    var k := CeilSqrt(n);
    if k * (k - 1) >= n then
      assert n >= 1 ==> (k - 2) * k < (k - 1) * (k - 1);
      k - 1
    else k
  }

  predicate IsBorder(i: int, j: int) {
    i % GridHeight == 0 || j % GridWidth == 0
  }

  function RowCount(n: nat): nat {
    if n == 0 then 0 else GridHeight * TableHeight(n) + 1
  }

  function ColumnCount(n: nat): nat {
    GridWidth * CeilSqrt(n) + 1
  }

  /** The empty display grid: `GridHeight * h + 1` rows (none for an empty map)
      of `GridWidth * k + 1` characters, `*` on every border row and border
      column, blank elsewhere. */
  function MakeGrid(n: nat): (g: seq<seq<char>>)
    ensures |g| == RowCount(n)
    ensures forall i :: 0 <= i < |g| ==> |g[i]| == ColumnCount(n)
    ensures forall i, j :: 0 <= i < |g| && 0 <= j < |g[i]| ==>
      g[i][j] == if IsBorder(i, j) then '*' else ' '
  {
    var rows := GridHeight * TableHeight(n) + 1;
    var width := ColumnCount(n);
    seq(if rows > 0 then rows else 0, i =>
      if i % GridHeight != 0 then seq(width, j => if j % GridWidth != 0 then ' ' else '*')
      else seq(width, j => '*'))
  }

  /** Where an entry's cell sits: its cell row and the column of its left border. */
  datatype Cell = Cell(tableRow: nat, columnStart: nat)

  /** Snake order: entry i is in cell row i / k, at cell column i % k counted
      from the left on even rows and from the right on odd rows. */
  function CellOf(n: nat, index: nat): (c: Cell)
    requires n >= 1
    ensures c.tableRow == index / CeilSqrt(n)
    ensures c.columnStart % GridWidth == 0
    ensures c.columnStart + GridWidth <= GridWidth * CeilSqrt(n)
    ensures c.tableRow % 2 == 0 ==> c.columnStart == GridWidth * (index % CeilSqrt(n))
    ensures c.tableRow % 2 == 1 ==>
      c.columnStart == GridWidth * (CeilSqrt(n) - 1 - index % CeilSqrt(n))
  {
    var k := CeilSqrt(n);
    var row := index / k;
    var col := index % k;
    if row % 2 == 0 then Cell(row, GridWidth * col)
    else Cell(row, GridWidth * (k - col - 1))
  }

  lemma MulStep(x: int, y: int, k: nat)
    ensures x < y ==> x * k + k <= y * k
  {
    if x < y {
      var d := y - x - 1;
      assert (x + 1) * k == x * k + k;
      assert d * k >= 0;
      assert y * k == (x + 1) * k + d * k;
    }
  }

  lemma DivModUnique(a: nat, k: nat, q: nat, r: nat)
    requires k > 0 && a == q * k + r && r < k
    ensures a / k == q && a % k == r
  {
    var q', r' := a / k, a % k;
    MulStep(q', q, k);
    MulStep(q, q', k);
  }

  /** Moving to the next entry either advances the cell column or wraps to the
      next cell row. */
  lemma ModSucc(i: nat, k: nat)
    requires k > 0
    ensures i % k + 1 < k ==> (i + 1) / k == i / k && (i + 1) % k == i % k + 1
    ensures i % k + 1 == k ==> (i + 1) / k == i / k + 1 && (i + 1) % k == 0
  {
    var q, r := i / k, i % k;
    if r + 1 == k {
      DivModUnique(i + 1, k, q + 1, 0);
    } else {
      DivModUnique(i + 1, k, q, r + 1);
    }
  }

  /** Inside a row, the next entry's cell is the neighbour in the row's reading
      direction: one cell to the right on even rows, to the left on odd rows. */
  lemma SnakeWithinRow(n: nat, i: nat)
    requires n >= 1
    requires (i + 1) % CeilSqrt(n) != 0
    ensures CellOf(n, i + 1).tableRow == CellOf(n, i).tableRow
    ensures CellOf(n, i).tableRow % 2 == 0 ==>
      CellOf(n, i + 1).columnStart == CellOf(n, i).columnStart + GridWidth
    ensures CellOf(n, i).tableRow % 2 == 1 ==>
      CellOf(n, i + 1).columnStart + GridWidth == CellOf(n, i).columnStart
  {
    ModSucc(i, CeilSqrt(n));
  }

  /** Across a row boundary the next entry's cell is directly below: one row
      down, same column, which is what makes the layout a snake. */
  lemma SnakeRowBreak(n: nat, i: nat)
    requires n >= 1
    requires (i + 1) % CeilSqrt(n) == 0
    ensures CellOf(n, i + 1).tableRow == CellOf(n, i).tableRow + 1
    ensures CellOf(n, i + 1).columnStart == CellOf(n, i).columnStart
  {
    ModSucc(i, CeilSqrt(n));
  }

  /** Distinct entries get distinct cells. */
  lemma CellsDistinct(n: nat, i: nat, j: nat)
    requires n >= 1 && i != j
    ensures CellOf(n, i) != CellOf(n, j)
  {
    var k := CeilSqrt(n);
    if i / k == j / k {
      assert i == (i / k) * k + i % k;
      assert j == (j / k) * k + j % k;
    }
  }

  /** Whether writing `lines` with top-left corner (y, x) puts a character at (a, b). */
  predicate Covered(y: nat, x: nat, lines: seq<string>, a: int, b: int) {
    y <= a < y + |lines| && x <= b < x + |lines[a - y]|
  }

  /** The character at (a, b) after writing `lines` with top-left corner (y, x). */
  function Written(grid: seq<seq<char>>, y: nat, x: nat, lines: seq<string>, a: nat, b: nat): char
    requires a < |grid| && b < |grid[a]|
  {
    if Covered(y, x, lines, a, b) then lines[a - y][b - x] else grid[a][b]
  }

  /** Every non-empty line lands on an existing row and fits in it; Python
      raises `IndexError` otherwise. An empty line touches nothing. */
  predicate LinesFit(grid: seq<seq<char>>, y: nat, x: nat, lines: seq<string>) {
    forall r :: 0 <= r < |lines| && |lines[r]| > 0 ==>
      y + r < |grid| && x + |lines[r]| <= |grid[y + r]|
  }

  function WriteRow(row: seq<char>, x: nat, line: string): (r: seq<char>)
    requires x + |line| <= |row|
    ensures |r| == |row|
    ensures forall j :: 0 <= j < |row| ==>
      r[j] == if x <= j < x + |line| then line[j - x] else row[j]
  {
    row[..x] + line + row[x + |line|..]
  }

  /** Writes line r of `lines` at row y + r starting at column x, character by
      character; nothing else changes. */
  function WriteLines(grid: seq<seq<char>>, y: nat, x: nat, lines: seq<string>): (g: seq<seq<char>>)
    requires LinesFit(grid, y, x, lines)
    ensures |g| == |grid|
    ensures forall a :: 0 <= a < |grid| ==> |g[a]| == |grid[a]|
    ensures forall a, b :: 0 <= a < |grid| && 0 <= b < |grid[a]| ==>
      g[a][b] == Written(grid, y, x, lines, a, b)
    decreases |lines|
  {
    if |lines| == 0 then grid
    else
      var next := if |lines[0]| == 0 then grid else grid[y := WriteRow(grid[y], x, lines[0])];
      assert LinesFit(next, y + 1, x, lines[1..]) by {
        forall r | 0 <= r < |lines| - 1 && |lines[1..][r]| > 0
          ensures y + 1 + r < |next| && x + |lines[1..][r]| <= |next[y + 1 + r]|
        {
          assert lines[1..][r] == lines[r + 1];
        }
      }
      var g := WriteLines(next, y + 1, x, lines[1..]);
      assert forall a, b :: 0 <= a < |grid| && 0 <= b < |grid[a]| ==>
        g[a][b] == Written(grid, y, x, lines, a, b) by {
        forall a, b | 0 <= a < |grid| && 0 <= b < |grid[a]|
          ensures g[a][b] == Written(grid, y, x, lines, a, b)
        {
          assert g[a][b] == Written(next, y + 1, x, lines[1..], a, b);
          if y + 1 <= a < y + |lines| {
            assert lines[1..][a - (y + 1)] == lines[a - y];
          }
        }
      }
      g
  }

  /** The cell origin `fill_grid_square` writes at: one row below and one
      column right of the cell's top-left border corner. */
  function TextOrigin(n: nat, index: nat): (p: (nat, nat))
    requires n >= 1
    ensures p.0 == GridHeight * CellOf(n, index).tableRow + 1
    ensures p.1 == CellOf(n, index).columnStart + 1
  {
    var c := CellOf(n, index);
    (GridHeight * c.tableRow + 1, c.columnStart + 1)
  }

  /** `fill_grid_square`: line r of the message lands at row
      `GridHeight * row + 1 + r`, character j at column `columnStart + 1 + j`;
      every other character of the grid is unchanged. */
  function FillGridSquare(grid: seq<seq<char>>, n: nat, index: nat, message: string): (g: seq<seq<char>>)
    requires n >= 1
    requires LinesFit(grid, TextOrigin(n, index).0, TextOrigin(n, index).1, SplitLines(message))
    ensures |g| == |grid|
    ensures forall a :: 0 <= a < |grid| ==> |g[a]| == |grid[a]|
    ensures forall a, b :: 0 <= a < |grid| && 0 <= b < |grid[a]| ==>
      g[a][b] == Written(grid, TextOrigin(n, index).0, TextOrigin(n, index).1, SplitLines(message), a, b)
  {
    var origin := TextOrigin(n, index);
    WriteLines(grid, origin.0, origin.1, SplitLines(message))
  }

  lemma RowWithinHeight(n: nat, index: nat)
    requires 1 <= n && index < n
    ensures CellOf(n, index).tableRow < TableHeight(n)
  {
    var k := CeilSqrt(n);
    var h := TableHeight(n);
    var q := index / k;
    assert index == q * k + index % k;
    assert (h - 1) * k + k == h * k;
    MulStep(h - 1, q, k);
  }

  /** Strictly inside the cell of entry `index`: not on a border, in that cell's
      band of rows and band of columns. */
  predicate InCellInterior(n: nat, index: nat, a: int, b: int)
    requires n >= 1
  {
    && !IsBorder(a, b)
    && a / GridHeight == CellOf(n, index).tableRow
    && b / GridWidth == CellOf(n, index).columnStart / GridWidth
  }

  /** A label of at most two lines of at most seven characters, written for an
      entry of the map, fits the grid `make_grid` built: the height correction
      never drops a used row, every character lands strictly inside that
      entry's cell, and so every border of the grid is still `*`. */
  lemma LabelStaysInCell(n: nat, index: nat, message: string)
    requires 1 <= n && index < n
    requires |SplitLines(message)| <= 2
    requires forall r :: 0 <= r < |SplitLines(message)| ==> |SplitLines(message)[r]| <= GridWidth - 1
    ensures LinesFit(MakeGrid(n), TextOrigin(n, index).0, TextOrigin(n, index).1, SplitLines(message))
    ensures forall a, b :: Covered(TextOrigin(n, index).0, TextOrigin(n, index).1, SplitLines(message), a, b) ==>
      a < RowCount(n) && b < ColumnCount(n) && InCellInterior(n, index, a, b)
    ensures var g := FillGridSquare(MakeGrid(n), n, index, message);
      forall a, b :: 0 <= a < |g| && 0 <= b < |g[a]| && IsBorder(a, b) ==> g[a][b] == '*'
  {
    var lines := SplitLines(message);
    var c := CellOf(n, index);
    var y, x := TextOrigin(n, index).0, TextOrigin(n, index).1;
    var grid := MakeGrid(n);
    RowWithinHeight(n, index);
    MulStep(c.tableRow, TableHeight(n), GridHeight);
    forall a, b | Covered(y, x, lines, a, b)
      ensures a < RowCount(n) && b < ColumnCount(n) && InCellInterior(n, index, a, b)
    {
      var m := c.columnStart / GridWidth;
      assert c.columnStart == GridWidth * m;
      DivModUnique(a, GridHeight, c.tableRow, a - GridHeight * c.tableRow);
      DivModUnique(b, GridWidth, m, b - GridWidth * m);
    }
    assert LinesFit(grid, y, x, lines) by {
      forall r | 0 <= r < |lines| && |lines[r]| > 0
        ensures y + r < |grid| && x + |lines[r]| <= |grid[y + r]|
      {
        assert Covered(y, x, lines, y + r, x + |lines[r]| - 1);
      }
    }
    var g := FillGridSquare(grid, n, index, message);
    forall a, b | 0 <= a < |g| && 0 <= b < |g[a]| && IsBorder(a, b)
      ensures g[a][b] == '*'
    {
      assert !Covered(y, x, lines, a, b);
    }
  }
}
