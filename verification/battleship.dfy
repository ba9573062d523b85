/** The board logic of two-player Battleship (battleship.py): blank boards, ship
    placement, shot validation, shot resolution and the win check. Boards are
    ten rows of ten one-character cells: `' '` empty, a ship's initial, `'X'`
    a hit, `'-'` a miss. */
module Battleship {
  import opened Options

  const BoardSize: int := 10
  const ShipNames: seq<string> := ["Carrier", "Battleship", "Cruiser", "Submarine", "Destroyer"]
  const ShipLengths: seq<nat> := [5, 4, 3, 3, 2]

  type Board = seq<seq<char>>

  predicate IsBoard(b: Board) {
    |b| == BoardSize && forall y :: 0 <= y < BoardSize ==> |b[y]| == BoardSize
  }

  predicate OnGrid(x: int, y: int) {
    0 <= x < BoardSize && 0 <= y < BoardSize
  }

  /** The number of non-blank cells of a row. */
  function CountRow(row: seq<char>): nat
    decreases |row|
  {
    if |row| == 0 then 0
    else CountRow(row[..|row| - 1]) + (if row[|row| - 1] != ' ' then 1 else 0)
  }

  /** The number of non-blank cells of a board. */
  function CountBoard(b: Board): nat
    decreases |b|
  {
    if |b| == 0 then 0 else CountBoard(b[..|b| - 1]) + CountRow(b[|b| - 1])
  }

  /** `create_board`: a ten-by-ten board of blanks, with no occupied cell. */
  function CreateBoard(): (b: Board)
    ensures IsBoard(b)
    ensures forall y, x :: OnGrid(x, y) ==> b[y][x] == ' '
    ensures CountBoard(b) == 0
  {
    var b := seq(BoardSize, _ => seq(BoardSize, _ => ' '));
    BlankCount(b);
    b
  }

  lemma {:induction false} BlankCount(b: Board)
    requires forall y, x :: 0 <= y < |b| && 0 <= x < |b[y]| ==> b[y][x] == ' '
    ensures CountBoard(b) == 0
    decreases |b|
  {
    if |b| > 0 {
      BlankCount(b[..|b| - 1]);
      BlankRowCount(b[|b| - 1]);
    }
  }

  lemma {:induction false} BlankRowCount(row: seq<char>)
    requires forall x :: 0 <= x < |row| ==> row[x] == ' '
    ensures CountRow(row) == 0
    decreases |row|
  {
    if |row| > 0 {
      BlankRowCount(row[..|row| - 1]);
    }
  }

  lemma {:induction false} CountRowUpdate(row: seq<char>, x: nat, c: char)
    requires x < |row|
    ensures CountRow(row[x := c]) + (if row[x] != ' ' then 1 else 0)
         == CountRow(row) + (if c != ' ' then 1 else 0)
    decreases |row|
  {
    var last := |row| - 1;
    if x < last {
      assert row[x := c][..last] == row[..last][x := c];
      CountRowUpdate(row[..last], x, c);
    } else {
      assert row[x := c][..last] == row[..last];
    }
  }

  lemma {:induction false} CountBoardUpdate(b: Board, y: nat, row: seq<char>)
    requires y < |b|
    ensures CountBoard(b[y := row]) + CountRow(b[y]) == CountBoard(b) + CountRow(row)
    decreases |b|
  {
    var last := |b| - 1;
    if y < last {
      assert b[y := row][..last] == b[..last][y := row];
      CountBoardUpdate(b[..last], y, row);
    } else {
      assert b[y := row][..last] == b[..last];
    }
  }

  /** Python's `board[i]` on a ten-element list for -10 <= i < 10: negative
      indices count back from the end. */
  function PyIndex(i: int): (j: int)
    requires -BoardSize <= i < BoardSize
    ensures 0 <= j < BoardSize && j == i % BoardSize
  {
    if i < 0 then i + BoardSize else i
  }

  /** The `positions` list `place_ships` builds: `length` cells to the right
      of the start for `r`, downwards for anything else. */
  function Positions(sx: int, sy: int, length: nat, direction: string): (p: seq<(int, int)>)
    ensures |p| == length
    ensures forall j :: 0 <= j < length ==>
      p[j] == if direction == "r" then (sx + j, sy) else (sx, sy + j)
  {
    seq(length, j => if direction == "r" then (sx + j, sy) else (sx, sy + j))
  }

  predicate AllOnGrid(cells: seq<(int, int)>) {
    forall j :: 0 <= j < |cells| ==> OnGrid(cells[j].0, cells[j].1)
  }

  predicate AllBlank(board: Board, cells: seq<(int, int)>)
    requires IsBoard(board) && AllOnGrid(cells)
  {
    forall j :: 0 <= j < |cells| ==> board[cells[j].1][cells[j].0] == ' '
  }

  predicate Distinct(cells: seq<(int, int)>) {
    forall i, j :: 0 <= i < j < |cells| ==> cells[i] != cells[j]
  }

  /** Writes `c` into every listed cell, one after another. */
  function WriteCells(board: Board, cells: seq<(int, int)>, c: char): (r: Board)
    requires IsBoard(board) && AllOnGrid(cells)
    ensures IsBoard(r)
    ensures forall y, x :: OnGrid(x, y) ==> r[y][x] == if (x, y) in cells then c else board[y][x]
    decreases |cells|
  {
    if |cells| == 0 then board
    else
      var (x, y) := cells[0];
      var r := WriteCells(board[y := board[y][x := c]], cells[1..], c);
      assert forall p :: p in cells <==> p == cells[0] || p in cells[1..];
      r
  }

  /** Writing a non-blank character into distinct blank cells occupies exactly
      that many more cells. */
  lemma {:induction false} WriteCellsCount(board: Board, cells: seq<(int, int)>, c: char)
    requires IsBoard(board) && AllOnGrid(cells) && Distinct(cells) && AllBlank(board, cells)
    requires c != ' '
    ensures CountBoard(WriteCells(board, cells, c)) == CountBoard(board) + |cells|
    decreases |cells|
  {
    if |cells| > 0 {
      var (x, y) := cells[0];
      var next := board[y := board[y][x := c]];
      CountRowUpdate(board[y], x, c);
      CountBoardUpdate(board, y, board[y][x := c]);
      assert AllBlank(next, cells[1..]) by {
        forall j | 0 <= j < |cells| - 1
          ensures next[cells[1..][j].1][cells[1..][j].0] == ' '
        {
          assert cells[1..][j] == cells[j + 1] != cells[0];
        }
      }
      WriteCellsCount(next, cells[1..], c);
    }
  }

  /** The outcome of a placement attempt: the board afterwards and whether the
      ship was placed. */
  datatype Placement = Placement(board: Board, placed: bool)

  /** The range test `place_ships` applies before looking at any cell. */
  predicate GuardAsWritten(sx: int, sy: int, length: nat, direction: string) {
    (direction == "r" && sx + length <= BoardSize) || (direction == "d" && sy + length <= BoardSize)
  }

  /** Python can index every listed position, negative indices included. */
  predicate PyIndexable(cells: seq<(int, int)>) {
    forall j :: 0 <= j < |cells| ==>
      -BoardSize <= cells[j].0 < BoardSize && -BoardSize <= cells[j].1 < BoardSize
  }

  /** The cells Python actually touches for a list of positions. */
  function Resolve(cells: seq<(int, int)>): (r: seq<(int, int)>)
    requires PyIndexable(cells)
    ensures |r| == |cells| && AllOnGrid(r)
    ensures forall j :: 0 <= j < |cells| ==> r[j] == (PyIndex(cells[j].0), PyIndex(cells[j].1))
  {
    seq(|cells|, j requires 0 <= j < |cells| => (PyIndex(cells[j].0), PyIndex(cells[j].1)))
  }

  /** The placement step of `place_ships` exactly as written: only the far end
      of the ship is range-checked, so a negative start coordinate is accepted
      and Python's negative indexing wraps the ship round the board edge. A
      start coordinate of 10 or more on the unchecked axis makes Python raise,
      hence the precondition. */
  function PlaceShipAsWritten(board: Board, initial: char, length: nat, sx: int, sy: int, direction: string): (r: Placement)
    requires IsBoard(board)
    requires GuardAsWritten(sx, sy, length, direction) ==> PyIndexable(Positions(sx, sy, length, direction))
    ensures IsBoard(r.board)
    ensures r.placed <==>
      GuardAsWritten(sx, sy, length, direction) &&
      AllBlank(board, Resolve(Positions(sx, sy, length, direction)))
    ensures r.placed ==>
      r.board == WriteCells(board, Resolve(Positions(sx, sy, length, direction)), initial)
    ensures !r.placed ==> r.board == board
  {
    if GuardAsWritten(sx, sy, length, direction) then
      var cells := Resolve(Positions(sx, sy, length, direction));
      if AllBlank(board, cells) then Placement(WriteCells(board, cells, initial), true)
      else Placement(board, false)
    else Placement(board, false)
  }

  /** A five-cell ship started at x = -2 going right on an empty board is
      accepted and occupies columns 8, 9, 0, 1, 2 of row 0: it wraps round the
      edge instead of being refused. */
  lemma ShipWrapsAroundEdge()
    ensures var r := PlaceShipAsWritten(CreateBoard(), 'C', 5, -2, 0, "r");
      && r.placed
      && r.board[0][8] == 'C' && r.board[0][9] == 'C' && r.board[0][0] == 'C'
      && r.board[0][5] == ' '
  {
    var cells := Resolve(Positions(-2, 0, 5, "r"));
    assert cells[0] == (8, 0) && cells[1] == (9, 0) && cells[2] == (0, 0);
    assert (5, 0) !in cells by {
      forall j | 0 <= j < 5 ensures cells[j] != (5, 0) {
        assert cells[j] == (PyIndex(-2 + j), 0);
      }
    }
  }

  /** A ship of at most ten cells never covers a cell twice, even when it
      wraps: two of its positions differ by less than ten along one axis, so
      Python's negative indexing cannot send them to the same cell. */
  lemma ResolveDistinct(sx: int, sy: int, length: nat, direction: string)
    requires length <= BoardSize
    requires PyIndexable(Positions(sx, sy, length, direction))
    ensures Distinct(Resolve(Positions(sx, sy, length, direction)))
  {
    var p := Positions(sx, sy, length, direction);
    var r := Resolve(p);
    forall i, j | 0 <= i < j < |r| ensures r[i] != r[j] {
      if direction == "r" {
        assert p[i] == (sx + i, sy) && p[j] == (sx + j, sy);
        assert PyIndex(sx + i) != PyIndex(sx + j);
      } else {
        assert p[i] == (sx, sy + i) && p[j] == (sx, sy + j);
        assert PyIndex(sy + i) != PyIndex(sy + j);
      }
    }
  }

  /** The placement as written never overlaps either: a placed ship of at
      most ten cells occupies exactly `length` more cells, wrapped or not. */
  lemma PlaceShipAsWrittenCount(board: Board, initial: char, length: nat, sx: int, sy: int, direction: string)
    requires IsBoard(board) && initial != ' ' && length <= BoardSize
    requires GuardAsWritten(sx, sy, length, direction) ==> PyIndexable(Positions(sx, sy, length, direction))
    ensures var r := PlaceShipAsWritten(board, initial, length, sx, sy, direction);
      r.placed ==> CountBoard(r.board) == CountBoard(board) + length
  {
    if PlaceShipAsWritten(board, initial, length, sx, sy, direction).placed {
      ResolveDistinct(sx, sy, length, direction);
      WriteCellsCount(board, Resolve(Positions(sx, sy, length, direction)), initial);
    }
  }

  /** The placement range test as evidently intended: the whole ship lies on
      the board, both coordinates included. */
  predicate OnBoard(sx: int, sy: int, length: nat, direction: string) {
    || (direction == "r" && 0 <= sx && sx + length <= BoardSize && 0 <= sy < BoardSize)
    || (direction == "d" && 0 <= sy && sy + length <= BoardSize && 0 <= sx < BoardSize)
  }

  /** Whether (x, y) is one of the ship's cells. */
  predicate ShipCell(sx: int, sy: int, length: nat, direction: string, x: int, y: int) {
    if direction == "r" then y == sy && sx <= x < sx + length
    else x == sx && sy <= y < sy + length
  }

  lemma PositionsShape(sx: int, sy: int, length: nat, direction: string)
    requires OnBoard(sx, sy, length, direction)
    ensures AllOnGrid(Positions(sx, sy, length, direction))
    ensures Distinct(Positions(sx, sy, length, direction))
    ensures forall x, y :: (x, y) in Positions(sx, sy, length, direction) <==>
      ShipCell(sx, sy, length, direction, x, y)
  {
    var p := Positions(sx, sy, length, direction);
    forall x, y | ShipCell(sx, sy, length, direction, x, y)
      ensures (x, y) in p
    {
      if direction == "r" {
        assert p[x - sx] == (x, y);
      } else {
        assert p[y - sy] == (x, y);
      }
    }
  }

  /** Ship placement with the range test corrected. The ship is placed iff it
      lies on the board and every one of its cells is blank. A placed ship
      writes its initial into exactly its cells and nothing else changes; a
      refused one leaves the board as it was. */
  function PlaceShip(board: Board, initial: char, length: nat, sx: int, sy: int, direction: string): (r: Placement)
    requires IsBoard(board)
    ensures IsBoard(r.board)
    ensures r.placed <==>
      && OnBoard(sx, sy, length, direction)
      && forall y, x :: OnGrid(x, y) && ShipCell(sx, sy, length, direction, x, y) ==> board[y][x] == ' '
    ensures r.placed ==> forall y, x :: OnGrid(x, y) ==>
      r.board[y][x] == if ShipCell(sx, sy, length, direction, x, y) then initial else board[y][x]
    ensures !r.placed ==> r.board == board
  {
    if OnBoard(sx, sy, length, direction) then
      var cells := Positions(sx, sy, length, direction);
      PositionsShape(sx, sy, length, direction);
      assert AllBlank(board, cells) <==>
        forall y, x :: OnGrid(x, y) && ShipCell(sx, sy, length, direction, x, y) ==> board[y][x] == ' '
      by {
        if AllBlank(board, cells) {
          forall y, x | OnGrid(x, y) && ShipCell(sx, sy, length, direction, x, y)
            ensures board[y][x] == ' '
          {
            var j :| 0 <= j < |cells| && cells[j] == (x, y);
          }
        }
      }
      if AllBlank(board, cells) then Placement(WriteCells(board, cells, initial), true)
      else Placement(board, false)
    else Placement(board, false)
  }

  /** A placed ship occupies exactly `length` more cells: it never overlaps a
      ship already on the board. */
  lemma PlaceShipCount(board: Board, initial: char, length: nat, sx: int, sy: int, direction: string)
    requires IsBoard(board) && initial != ' '
    ensures var r := PlaceShip(board, initial, length, sx, sy, direction);
      r.placed ==> CountBoard(r.board) == CountBoard(board) + length
  {
    if PlaceShip(board, initial, length, sx, sy, direction).placed {
      var cells := Positions(sx, sy, length, direction);
      PositionsShape(sx, sy, length, direction);
      assert AllBlank(board, cells) by {
        forall j | 0 <= j < |cells| ensures board[cells[j].1][cells[j].0] == ' ' {
          assert ShipCell(sx, sy, length, direction, cells[j].0, cells[j].1);
        }
      }
      WriteCellsCount(board, cells, initial);
    }
  }

  /** One placement request: a start cell and a direction. */
  datatype Request = Request(x: int, y: int, direction: string)

  function Sum(s: seq<nat>): nat
    decreases |s|
  {
    if |s| == 0 then 0 else Sum(s[..|s| - 1]) + s[|s| - 1]
  }

  lemma FleetLengthsSum()
    ensures Sum(ShipLengths) == 17
  {
    assert ShipLengths[..5] == ShipLengths;
    assert Sum(ShipLengths[..1]) == 5 by { assert ShipLengths[..1][..0] == []; }
    assert Sum(ShipLengths[..2]) == 9 by { assert ShipLengths[..2][..1] == ShipLengths[..1]; }
    assert Sum(ShipLengths[..3]) == 12 by { assert ShipLengths[..3][..2] == ShipLengths[..2]; }
    assert Sum(ShipLengths[..4]) == 15 by { assert ShipLengths[..4][..3] == ShipLengths[..3]; }
    assert Sum(ShipLengths) == 17 by { assert ShipLengths[..5][..4] == ShipLengths[..4]; }
  }

  /** Every request whose range test passes names cells Python can index, as
      `place_ships` needs to run without `IndexError`. */
  predicate FleetIndexable(requests: seq<Request>)
    requires |requests| <= |ShipLengths|
  {
    forall i :: 0 <= i < |requests| ==>
      var q := requests[i];
      GuardAsWritten(q.x, q.y, ShipLengths[i], q.direction) ==>
        PyIndexable(Positions(q.x, q.y, ShipLengths[i], q.direction))
  }

  /** The requests before the last stay indexable, and the last one can be
      placed without `IndexError`. */
  lemma FleetIndexableSplit(requests: seq<Request>)
    requires 0 < |requests| <= |ShipLengths| && FleetIndexable(requests)
    ensures FleetIndexable(requests[..|requests| - 1])
    ensures var i := |requests| - 1; var q := requests[i];
      GuardAsWritten(q.x, q.y, ShipLengths[i], q.direction) ==>
        PyIndexable(Positions(q.x, q.y, ShipLengths[i], q.direction))
  {
    var i := |requests| - 1;
    forall j | 0 <= j < i ensures requests[..i][j] == requests[j] { }
  }

  lemma SumStep(i: nat)
    requires i < |ShipLengths|
    ensures Sum(ShipLengths[..i + 1]) == Sum(ShipLengths[..i]) + ShipLengths[i]
  {
    assert ShipLengths[..i + 1][..i] == ShipLengths[..i];
  }

  /** `place_ships` as written: the successful request for each ship in turn,
      the i-th ship using the initial of `ShipNames[i]` and length
      `ShipLengths[i]`; `placed` tells whether every request succeeded.
      Refused requests change nothing, so the prompts `place_ships` repeats
      until one succeeds need no modelling. */
  function PlaceFleetAsWritten(board: Board, requests: seq<Request>): (r: Placement)
    requires IsBoard(board) && |requests| <= |ShipNames|
    requires FleetIndexable(requests)
    ensures IsBoard(r.board)
    ensures r.placed ==> CountBoard(r.board) == CountBoard(board) + Sum(ShipLengths[..|requests|])
    decreases |requests|
  {
    if |requests| == 0 then Placement(board, true)
    else
      var i := |requests| - 1;
      FleetIndexableSplit(requests);
      var before := PlaceFleetAsWritten(board, requests[..i]);
      var q := requests[i];
      var initial := ShipNames[i][0];
      var after := PlaceShipAsWritten(before.board, initial, ShipLengths[i], q.x, q.y, q.direction);
      PlaceShipAsWrittenCount(before.board, initial, ShipLengths[i], q.x, q.y, q.direction);
      SumStep(i);
      Placement(after.board, before.placed && after.placed)
  }

  /** Ships never overlap in the program as written: once all five are placed
      on a blank board exactly 5 + 4 + 3 + 3 + 2 = 17 cells are occupied,
      even when a ship wrapped round the edge. */
  lemma FleetOccupies17AsWritten(requests: seq<Request>)
    requires |requests| == |ShipNames| && FleetIndexable(requests)
    ensures var r := PlaceFleetAsWritten(CreateBoard(), requests);
      r.placed ==> CountBoard(r.board) == 17
  {
    assert ShipLengths[..5] == ShipLengths;
    FleetLengthsSum();
  }

  /** The same fleet with the corrected range test of `PlaceShip`. */
  function PlaceFleet(board: Board, requests: seq<Request>): (r: Placement)
    requires IsBoard(board) && |requests| <= |ShipNames|
    ensures IsBoard(r.board)
    ensures r.placed ==> CountBoard(r.board) == CountBoard(board) + Sum(ShipLengths[..|requests|])
    decreases |requests|
  {
    if |requests| == 0 then Placement(board, true)
    else
      var i := |requests| - 1;
      var before := PlaceFleet(board, requests[..i]);
      var q := requests[i];
      var initial := ShipNames[i][0];
      var after := PlaceShip(before.board, initial, ShipLengths[i], q.x, q.y, q.direction);
      PlaceShipCount(before.board, initial, ShipLengths[i], q.x, q.y, q.direction);
      SumStep(i);
      Placement(after.board, before.placed && after.placed)
  }

  /** With the corrected range test, five placed ships on a blank board also
      occupy exactly 17 cells. */
  lemma FleetOccupies17(requests: seq<Request>)
    requires |requests| == |ShipNames|
    ensures var r := PlaceFleet(CreateBoard(), requests);
      r.placed ==> CountBoard(r.board) == 17
  {
    assert ShipLengths[..5] == ShipLengths;
    FleetLengthsSum();
  }

  /** The two fleets part on the wrapping Carrier: the program accepts it,
      the corrected placement refuses it. */
  lemma FleetsDisagreeOnWrap()
    ensures PlaceFleetAsWritten(CreateBoard(), [Request(-2, 0, "r")]).placed
    ensures !PlaceFleet(CreateBoard(), [Request(-2, 0, "r")]).placed
  {
    var requests := [Request(-2, 0, "r")];
    assert requests[..0] == [];
    assert ShipNames[0][0] == 'C';
    ShipWrapsAroundEdge();
  }

  /** The acceptance test of `register_shot`. Note that the shot grid is
      indexed `grid[x][y]`, transposed with respect to placement's
      `board[y][x]`. */
  predicate ShotAccepted(grid: Board, x: int, y: int)
    requires IsBoard(grid)
  {
    OnGrid(x, y) && grid[x][y] != 'X' && grid[x][y] != '-'
  }

  /** The outcome of a shot: the board afterwards, whether it hit, and what it hit. */
  datatype Shot = Shot(board: Board, hit: bool, shipHit: Option<char>)

  /** `check_shot`: a hit iff the cell was not blank, reporting its previous
      content; the cell becomes `X` on a hit and `-` on a miss; no other cell
      changes. */
  function CheckShot(board: Board, x: int, y: int): (s: Shot)
    requires IsBoard(board) && OnGrid(x, y)
    ensures IsBoard(s.board)
    ensures s.hit <==> board[x][y] != ' '
    ensures s.shipHit == if s.hit then Some(board[x][y]) else None
    ensures s.board[x][y] == if s.hit then 'X' else '-'
    ensures forall a, b :: OnGrid(a, b) && (a, b) != (x, y) ==> s.board[a][b] == board[a][b]
  {
    if board[x][y] != ' ' then Shot(board[x := board[x][y := 'X']], true, Some(board[x][y]))
    else Shot(board[x := board[x][y := '-']], false, None)
  }

  /** A cell can be shot once: afterwards `register_shot` refuses it, and
      whether any other cell is accepted is unchanged. */
  lemma ShotNotRepeatable(board: Board, x: int, y: int)
    requires IsBoard(board) && OnGrid(x, y)
    ensures !ShotAccepted(CheckShot(board, x, y).board, x, y)
    ensures forall a, b :: (a, b) != (x, y) ==>
      (ShotAccepted(CheckShot(board, x, y).board, a, b) <==> ShotAccepted(board, a, b))
  {
  }

  /** Shots read the board transposed: on a board holding one placed ship, a
      shot at (x, y) hits iff (y, x) is one of the ship's placement cells. */
  lemma ShotsReadTransposed(initial: char, length: nat, sx: int, sy: int, direction: string, x: int, y: int)
    requires initial != ' ' && OnGrid(x, y)
    requires PlaceShip(CreateBoard(), initial, length, sx, sy, direction).placed
    ensures CheckShot(PlaceShip(CreateBoard(), initial, length, sx, sy, direction).board, x, y).hit
      <==> ShipCell(sx, sy, length, direction, y, x)
  {
  }

  /** A Carrier placed rightwards from (0, 0) fills row 0; a shot at x = 2,
      y = 0 misses it and a shot at x = 0, y = 2 hits it. */
  lemma TransposedShotExample()
    ensures var b := PlaceShip(CreateBoard(), 'C', 5, 0, 0, "r");
      && b.placed
      && !CheckShot(b.board, 2, 0).hit
      && CheckShot(b.board, 0, 2).hit
  {
    var b := PlaceShip(CreateBoard(), 'C', 5, 0, 0, "r");
    assert ShipCell(0, 0, 5, "r", 2, 0);
  }

  /** True iff every cell satisfies `keep`. */
  function EveryCell(board: Board, keep: char -> bool): (all: bool)
    ensures all <==> forall y, x :: 0 <= y < |board| && 0 <= x < |board[y]| ==> keep(board[y][x])
    decreases |board|
  {
    if |board| == 0 then true
    else
      var row := board[|board| - 1];
      var before := EveryCell(board[..|board| - 1], keep);
      assert forall y :: 0 <= y < |board| - 1 ==> board[..|board| - 1][y] == board[y];
      before && forall x :: 0 <= x < |row| ==> keep(row[x])
  }

  /** `check_win_condition` as written: true iff every cell is blank. */
  function CheckWinCondition(board: Board): (won: bool)
    ensures won <==> forall y, x :: 0 <= y < |board| && 0 <= x < |board[y]| ==> board[y][x] == ' '
  {
    EveryCell(board, c => c == ' ')
  }

  /** Every shot leaves an `X` or a `-`, so the win check as written is false
      after any shot at all, whatever the board: no player can ever win. */
  lemma NoWinAfterAnyShot(board: Board, x: int, y: int)
    requires IsBoard(board) && OnGrid(x, y)
    ensures !CheckWinCondition(CheckShot(board, x, y).board)
  {
    var b := CheckShot(board, x, y).board;
    assert b[x][y] != ' ';
  }

  /** The win check as evidently intended: no cell still holds part of a ship,
      every cell being blank, a hit or a miss. */
  function AllShipsSunk(board: Board): (won: bool)
    ensures won <==> forall y, x :: 0 <= y < |board| && 0 <= x < |board[y]| ==>
      board[y][x] in {' ', 'X', '-'}
  {
    EveryCell(board, c => c in {' ', 'X', '-'})
  }

  /** Sinking the last ship cell wins under the intended check, and not under
      the check as written. */
  lemma SinkingLastShipCellWins(board: Board, x: int, y: int)
    requires IsBoard(board) && OnGrid(x, y)
    requires board[x][y] !in {' ', 'X', '-'}
    requires forall a, b :: OnGrid(a, b) && (a, b) != (x, y) ==> board[a][b] in {' ', 'X', '-'}
    ensures CheckShot(board, x, y).hit
    ensures AllShipsSunk(CheckShot(board, x, y).board)
    ensures !CheckWinCondition(CheckShot(board, x, y).board)
  {
    NoWinAfterAnyShot(board, x, y);
  }

  /** While any ship cell is left the intended check says no, and shots never
      undo a win. */
  lemma SunkIsStable(board: Board, x: int, y: int)
    requires IsBoard(board) && OnGrid(x, y)
    ensures (exists a, b :: OnGrid(a, b) && board[a][b] !in {' ', 'X', '-'}) ==> !AllShipsSunk(board)
    ensures AllShipsSunk(board) ==> AllShipsSunk(CheckShot(board, x, y).board)
  {
  }

  /** Before any shot, when the board holds only blanks and ship initials, the
      intended check and the written one agree. */
  lemma ChecksAgreeBeforeShots(board: Board)
    requires IsBoard(board)
    requires forall a, b :: OnGrid(a, b) ==> board[a][b] != 'X' && board[a][b] != '-'
    ensures AllShipsSunk(board) == CheckWinCondition(board)
  {
  }
}
