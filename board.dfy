/** The board of the refactored game: a `height` x `width` grid that pieces
    are checked against, locked into and cleared from, with the landing
    (ghost) search, the game-over test and column statistics. */
module Board {
  import opened Wrappers
  import opened Cells
  import opened State

  // ---------------------------------------------------------------------
  // Placement rule

  /** A shape cell may sit at board column `col`, row `row`: inside the
      side walls, above the floor, and on an empty cell unless it is
      above the top of the board. */
  ghost predicate CellOk(grid: Grid, width: int, height: int, col: int, row: int)
    requires IsRect(grid, width, height)
  {
    0 <= col < width && row < height && (0 <= row ==> grid[row][col] == 0)
  }

  /** The board's validity rule for a piece: a nonempty shape whose every
      occupied cell is allowed where it lands. */
  ghost predicate Fits(grid: Grid, width: int, height: int, p: TetrominoState)
    requires IsRect(grid, width, height)
  {
    p.shape != [] && forall r, c :: Filled(p.shape, r, c) ==> CellOk(grid, width, height, p.x + c, p.y + r)
  }

  /** The shapes the landing search terminates on: the empty shape (never
      valid) and shapes with an occupied cell (which cannot fall forever). */
  ghost predicate Droppable(shape: Grid) {
    shape == [] || HasFilled(shape)
  }

  lemma FitsAboveFloor(grid: Grid, width: int, height: int, p: TetrominoState)
    requires IsRect(grid, width, height)
    requires Fits(grid, width, height, p) && Droppable(p.shape)
    ensures p.y < height
  {
    var r, c :| Filled(p.shape, r, c);
    assert CellOk(grid, width, height, p.x + c, p.y + r);
  }

  /** Where the piece comes to rest when it falls straight down from its
      position: the first row at which one more step down is invalid. */
  ghost function Drop(grid: Grid, width: int, height: int, p: TetrominoState): (g: TetrominoState)
    requires IsRect(grid, width, height) && Droppable(p.shape)
    ensures g == p.(y := g.y) && g.y >= p.y
    ensures !Fits(grid, width, height, g.(y := g.y + 1))
    ensures (Fits(grid, width, height, p) || g != p) ==> Fits(grid, width, height, g)
    decreases height - p.y
  {
    var below := p.(y := p.y + 1);
    if Fits(grid, width, height, below) then
      FitsAboveFloor(grid, width, height, below);
      Drop(grid, width, height, below)
    else p
  }

  /** Every row between the start and the landing row is a valid position:
      the piece can really fall there. */
  lemma {:induction false} DropPath(grid: Grid, width: int, height: int, p: TetrominoState, k: int)
    requires IsRect(grid, width, height) && Droppable(p.shape)
    requires p.y < k <= Drop(grid, width, height, p).y
    ensures Fits(grid, width, height, p.(y := k))
    decreases height - p.y
  {
    var below := p.(y := p.y + 1);
    assert Fits(grid, width, height, below);
    if k > p.y + 1 {
      FitsAboveFloor(grid, width, height, below);
      DropPath(grid, width, height, below, k);
      assert below.(y := k) == p.(y := k);
    }
  }

  /** Dropping a piece that has already landed leaves it where it is. */
  lemma DropIdempotent(grid: Grid, width: int, height: int, p: TetrominoState)
    requires IsRect(grid, width, height) && Droppable(p.shape)
    ensures Drop(grid, width, height, Drop(grid, width, height, p)) == Drop(grid, width, height, p)
  {
    var d := Drop(grid, width, height, p);
    assert !Fits(grid, width, height, d.(y := d.y + 1));
  }

  // ---------------------------------------------------------------------
  // Column statistics

  /** Top-to-bottom contents of column `col`. */
  function Column(g: Grid, col: int): (s: seq<int>)
    requires 0 <= col && forall i :: 0 <= i < |g| ==> col < |g[i]|
    ensures |s| == |g| && forall i :: 0 <= i < |g| ==> s[i] == g[i][col]
  {
    seq(|g|, i requires 0 <= i < |g| => g[i][col])
  }

  /** Index of the first nonzero entry, or the length if there is none. */
  function FirstNonzero(s: seq<int>): (k: nat)
    ensures k <= |s|
    ensures forall i :: 0 <= i < k ==> s[i] == 0
    ensures k < |s| ==> s[k] != 0
  {
    if s == [] then 0
    else if s[0] != 0 then 0
    else 1 + FirstNonzero(s[1..])
  }

  function CountZeros(s: seq<int>): nat {
    if s == [] then 0 else (if s[0] == 0 then 1 else 0) + CountZeros(s[1..])
  }

  function CountNonzero(s: seq<int>): nat {
    if s == [] then 0 else (if s[0] != 0 then 1 else 0) + CountNonzero(s[1..])
  }

  /** Every entry is either zero or not. */
  lemma {:induction false} ZerosAndNonzero(s: seq<int>)
    ensures CountZeros(s) + CountNonzero(s) == |s|
  {
    if s != [] {
      ZerosAndNonzero(s[1..]);
    }
  }

  lemma {:induction false} CountZerosAppend(a: seq<int>, b: seq<int>)
    ensures CountZeros(a + b) == CountZeros(a) + CountZeros(b)
    ensures CountNonzero(a + b) == CountNonzero(a) + CountNonzero(b)
  {
    if a == [] {
      assert a + b == b;
    } else {
      assert (a + b)[1..] == a[1..] + b;
      CountZerosAppend(a[1..], b);
    }
  }

  /** Height of the stack in a column: rows from its topmost block down to
      the floor, 0 for an empty column. */
  function ColumnHeight(s: seq<int>): (h: nat)
    ensures h <= |s|
  {
    |s| - FirstNonzero(s)
  }

  /** Holes in a column: empty cells below its topmost block. */
  function ColumnHoles(s: seq<int>): nat {
    CountZeros(s[FirstNonzero(s)..])
  }

  /** Below the top of a stack every cell is a block or a hole, and a
      column has height 0 exactly when it holds no block. */
  lemma ColumnBalance(s: seq<int>)
    ensures ColumnHoles(s) + CountNonzero(s) == ColumnHeight(s)
    ensures ColumnHeight(s) == 0 <==> forall i :: 0 <= i < |s| ==> s[i] == 0
    ensures ColumnHeight(s) > 0 ==> s[|s| - ColumnHeight(s)] != 0
  {
    var k := FirstNonzero(s);
    assert s == s[..k] + s[k..];
    CountZerosAppend(s[..k], s[k..]);
    ZerosAndNonzero(s[k..]);
    ZerosAndNonzero(s[..k]);
    assert CountZeros(s[..k]) == k by {
      AllZeros(s[..k]);
    }
  }

  lemma {:induction false} AllZeros(s: seq<int>)
    requires forall i :: 0 <= i < |s| ==> s[i] == 0
    ensures CountZeros(s) == |s|
  {
    if s != [] {
      AllZeros(s[1..]);
    }
  }

  /** Holes summed over columns 0..n-1. */
  function HolesUpTo(g: Grid, width: nat, n: nat): nat
    requires IsRect(g, width, |g|) && n <= width
  {
    if n == 0 then 0 else HolesUpTo(g, width, n - 1) + ColumnHoles(Column(g, n - 1))
  }

  function FilledCells(g: Grid): nat {
    if g == [] then 0 else CountNonzero(g[0]) + FilledCells(g[1..])
  }

  function EmptyCells(g: Grid): nat {
    if g == [] then 0 else CountZeros(g[0]) + EmptyCells(g[1..])
  }

  /** Filled and empty cells together are all `width * height` cells. */
  lemma {:induction false} CellsAddUp(g: Grid, width: nat)
    requires IsRect(g, width, |g|)
    ensures FilledCells(g) + EmptyCells(g) == width * |g|
  {
    if g != [] {
      ZerosAndNonzero(g[0]);
      CellsAddUp(g[1..], width);
    }
  }

  /** Some cell of the top row holds a block. */
  predicate TopRowOccupied(g: Grid, width: int)
    requires IsRect(g, width, |g|) && |g| > 0
  {
    exists x :: 0 <= x < width && g[0][x] != 0
  }

  /** The top row is occupied exactly when some column is stacked to the
      full height of the board. */
  lemma TopRowFullColumn(g: Grid, width: nat)
    requires IsRect(g, width, |g|) && |g| > 0
    ensures TopRowOccupied(g, width) <==> exists col :: 0 <= col < width && ColumnHeight(Column(g, col)) == |g|
  {
    if TopRowOccupied(g, width) {
      var x :| 0 <= x < width && g[0][x] != 0;
      assert FirstNonzero(Column(g, x)) == 0;
    }
    if exists col :: 0 <= col < width && ColumnHeight(Column(g, col)) == |g| {
      var col :| 0 <= col < width && ColumnHeight(Column(g, col)) == |g|;
      assert Column(g, col)[0] == g[0][col];
    }
  }

  // ---------------------------------------------------------------------
  // Overlays

  /** A grid with the ghost piece drawn into its empty cells and then the
      current piece drawn over everything. */
  function Overlaid(g: Grid, piece: TetrominoState, shadow: TetrominoState, ghostColor: int): (r: Grid)
    ensures |r| == |g| && forall i :: 0 <= i < |g| ==> |r[i]| == |g[i]|
  {
    Painted(Painted(g, shadow.shape, shadow.x, shadow.y, ghostColor, true),
            piece.shape, piece.x, piece.y, piece.color, false)
  }

  /** Cell by cell: the piece wins, the ghost shows only on cells that were
      empty, and a cell covered by neither keeps its value. */
  lemma OverlaidAt(g: Grid, piece: TetrominoState, shadow: TetrominoState, ghostColor: int, i: int, j: int)
    requires 0 <= i < |g| && 0 <= j < |g[i]|
    ensures Overlaid(g, piece, shadow, ghostColor)[i][j] ==
      if Covers(piece.shape, piece.x, piece.y, i, j) then piece.color
      else if Covers(shadow.shape, shadow.x, shadow.y, i, j) && g[i][j] == 0 then ghostColor
      else g[i][j]
  {
    var mid := Painted(g, shadow.shape, shadow.x, shadow.y, ghostColor, true);
    PaintedAt(g, shadow.shape, shadow.x, shadow.y, ghostColor, true, i, j);
    PaintedAt(mid, piece.shape, piece.x, piece.y, piece.color, false, i, j);
  }

  datatype BoardStats = BoardStats(
    height: int,
    width: int,
    filledCells: nat,
    emptyCells: nat,
    holes: nat,
    columnHeights: seq<int>,
    topRowFilled: bool)

  // ---------------------------------------------------------------------
  // The board object

  class GameBoard {
    var width: int
    var height: int
    var board: Grid

    ghost predicate Valid()
      reads this
    {
      width > 0 && height > 0 && IsRect(board, width, height)
    }

    /** A 10 x 20 board with no rows until it is initialized. */
    constructor()
      ensures width == 10 && height == 20 && board == []
    {
      width, height, board := 10, 20, [];
    }

    /** Positive dimensions give an empty board of that size; others are
        refused (the `ValueError`) and nothing changes. */
    method Initialize(w: int, h: int) returns (ok: bool)
      modifies this
      ensures ok <==> w > 0 && h > 0
      ensures ok ==> Valid() && width == w && height == h && board == ZeroRows(w, h)
      ensures !ok ==> width == old(width) && height == old(height) && board == old(board)
    {
      if w <= 0 || h <= 0 {
        return false;
      }
      width, height := w, h;
      board := ZeroRows(w, h);
      return true;
    }

    /** A copy of the grid; grids are values, so it can never alias. */
    method GetBoard() returns (g: Grid)
      requires Valid()
      ensures g == board && IsRect(g, width, height)
    {
      g := board;
    }

    /** The validity check, scanning shape cells and stopping at the first
        one that is off the board or on a block. */
    method IsValidPosition(piece: Option<TetrominoState>) returns (ok: bool)
      requires Valid()
      ensures ok == (piece.Some? && Fits(board, width, height, piece.value))
    {
      if piece.None? || piece.value.shape == [] {
        return false;
      }
      var p := piece.value;
      var r := 0;
      while r < |p.shape|
        invariant 0 <= r <= |p.shape|
        invariant forall rr, cc :: Filled(p.shape, rr, cc) && rr < r ==>
          CellOk(board, width, height, p.x + cc, p.y + rr)
      {
        var c := 0;
        while c < |p.shape[r]|
          invariant 0 <= c <= |p.shape[r]|
          invariant forall rr, cc :: Filled(p.shape, rr, cc) && (rr < r || (rr == r && cc < c)) ==>
            CellOk(board, width, height, p.x + cc, p.y + rr)
        {
          if p.shape[r][c] != 0 {
            var boardX, boardY := p.x + c, p.y + r;
            if boardX < 0 || boardX >= width || boardY >= height || (boardY >= 0 && board[boardY][boardX] != 0) {
              assert Filled(p.shape, r, c) && !CellOk(board, width, height, boardX, boardY);
              return false;
            }
          }
          c := c + 1;
        }
        r := r + 1;
      }
      return true;
    }

    /** Lock a piece into the grid: refused (the `ValueError`) with the grid
        untouched when the position is invalid, otherwise its colour goes
        into every covered cell inside the board. */
    method PlacePiece(piece: Option<TetrominoState>) returns (placed: bool)
      requires Valid()
      modifies this
      ensures Valid() && width == old(width) && height == old(height)
      ensures placed == (piece.Some? && Fits(old(board), width, height, piece.value))
      ensures placed ==> board == Painted(old(board), piece.value.shape, piece.value.x, piece.value.y, piece.value.color, false)
      ensures !placed ==> board == old(board)
    {
      placed := IsValidPosition(piece);
      if !placed {
        return;
      }
      var p := piece.value;
      board := Paint(board, width, p.shape, p.x, p.y, p.color, false);
    }

    /** Row `lineY` exists and has no empty cell. */
    predicate IsLineComplete(lineY: int): (complete: bool)
      reads this
      requires Valid()
      ensures complete <==> 0 <= lineY < height && forall x :: 0 <= x < width ==> board[lineY][x] != 0
    {
      0 <= lineY < height && Complete(board[lineY])
    }

    /** Bottom-up scan that deletes each complete row and inserts an empty
        one on top, re-examining the same index after a deletion. */
    method ClearCompletedLines() returns (cleared: nat)
      requires Valid()
      modifies this
      ensures Valid() && width == old(width) && height == old(height)
      ensures board == Cleared(old(board), width)
      ensures cleared == CountComplete(old(board))
    {
      ghost var g := board;
      ghost var p := |g|;
      var rows := board;
      cleared := 0;
      var y := height - 1;
      ScanStart(g, width);
      while y >= 0
        invariant width == old(width) && height == old(height)
        invariant 0 <= p <= |g| && -1 <= y
        invariant cleared == CountComplete(g[p..])
        invariant rows == ScanBoard(g, width, cleared, p)
        invariant y == cleared + p - 1 || (p == 0 && y < cleared)
        decreases p + y + 1
      {
        ScanRow(g, width, cleared, p, y);
        if Complete(rows[y]) {
          ClearStep(g, width, cleared, p, true);
          rows := [ZeroRow(width)] + (rows[..y] + rows[y + 1..]);
          cleared := cleared + 1;
          p := p - 1;
        } else {
          if p >= 1 && y == cleared + p - 1 {
            ClearStep(g, width, cleared, p, false);
            p := p - 1;
          }
          y := y - 1;
        }
      }
      board := rows;
      ScanDone(g, width, cleared);
      ClearedProperties(g, width, height);
    }

    /** The landing search: keep moving the piece down one row while that
        is a valid position. */
    method GetGhostPiecePosition(piece: Option<TetrominoState>) returns (ghostPiece: Option<TetrominoState>)
      requires Valid()
      requires piece.Some? ==> Droppable(piece.value.shape)
      ensures piece.None? ==> ghostPiece.None?
      ensures piece.Some? ==> ghostPiece == Some(Drop(board, width, height, piece.value))
    {
      if piece.None? {
        return None;
      }
      var current := piece.value;
      while true
        invariant current == piece.value.(y := current.y)
        invariant Drop(board, width, height, current) == Drop(board, width, height, piece.value)
        decreases height - current.y
      {
        var test := current.(y := current.y + 1);
        var ok := IsValidPosition(Some(test));
        if ok {
          FitsAboveFloor(board, width, height, test);
          current := test;
        } else {
          break;
        }
      }
      return Some(current);
    }

    /** Some cell of the top row holds a block: some column is stacked to
        the full height of the board. */
    predicate IsGameOver(): (over: bool)
      reads this
      requires Valid()
      ensures over <==> exists col :: 0 <= col < width && ColumnHeight(Column(board, col)) == height
    {
      TopRowFullColumn(board, width);
      TopRowOccupied(board, width)
    }

    method Reset()
      requires Valid()
      modifies this
      ensures Valid() && width == old(width) && height == old(height)
      ensures board == ZeroRows(width, height)
      ensures !IsGameOver()
    {
      board := ZeroRows(width, height);
    }

    /** The grid with the piece's colour over its covered cells; the board
        itself is not changed. */
    method GetBoardWithPiece(piece: Option<TetrominoState>) returns (g: Grid)
      requires Valid()
      ensures piece.None? ==> g == board
      ensures piece.Some? ==> g == Painted(board, piece.value.shape, piece.value.x, piece.value.y, piece.value.color, false)
    {
      if piece.None? {
        return board;
      }
      var p := piece.value;
      g := Paint(board, width, p.shape, p.x, p.y, p.color, false);
    }

    /** The grid with the ghost drawn into empty cells and the piece drawn
        over it; when either piece is missing, the plain grid. */
    method GetBoardWithGhost(piece: Option<TetrominoState>, ghostPiece: Option<TetrominoState>, ghostColor: int)
      returns (g: Grid)
      requires Valid()
      ensures piece.None? || ghostPiece.None? ==> g == board
      ensures piece.Some? && ghostPiece.Some? ==>
        g == Overlaid(board, piece.value, ghostPiece.value, ghostColor)
    {
      if piece.None? || ghostPiece.None? {
        return board;
      }
      var shadow, p := ghostPiece.value, piece.value;
      g := Paint(board, width, shadow.shape, shadow.x, shadow.y, ghostColor, true);
      g := Paint(g, width, p.shape, p.x, p.y, p.color, false);
    }

    /** Per column, the height of its stack. */
    method GetLineHeights() returns (heights: seq<int>)
      requires Valid()
      ensures |heights| == width
      ensures forall col :: 0 <= col < width ==> heights[col] == ColumnHeight(Column(board, col))
    {
      heights := [];
      var col := 0;
      while col < width
        invariant 0 <= col <= width && |heights| == col
        invariant forall k :: 0 <= k < col ==> heights[k] == ColumnHeight(Column(board, k))
      {
        var h := 0;
        var row := 0;
        while row < height
          invariant 0 <= row <= height && h == 0
          invariant forall rr :: 0 <= rr < row ==> board[rr][col] == 0
        {
          if board[row][col] != 0 {
            h := height - row;
            break;
          }
          row := row + 1;
        }
        ghost var s := Column(board, col);
        assert h == if row < height then height - row else 0;
        assert forall i :: 0 <= i < row ==> s[i] == 0;
        assert row < height ==> s[row] != 0;
        assert FirstNonzero(s) == row;
        heights := heights + [h];
        col := col + 1;
      }
    }

    /** Count the holes of all columns, left to right. */
    method GetHolesCount() returns (holes: nat)
      requires Valid()
      ensures holes == HolesUpTo(board, width, width)
    {
      holes := 0;
      var col := 0;
      while col < width
        invariant 0 <= col <= width
        invariant holes == HolesUpTo(board, width, col)
      {
        var colHoles := CountColumnHoles(col);
        holes := holes + colHoles;
        col := col + 1;
      }
    }

    /** The inner scan of the hole count: going down the column, every
        empty cell met after the first block is a hole. */
    method CountColumnHoles(col: int) returns (colHoles: nat)
      requires Valid() && 0 <= col < width
      ensures colHoles == ColumnHoles(Column(board, col))
    {
      ghost var s := Column(board, col);
      ghost var top := FirstNonzero(s);
      var foundBlock := false;
      colHoles := 0;
      var row := 0;
      while row < height
        invariant 0 <= row <= height
        invariant foundBlock <==> top < row
        invariant colHoles == if top < row then CountZeros(s[top..row]) else 0
      {
        if board[row][col] != 0 {
          foundBlock := true;
        } else if foundBlock && board[row][col] == 0 {
          colHoles := colHoles + 1;
        }
        if top < row + 1 {
          assert s[top..row + 1] == s[top..row] + [s[row]];
          CountZerosAppend(s[top..row], [s[row]]);
          assert s[top..top] == [];
        }
        row := row + 1;
      }
      assert s[top..height] == s[top..];
    }

    /** The statistics record: dimensions, filled and empty cell counts,
        holes, column heights and whether the top row is occupied. */
    method GetBoardStatistics() returns (stats: BoardStats)
      requires Valid()
      ensures stats.height == height && stats.width == width
      ensures stats.filledCells + stats.emptyCells == width * height
      ensures stats.filledCells == FilledCells(board) && stats.emptyCells == EmptyCells(board)
      ensures stats.holes == HolesUpTo(board, width, width)
      ensures |stats.columnHeights| == width
      ensures forall col :: 0 <= col < width ==> stats.columnHeights[col] == ColumnHeight(Column(board, col))
      ensures stats.topRowFilled == IsGameOver()
    {
      var holes := GetHolesCount();
      var heights := GetLineHeights();
      CellsAddUp(board, width);
      stats := BoardStats(height, width, FilledCells(board), EmptyCells(board), holes, heights, IsGameOver());
    }
  }

  /** The board part-way through the clearing scan: the original rows
      `g[..p]` not yet examined, the survivors of `g[p..]` below them and
      one empty row on top per deleted row. */
  ghost function ScanBoard(g: Grid, width: nat, cleared: nat, p: nat): Grid
    requires p <= |g|
  {
    ZeroRows(width, cleared) + g[..p] + Survivors(g[p..])
  }

  lemma ScanStart(g: Grid, width: nat)
    ensures ScanBoard(g, width, 0, |g|) == g
    ensures CountComplete(g[|g|..]) == 0
  {
    assert g[|g|..] == [];
    assert g[..|g|] == g;
  }

  /** What the scan finds at index `y`: an empty row in the top part
      (never complete on a board of positive width), and the original row
      `g[p-1]` at the boundary. */
  lemma ScanRow(g: Grid, width: nat, cleared: nat, p: nat, y: int)
    requires width > 0 && p <= |g| && 0 <= y
    requires cleared == CountComplete(g[p..])
    requires y == cleared + p - 1 || (p == 0 && y < cleared)
    ensures y < |ScanBoard(g, width, cleared, p)|
    ensures p == 0 ==> !Complete(ScanBoard(g, width, cleared, p)[y])
    ensures p >= 1 ==> ScanBoard(g, width, cleared, p)[y] == g[p - 1]
  {
    var b := ScanBoard(g, width, cleared, p);
    if y < cleared {
      assert b[y] == ZeroRow(width);
      assert b[y][0] == 0;
    } else {
      assert b[y] == g[y - cleared];
    }
  }

  /** One step of the clearing scan keeps its invariant: examining the
      original row `g[p-1]` either deletes it (complete) or leaves it
      among the survivors. */
  lemma ClearStep(g: Grid, width: nat, cleared: nat, p: nat, complete: bool)
    requires 1 <= p <= |g| && complete == Complete(g[p - 1])
    requires cleared == CountComplete(g[p..])
    ensures complete ==> cleared + 1 == CountComplete(g[p - 1..])
    ensures complete ==>
      var b := ScanBoard(g, width, cleared, p);
      var y := cleared + p - 1;
      [ZeroRow(width)] + (b[..y] + b[y + 1..]) == ScanBoard(g, width, cleared + 1, p - 1)
    ensures !complete ==> cleared == CountComplete(g[p - 1..])
    ensures !complete ==> ScanBoard(g, width, cleared, p) == ScanBoard(g, width, cleared, p - 1)
  {
    if complete {
      ClearDeletes(g, width, cleared, p);
    } else {
      ClearKeeps(g, width, cleared, p);
    }
  }

  /** A complete row is deleted and an empty row enters at the top. */
  lemma ClearDeletes(g: Grid, width: nat, cleared: nat, p: nat)
    requires 1 <= p <= |g| && Complete(g[p - 1])
    requires cleared == CountComplete(g[p..])
    ensures cleared + 1 == CountComplete(g[p - 1..])
    ensures
      var b := ScanBoard(g, width, cleared, p);
      var y := cleared + p - 1;
      [ZeroRow(width)] + (b[..y] + b[y + 1..]) == ScanBoard(g, width, cleared + 1, p - 1)
  {
    var rest := g[p - 1..];
    assert rest[0] == g[p - 1] && rest[1..] == g[p..];
    var b := ScanBoard(g, width, cleared, p);
    var y := cleared + p - 1;
    assert b[..y] == ZeroRows(width, cleared) + g[..p - 1];
    assert b[y + 1..] == Survivors(g[p..]);
    assert [ZeroRow(width)] + ZeroRows(width, cleared) == ZeroRows(width, cleared + 1);
  }

  /** An incomplete row stays among the survivors. */
  lemma ClearKeeps(g: Grid, width: nat, cleared: nat, p: nat)
    requires 1 <= p <= |g| && !Complete(g[p - 1])
    requires cleared == CountComplete(g[p..])
    ensures cleared == CountComplete(g[p - 1..])
    ensures ScanBoard(g, width, cleared, p) == ScanBoard(g, width, cleared, p - 1)
  {
    var rest := g[p - 1..];
    assert rest[0] == g[p - 1] && rest[1..] == g[p..];
    assert g[..p] == g[..p - 1] + [g[p - 1]];
  }

  /** With every row examined the scan's board is the cleared board. */
  lemma ScanDone(g: Grid, width: nat, cleared: nat)
    requires cleared == CountComplete(g[0..])
    ensures ScanBoard(g, width, cleared, 0) == Cleared(g, width)
    ensures cleared == CountComplete(g)
  {
    assert g[0..] == g && g[..0] == [];
    SurvivorsCount(g);
  }
}
