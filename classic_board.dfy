/** The original game's board: a grid of colours checked and written
    through the block list of a piece. Unlike the refactored board it
    places a piece without checking the position first. */
module ClassicBoard {
  import opened Cells
  import opened ClassicTetromino
  import Board

  /** One block position is acceptable: inside the side walls, above the
      floor, and on an empty cell unless it is still above the top row. */
  predicate PositionOk(g: Grid, width: int, height: int, b: Pos)
    requires IsRect(g, width, height)
  {
    0 <= b.0 < width && b.1 < height && (b.1 >= 0 ==> g[b.1][b.0] == 0)
  }

  /** Every listed position is acceptable. */
  predicate PositionsOk(g: Grid, width: int, height: int, bs: seq<Pos>)
    requires IsRect(g, width, height)
  {
    forall i :: 0 <= i < |bs| ==> PositionOk(g, width, height, bs[i])
  }

  /** Every block of the shape drawn at column `x`, row `y` is
      acceptable. */
  predicate ShapeFits(g: Grid, width: int, height: int, shape: seq<string>, x: int, y: int)
    requires IsRect(g, width, height)
  {
    PositionsOk(g, width, height, ShapeCells(shape, 0, x, y))
  }

  /** Every block of the piece is acceptable. */
  predicate ValidPosition(g: Grid, width: int, height: int, t: Tetromino)
    requires IsRect(g, width, height)
  {
    ShapeFits(g, width, height, CurrentShape(t), t.x, t.y)
  }

  /** A shape with a block that the board accepts lies above the floor:
      its top row is above the last row of the board. */
  lemma FitsAboveFloor(g: Grid, width: int, height: int, shape: seq<string>, x: int, y: int)
    requires IsRect(g, width, height) && ShapeCount(shape, 0) > 0 && ShapeFits(g, width, height, shape, x, y)
    ensures y < height
  {
    ShapeCellsCount(shape, 0, x, y);
    ShapeCellsBelow(shape, 0, x, y);
    assert PositionOk(g, width, height, ShapeCells(shape, 0, x, y)[0]);
  }

  /** An empty board accepts any positions inside it. */
  lemma EmptyAcceptsInside(width: nat, height: nat, bs: seq<Pos>)
    requires forall i :: 0 <= i < |bs| ==> 0 <= bs[i].0 < width && 0 <= bs[i].1 < height
    ensures PositionsOk(ZeroRows(width, height), width, height, bs)
  {
    var g := ZeroRows(width, height);
    forall i | 0 <= i < |bs|
      ensures PositionOk(g, width, height, bs[i])
    {
      assert g[bs[i].1] == ZeroRow(width);
    }
  }

  /** An empty board accepts any piece whose 4 x 4 box lies inside it. */
  lemma EmptyBoardAccepts(width: nat, height: nat, t: Tetromino)
    requires WellFormed(t) && 0 <= t.x && t.x + 4 <= width && 0 <= t.y && t.y + 4 <= height
    ensures ValidPosition(ZeroRows(width, height), width, height, t)
  {
    BlocksInBox(t);
    EmptyAcceptsInside(width, height, Blocks(t));
  }

  /** The grid after writing `color` into each in-range position of `bs`,
      in order. */
  function Placed(g: Grid, width: int, height: int, bs: seq<Pos>, color: int): (r: Grid)
    requires IsRect(g, width, height)
    ensures IsRect(r, width, height)
  {
    if bs == [] then g
    else
      var p := Placed(g, width, height, bs[..|bs| - 1], color);
      var b := bs[|bs| - 1];
      if 0 <= b.1 < height && 0 <= b.0 < width then p[b.1 := p[b.1][b.0 := color]] else p
  }

  /** Placing writes the colour into the listed cells inside the board and
      leaves every other cell as it was. */
  lemma {:induction false} PlacedAt(g: Grid, width: int, height: int, bs: seq<Pos>, color: int, i: int, j: int)
    requires IsRect(g, width, height) && 0 <= i < height && 0 <= j < width
    ensures Placed(g, width, height, bs, color)[i][j] == if (j, i) in bs then color else g[i][j]
  {
    if bs != [] {
      PlacedAt(g, width, height, bs[..|bs| - 1], color, i, j);
      assert bs == bs[..|bs| - 1] + [bs[|bs| - 1]];
    }
  }

  /** The row a hard drop lands a shape on, searching down from row `y`:
      the last row before the first position the board refuses. The search
      ends because a shape with a block cannot go below the floor. */
  function DropRow(g: Grid, width: int, height: int, shape: seq<string>, x: int, y: int): int
    requires IsRect(g, width, height) && ShapeCount(shape, 0) > 0
    decreases height - y
  {
    if !ShapeFits(g, width, height, shape, x, y + 1) then y
    else
      FitsAboveFloor(g, width, height, shape, x, y + 1);
      DropRow(g, width, height, shape, x, y + 1)
  }

  /** The drop row is at or below `y`, every row on the way down is a
      position the board accepts, and one row further is not. */
  lemma {:induction false} DropRowFacts(g: Grid, width: int, height: int, shape: seq<string>, x: int, y: int)
    requires IsRect(g, width, height) && ShapeCount(shape, 0) > 0
    ensures DropRow(g, width, height, shape, x, y) >= y
    ensures !ShapeFits(g, width, height, shape, x, DropRow(g, width, height, shape, x, y) + 1)
    ensures forall k :: y < k <= DropRow(g, width, height, shape, x, y) ==> ShapeFits(g, width, height, shape, x, k)
    decreases height - y
  {
    if ShapeFits(g, width, height, shape, x, y + 1) {
      FitsAboveFloor(g, width, height, shape, x, y + 1);
      DropRowFacts(g, width, height, shape, x, y + 1);
    }
  }

  /** `get_drop_position` as a value: the row the piece lands on. */
  function DropPosition(g: Grid, width: int, height: int, t: Tetromino): int
    requires IsRect(g, width, height) && WellFormed(t)
  {
    CurrentStateOk(t);
    DropRow(g, width, height, CurrentShape(t), t.x, t.y)
  }

  /** Whether the board accepts a piece moved down by `dy` rows depends
      only on the piece's shape and the new row. */
  lemma ValidMoved(g: Grid, width: int, height: int, t: Tetromino, dy: int)
    requires IsRect(g, width, height)
    ensures ValidPosition(g, width, height, Move(t, 0, dy)) == ShapeFits(g, width, height, CurrentShape(t), t.x, t.y + dy)
  {
    MoveKeepsShape(t, 0, dy);
  }

  /** Dropping a piece the board accepts leads to a position the board
      accepts, at or below the start, from which the piece can fall no
      further. */
  lemma DropLands(g: Grid, width: int, height: int, t: Tetromino)
    requires IsRect(g, width, height) && WellFormed(t) && ValidPosition(g, width, height, t)
    ensures var landed := Move(t, 0, DropPosition(g, width, height, t) - t.y);
      && landed.y >= t.y
      && ValidPosition(g, width, height, landed)
      && !ValidPosition(g, width, height, Move(landed, 0, 1))
  {
    CurrentStateOk(t);
    var shape := CurrentShape(t);
    var d := DropRow(g, width, height, shape, t.x, t.y);
    DropRowFacts(g, width, height, shape, t.x, t.y);
    assert DropPosition(g, width, height, t) == d;
    var landed := Move(t, 0, d - t.y);
    ValidMoved(g, width, height, t, d - t.y);
    ValidMoved(g, width, height, landed, 1);
    MoveKeepsShape(t, 0, d - t.y);
    if d > t.y {
      assert ShapeFits(g, width, height, shape, t.x, d);
    }
  }

  class GameBoard {
    const width: int
    const height: int
    var board: Grid

    ghost predicate Valid()
      reads this
    {
      width > 0 && height > 0 && IsRect(board, width, height)
    }

    /** `height` rows of `width` empty cells. */
    constructor(w: int, h: int)
      requires w > 0 && h > 0
      ensures Valid() && width == w && height == h && board == ZeroRows(w, h)
    {
      width, height := w, h;
      board := ZeroRows(w, h);
    }

    /** `is_valid_position`: scans the piece's blocks and refuses at the
        first one outside the walls, below the floor, or on a filled cell
        of the board. */
    method IsValidPosition(t: Tetromino) returns (ok: bool)
      requires Valid()
      ensures ok == ValidPosition(board, width, height, t)
    {
      var blocks := GetBlocks(t);
      ok := CheckPositions(blocks);
    }

    /** The loop of `is_valid_position` over a block list. */
    method CheckPositions(blocks: seq<Pos>) returns (ok: bool)
      requires Valid()
      ensures ok == PositionsOk(board, width, height, blocks)
    {
      var i := 0;
      while i < |blocks|
        invariant 0 <= i <= |blocks|
        invariant forall k :: 0 <= k < i ==> PositionOk(board, width, height, blocks[k])
      {
        var x, y := blocks[i].0, blocks[i].1;
        if x < 0 || x >= width || y >= height {
          return false;
        }
        if y >= 0 && board[y][x] != 0 {
          return false;
        }
        i := i + 1;
      }
      return true;
    }

    /** `place_tetromino`: writes the piece's colour into each of its
        blocks that lies inside the board, without checking the position. */
    method PlaceTetromino(t: Tetromino)
      requires Valid()
      modifies this
      ensures Valid() && board == Placed(old(board), width, height, Blocks(t), t.color)
    {
      var blocks := GetBlocks(t);
      var color := t.color;
      ghost var g := board;
      var i := 0;
      while i < |blocks|
        invariant 0 <= i <= |blocks|
        invariant board == Placed(g, width, height, blocks[..i], color)
      {
        assert blocks[..i + 1][..i] == blocks[..i];
        var x, y := blocks[i].0, blocks[i].1;
        if 0 <= y < height && 0 <= x < width {
          board := board[y := board[y][x := color]];
        }
        i := i + 1;
      }
      assert blocks[..|blocks|] == blocks;
    }

    /** `clear_lines`: a bottom-up scan that deletes each complete row and
        inserts an empty one on top, examining the same index again after
        a deletion. */
    method ClearLines() returns (linesCleared: nat)
      requires Valid()
      modifies this
      ensures Valid()
      ensures board == Cleared(old(board), width)
      ensures linesCleared == CountComplete(old(board))
    {
      ghost var g := board;
      ghost var p := |g|;
      var rows := board;
      linesCleared := 0;
      var y := height - 1;
      Board.ScanStart(g, width);
      while y >= 0
        invariant 0 <= p <= |g| && -1 <= y
        invariant board == g
        invariant linesCleared == CountComplete(g[p..])
        invariant rows == Board.ScanBoard(g, width, linesCleared, p)
        invariant y == linesCleared + p - 1 || (p == 0 && y < linesCleared)
        decreases p + y + 1
      {
        Board.ScanRow(g, width, linesCleared, p, y);
        if Complete(rows[y]) {
          Board.ClearStep(g, width, linesCleared, p, true);
          rows := [ZeroRow(width)] + (rows[..y] + rows[y + 1..]);
          linesCleared := linesCleared + 1;
          p := p - 1;
        } else {
          if p >= 1 && y == linesCleared + p - 1 {
            Board.ClearStep(g, width, linesCleared, p, false);
            p := p - 1;
          }
          y := y - 1;
        }
      }
      board := rows;
      Board.ScanDone(g, width, linesCleared);
      ClearedProperties(g, width, height);
    }

    /** `is_game_over`: some cell of the top row holds a block, so some
        column is stacked to the full height of the board. */
    predicate IsGameOver(): (over: bool)
      reads this
      requires Valid()
      ensures over <==> exists col :: 0 <= col < width && Board.ColumnHeight(Board.Column(board, col)) == height
    {
      Board.TopRowFullColumn(board, width);
      Board.TopRowOccupied(board, width)
    }

    /** `get_drop_position`: moves a test piece down one row at a time
        while the board accepts it. */
    method GetDropPosition(t: Tetromino) returns (dropY: int)
      requires Valid() && WellFormed(t)
      ensures dropY == DropPosition(board, width, height, t)
    {
      CurrentStateOk(t);
      ghost var shape := CurrentShape(t);
      dropY := t.y;
      while true
        invariant DropRow(board, width, height, shape, t.x, dropY) == DropPosition(board, width, height, t)
        decreases height - dropY
      {
        var test := Move(t, 0, dropY - t.y + 1);
        MoveKeepsShape(t, 0, dropY - t.y + 1);
        var ok := IsValidPosition(test);
        if !ok {
          break;
        }
        FitsAboveFloor(board, width, height, shape, t.x, dropY + 1);
        dropY := dropY + 1;
      }
    }

    /** `get_board_copy`: the grid itself; as a value it shares nothing
        with the board, so neither sees later changes to the other. The
        refactored board's `get_board` (`Board.GameBoard.GetBoard`) is the
        same operation on the other generation's board class. */
    method GetBoardCopy() returns (copy: Grid)
      requires Valid()
      ensures copy == board && IsRect(copy, width, height)
    {
      copy := board;
    }
  }
}
