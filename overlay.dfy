/** The renderer's pure helpers: the board with the falling piece (and its
    ghost) drawn in, and the compact preview of the next piece. Drawing to
    the terminal itself is not modelled. */
module Overlay {
  import opened Wrappers
  import opened Cells
  import opened State
  import opened Board

  /** Every row is as long as the first one: the width the renderer reads
      off `board[0]`. */
  predicate Rectangular(board: Grid) {
    forall i :: 0 <= i < |board| ==> |board[i]| == |board[0]|
  }

  function RowWidth(board: Grid): (w: nat)
    ensures Rectangular(board) ==> IsRect(board, w, |board|)
  {
    if board == [] then 0 else |board[0]|
  }

  /** `_get_board_with_piece`: a copy of the board with the piece's colour
      in every covered cell inside the board; no piece leaves the copy as
      it was, and the board itself is not changed. */
  method BoardWithPiece(board: Grid, piece: Option<TetrominoState>) returns (out: Grid)
    requires Rectangular(board)
    ensures piece.None? ==> out == board
    ensures piece.Some? ==> out == Painted(board, piece.value.shape, piece.value.x, piece.value.y, piece.value.color, false)
  {
    out := board;
    if piece.Some? {
      var p := piece.value;
      if p.shape != [] {
        out := Paint(board, RowWidth(board), p.shape, p.x, p.y, p.color, false);
      } else {
        assert forall i :: 0 <= i < |board| ==> out[i] == Painted(board, p.shape, p.x, p.y, p.color, false)[i];
      }
    }
  }

  /** `_get_board_with_all_pieces`: the ghost drawn into empty cells first,
      then the current piece over everything; a missing piece is skipped. */
  method BoardWithAllPieces(board: Grid, current: Option<TetrominoState>, shadow: Option<TetrominoState>, ghostColor: int)
    returns (out: Grid)
    requires Rectangular(board)
    ensures current.Some? && shadow.Some? ==> out == Overlaid(board, current.value, shadow.value, ghostColor)
    ensures current.Some? && shadow.None? ==>
      out == Painted(board, current.value.shape, current.value.x, current.value.y, current.value.color, false)
    ensures current.None? && shadow.Some? ==>
      out == Painted(board, shadow.value.shape, shadow.value.x, shadow.value.y, ghostColor, true)
    ensures current.None? && shadow.None? ==> out == board
  {
    var width := RowWidth(board);
    out := board;
    if shadow.Some? {
      var g := shadow.value;
      if g.shape != [] {
        out := Paint(out, width, g.shape, g.x, g.y, ghostColor, true);
      } else {
        assert forall i :: 0 <= i < |board| ==> out[i] == Painted(board, g.shape, g.x, g.y, ghostColor, true)[i];
      }
    }
    var mid := out;
    if current.Some? {
      var p := current.value;
      if p.shape != [] {
        out := Paint(out, width, p.shape, p.x, p.y, p.color, false);
      } else {
        assert forall i :: 0 <= i < |mid| ==> out[i] == Painted(mid, p.shape, p.x, p.y, p.color, false)[i];
      }
    }
  }

  /** A piece the board accepts is drawn over empty cells only: the
      overlay differs from the board exactly on the piece's cells, and
      shows the piece's colour there. */
  lemma PieceOverlayFacts(board: Grid, width: int, height: int, piece: TetrominoState)
    requires IsRect(board, width, height) && Fits(board, width, height, piece) && piece.color != 0
    ensures
      var out := Painted(board, piece.shape, piece.x, piece.y, piece.color, false);
      && IsRect(out, width, height)
      && (forall i, j :: 0 <= i < height && 0 <= j < width ==>
            (out[i][j] != board[i][j] <==> Covers(piece.shape, piece.x, piece.y, i, j)))
      && (forall i, j :: 0 <= i < height && 0 <= j < width && Covers(piece.shape, piece.x, piece.y, i, j) ==>
            out[i][j] == piece.color)
  {
    var out := Painted(board, piece.shape, piece.x, piece.y, piece.color, false);
    forall i, j | 0 <= i < height && 0 <= j < width
      ensures out[i][j] != board[i][j] <==> Covers(piece.shape, piece.x, piece.y, i, j)
      ensures Covers(piece.shape, piece.x, piece.y, i, j) ==> out[i][j] == piece.color
    {
      PaintedAt(board, piece.shape, piece.x, piece.y, piece.color, false, i, j);
      if Covers(piece.shape, piece.x, piece.y, i, j) {
        assert CellOk(board, width, height, piece.x + (j - piece.x), piece.y + (i - piece.y));
      }
    }
  }

  /** One cell of the overlay of two pieces the board accepts. */
  lemma OverlaidCell(board: Grid, width: int, height: int, current: TetrominoState, shadow: TetrominoState,
                     ghostColor: int, i: int, j: int)
    requires IsRect(board, width, height) && Fits(board, width, height, current) && Fits(board, width, height, shadow)
    requires 0 <= i < height && 0 <= j < width
    ensures
      var out := Overlaid(board, current, shadow, ghostColor);
      && (board[i][j] != 0 ==> out[i][j] == board[i][j])
      && (Covers(current.shape, current.x, current.y, i, j) ==> out[i][j] == current.color)
      && (Covers(shadow.shape, shadow.x, shadow.y, i, j) && !Covers(current.shape, current.x, current.y, i, j) ==>
            out[i][j] == ghostColor)
      && (!Covers(shadow.shape, shadow.x, shadow.y, i, j) && !Covers(current.shape, current.x, current.y, i, j) ==>
            out[i][j] == board[i][j])
  {
    OverlaidAt(board, current, shadow, ghostColor, i, j);
    if Covers(current.shape, current.x, current.y, i, j) {
      assert CellOk(board, width, height, current.x + (j - current.x), current.y + (i - current.y));
    }
    if Covers(shadow.shape, shadow.x, shadow.y, i, j) {
      assert CellOk(board, width, height, shadow.x + (j - shadow.x), shadow.y + (i - shadow.y));
    }
  }

  /** With both pieces on free cells, as the engine keeps the piece and
      its ghost (the ghost is where a hard drop would land the piece, which
      fits whenever the piece does): locked blocks always stay visible, the
      piece shows on its own cells, the ghost on its cells the piece does
      not cover, and every other cell is the board's. */
  lemma GhostOverlayFacts(board: Grid, width: int, height: int, current: TetrominoState, shadow: TetrominoState,
                          ghostColor: int)
    requires IsRect(board, width, height) && Fits(board, width, height, current) && Fits(board, width, height, shadow)
    ensures
      var out := Overlaid(board, current, shadow, ghostColor);
      && IsRect(out, width, height)
      && (forall i, j :: 0 <= i < height && 0 <= j < width && board[i][j] != 0 ==> out[i][j] == board[i][j])
      && (forall i, j :: 0 <= i < height && 0 <= j < width && Covers(current.shape, current.x, current.y, i, j) ==>
            out[i][j] == current.color)
      && (forall i, j ::
            (0 <= i < height && 0 <= j < width && Covers(shadow.shape, shadow.x, shadow.y, i, j)
             && !Covers(current.shape, current.x, current.y, i, j)) ==> out[i][j] == ghostColor)
      && (forall i, j ::
            (0 <= i < height && 0 <= j < width && !Covers(shadow.shape, shadow.x, shadow.y, i, j)
             && !Covers(current.shape, current.x, current.y, i, j)) ==> out[i][j] == board[i][j])
  {
    forall i, j | 0 <= i < height && 0 <= j < width {
      OverlaidCell(board, width, height, current, shadow, ghostColor, i, j);
    }
  }

  /** `_get_piece_preview`: `[[0]]` without a piece, for an empty shape or
      a shape with no occupied cell; otherwise the box found by the bounds
      scan with its minima starting at the shape's row count and first-row
      length, copied out, or `None` for the IndexError of a row too short
      to copy. */
  method PiecePreview(piece: Option<TetrominoState>)
    returns (preview: Option<Grid>, ghost r0: int, ghost r1: int, ghost c0: int, ghost c1: int)
    ensures piece.None? || piece.value.shape == [] ==> preview == Some([[0]])
    ensures piece.Some? && piece.value.shape != [] ==>
      var shape := piece.value.shape;
      && (!HasFilled(shape) ==> preview == Some([[0]]))
      && (HasFilled(shape) ==>
            && ScanBounds(shape, |shape|, |shape[0]|, r0, r1, c0, c1)
            && 0 <= r0 <= r1 < |shape| && 0 <= c0 <= c1
            && preview == if BoxInside(shape, r0, r1, c0, c1) then Some(Crop(shape, r0, r1, c0, c1)) else None)
  {
    r0, r1, c0, c1 := 0, 0, 0, 0;
    if piece.None? || piece.value.shape == [] {
      return Some([[0]]), r0, r1, c0, c1;
    }
    var shape := piece.value.shape;
    preview, r0, r1, c0, c1 := CropPreview(shape, |shape|, |shape[0]|);
  }

  /** For a shape whose rows all have the first row's length, the scan
      finds the least box holding every occupied cell and the copy never
      fails: the preview is exactly the piece's occupied area. */
  lemma PreviewIsMinimal(shape: Grid, r0: int, r1: int, c0: int, c1: int)
    requires shape != [] && Rectangular(shape)
    requires ScanBounds(shape, |shape|, |shape[0]|, r0, r1, c0, c1) && 0 <= r0 <= r1 < |shape| && 0 <= c0
    ensures MinimalBox(shape, r0, r1, c0, c1)
    ensures BoxInside(shape, r0, r1, c0, c1)
  {
    ScanBoundsMinimal(shape, |shape|, |shape[0]|, r0, r1, c0, c1);
    var r :| Filled(shape, r, c1);
  }
}
