/** Grid geometry shared by both generations of the game: a board is a list
    of rows of ints (0 = empty cell, anything else = the colour of a locked
    block), a piece shape is the same kind of grid whose nonzero cells are
    occupied, and a shape is positioned by the board column `x` and row `y`
    of its top-left cell. */
module Cells {

  import opened Wrappers

  type Grid = seq<seq<int>>

  /** `g` has `height` rows of exactly `width` cells each. */
  predicate IsRect(g: Grid, width: int, height: int) {
    |g| == height && forall i :: 0 <= i < |g| ==> |g[i]| == width
  }

  function ZeroRow(width: nat): (row: seq<int>)
    ensures |row| == width
    ensures forall j :: 0 <= j < width ==> row[j] == 0
  {
    seq(width, _ => 0)
  }

  /** `[[0 for _ in range(width)] for _ in range(count)]` */
  function ZeroRows(width: nat, count: nat): (g: Grid)
    ensures IsRect(g, width, count)
    ensures forall i, j :: 0 <= i < count && 0 <= j < width ==> g[i][j] == 0
  {
    seq(count, _ => ZeroRow(width))
  }

  // ---------------------------------------------------------------------
  // Occupied cells of a positioned shape

  /** Cell (r, c) of the shape exists and is occupied. */
  predicate Filled(shape: Grid, r: int, c: int) {
    0 <= r < |shape| && 0 <= c < |shape[r]| && shape[r][c] != 0
  }

  ghost predicate HasFilled(shape: Grid) {
    exists r, c :: Filled(shape, r, c)
  }

  /** The board cell at row `i`, column `j` lies under an occupied cell of
      the shape placed with its top-left cell at column `x`, row `y`. */
  predicate Covers(shape: Grid, x: int, y: int, i: int, j: int) {
    Filled(shape, i - y, j - x)
  }

  /** Covers, restricted to the shape cells a row-major scan has visited
      before reaching shape cell (r, c). */
  predicate CoversBefore(shape: Grid, x: int, y: int, i: int, j: int, r: int, c: int) {
    Covers(shape, x, y, i, j) && (i - y < r || (i - y == r && j - x < c))
  }

  /** The grid after writing `color` into every board cell covered by the
      shape; with `onlyEmpty` only into covered cells that hold 0. Covered
      cells outside the grid are skipped. */
  function Painted(g: Grid, shape: Grid, x: int, y: int, color: int, onlyEmpty: bool): (r: Grid)
    ensures |r| == |g|
    ensures forall i :: 0 <= i < |g| ==> |r[i]| == |g[i]|
  {
    seq(|g|, i requires 0 <= i < |g| =>
      seq(|g[i]|, j requires 0 <= j < |g[i]| =>
        if Covers(shape, x, y, i, j) && (!onlyEmpty || g[i][j] == 0) then color else g[i][j]))
  }

  lemma PaintedAt(g: Grid, shape: Grid, x: int, y: int, color: int, onlyEmpty: bool, i: int, j: int)
    requires 0 <= i < |g| && 0 <= j < |g[i]|
    ensures Painted(g, shape, x, y, color, onlyEmpty)[i][j] ==
      if Covers(shape, x, y, i, j) && (!onlyEmpty || g[i][j] == 0) then color else g[i][j]
  {
  }

  /** The nested loop every overlay in the source runs: visit the shape's
      cells row by row, and for each occupied one write `color` into the
      board cell below it when that cell is inside the grid (and, with
      `onlyEmpty`, still holds 0). `g` itself is a value: the caller's grid
      is never changed. */
  method Paint(g: Grid, width: int, shape: Grid, x: int, y: int, color: int, onlyEmpty: bool)
    returns (out: Grid)
    requires IsRect(g, width, |g|)
    ensures out == Painted(g, shape, x, y, color, onlyEmpty)
  {
    out := g;
    var r := 0;
    while r < |shape|
      invariant 0 <= r <= |shape|
      invariant IsRect(out, width, |g|)
      invariant forall i, j :: 0 <= i < |g| && 0 <= j < width ==>
        out[i][j] == if CoversBefore(shape, x, y, i, j, r, 0) && (!onlyEmpty || g[i][j] == 0) then color else g[i][j]
    {
      var c := 0;
      while c < |shape[r]|
        invariant 0 <= c <= |shape[r]|
        invariant IsRect(out, width, |g|)
        invariant forall i, j :: 0 <= i < |g| && 0 <= j < width ==>
          out[i][j] == if CoversBefore(shape, x, y, i, j, r, c) && (!onlyEmpty || g[i][j] == 0) then color else g[i][j]
      {
        if shape[r][c] != 0 {
          var boardX, boardY := x + c, y + r;
          if 0 <= boardY < |out| && 0 <= boardX < width && (!onlyEmpty || out[boardY][boardX] == 0) {
            out := out[boardY := out[boardY][boardX := color]];
          }
        }
        c := c + 1;
      }
      r := r + 1;
    }
    var p := Painted(g, shape, x, y, color, onlyEmpty);
    assert forall i :: 0 <= i < |g| ==> out[i] == p[i];
  }

  // ---------------------------------------------------------------------
  // Completed rows

  /** Every cell of the row is nonzero. */
  predicate Complete(row: seq<int>) {
    forall j :: 0 <= j < |row| ==> row[j] != 0
  }

  /** The rows that are not complete, in their original order. */
  function Survivors(rows: Grid): (s: Grid)
    ensures |s| <= |rows|
  {
    if rows == [] then []
    else (if Complete(rows[0]) then [] else [rows[0]]) + Survivors(rows[1..])
  }

  function CountComplete(rows: Grid): nat {
    if rows == [] then 0
    else (if Complete(rows[0]) then 1 else 0) + CountComplete(rows[1..])
  }

  /** The board after removing every complete row and inserting as many
      empty rows at the top. */
  function Cleared(g: Grid, width: nat): Grid {
    ZeroRows(width, |g| - |Survivors(g)|) + Survivors(g)
  }

  /** The number of rows removed is the number of complete rows. */
  lemma {:induction false} SurvivorsCount(rows: Grid)
    ensures |rows| - |Survivors(rows)| == CountComplete(rows)
  {
    if rows != [] {
      SurvivorsCount(rows[1..]);
    }
  }

  /** Each surviving row is an incomplete row of the input... */
  lemma {:induction false} SurvivorsFromInput(rows: Grid)
    ensures forall k :: 0 <= k < |Survivors(rows)| ==>
      Survivors(rows)[k] in rows && !Complete(Survivors(rows)[k])
  {
    if rows != [] {
      SurvivorsFromInput(rows[1..]);
    }
  }

  /** ...and the filter distributes over concatenation, so rows keep their
      relative order: taking survivors of `a + b` is taking those of `a`,
      then those of `b`. */
  lemma {:induction false} SurvivorsAppend(a: Grid, b: Grid)
    ensures Survivors(a + b) == Survivors(a) + Survivors(b)
  {
    if a == [] {
      assert a + b == b;
    } else {
      assert (a + b)[1..] == a[1..] + b;
      SurvivorsAppend(a[1..], b);
    }
  }

  /** A board with no complete row is left as it is. */
  lemma {:induction false} SurvivorsNoComplete(rows: Grid)
    requires CountComplete(rows) == 0
    ensures Survivors(rows) == rows
  {
    if rows != [] {
      SurvivorsNoComplete(rows[1..]);
    }
  }

  /** Clearing keeps the board's dimensions. */
  lemma ClearedRect(g: Grid, width: nat, height: nat)
    requires IsRect(g, width, height)
    ensures IsRect(Cleared(g, width), width, height)
  {
    ClearedProperties(g, width, height);
  }

  /** Clearing keeps the board's dimensions and leaves no complete row
      (rows of positive width: a zero-width row is vacuously complete),
      with the surviving rows at the bottom under empty rows. */
  lemma ClearedProperties(g: Grid, width: nat, height: nat)
    requires IsRect(g, width, height)
    ensures IsRect(Cleared(g, width), width, height)
    ensures width > 0 ==> forall i :: 0 <= i < height ==> !Complete(Cleared(g, width)[i])
    ensures Cleared(g, width)[height - |Survivors(g)|..] == Survivors(g)
    ensures forall i :: 0 <= i < height - |Survivors(g)| ==> Cleared(g, width)[i] == ZeroRow(width)
    ensures height - |Survivors(g)| == CountComplete(g)
  {
    SurvivorsFromInput(g);
    SurvivorsCount(g);
    var c := Cleared(g, width);
    var z := height - |Survivors(g)|;
    forall i | 0 <= i < height
      ensures |c[i]| == width
      ensures width > 0 ==> !Complete(c[i])
    {
      if i < z {
        assert c[i] == ZeroRow(width);
        if width > 0 {
          assert c[i][0] == 0;
        }
      } else {
        assert c[i] == Survivors(g)[i - z];
      }
    }
  }

  /** A board without complete rows is not changed by clearing. */
  lemma ClearedNoComplete(g: Grid, width: nat)
    requires CountComplete(g) == 0
    ensures Cleared(g, width) == g
  {
    SurvivorsNoComplete(g);
  }

  // ---------------------------------------------------------------------
  // Bounding boxes of shapes (piece previews)

  /** Rows r0..r1 and columns c0..c1 (both inclusive) exist in the shape:
      every row of the box is long enough to index column c1. */
  predicate BoxInside(shape: Grid, r0: int, r1: int, c0: int, c1: int) {
    && 0 <= r0 <= r1 < |shape| && 0 <= c0 <= c1
    && forall r :: r0 <= r <= r1 ==> c1 < |shape[r]|
  }

  /** The sub-grid of rows r0..r1 and columns c0..c1, both inclusive. */
  function Crop(shape: Grid, r0: int, r1: int, c0: int, c1: int): (p: Grid)
    requires BoxInside(shape, r0, r1, c0, c1)
    ensures |p| == r1 - r0 + 1
    ensures forall i, j :: 0 <= i < |p| && 0 <= j < c1 - c0 + 1 ==>
      |p[i]| == c1 - c0 + 1 && p[i][j] == shape[r0 + i][c0 + j]
  {
    seq(r1 - r0 + 1, i requires 0 <= i < r1 - r0 + 1 =>
      seq(c1 - c0 + 1, j requires 0 <= j < c1 - c0 + 1 => shape[r0 + i][c0 + j]))
  }

  /** Rows r0..r1 and columns c0..c1 hold every occupied cell. */
  ghost predicate Encloses(shape: Grid, r0: int, r1: int, c0: int, c1: int) {
    forall r, c :: Filled(shape, r, c) ==> r0 <= r <= r1 && c0 <= c <= c1
  }

  /** The least box holding every occupied cell: it encloses them and each
      of its four sides runs through an occupied cell. */
  ghost predicate MinimalBox(shape: Grid, r0: int, r1: int, c0: int, c1: int) {
    && Encloses(shape, r0, r1, c0, c1)
    && (exists c :: Filled(shape, r0, c))
    && (exists c :: Filled(shape, r1, c))
    && (exists r :: Filled(shape, r, c0))
    && (exists r :: Filled(shape, r, c1))
  }

  /** What the min/max accumulator scan of the source computes when its
      minima start at `initRow`/`initCol` and its maxima at -1: the maxima
      are the largest occupied row and column; each minimum is the smaller
      of its start value and the least occupied row or column. */
  ghost predicate ScanBounds(shape: Grid, initRow: int, initCol: int, r0: int, r1: int, c0: int, c1: int) {
    && Encloses(shape, r0, r1, c0, c1)
    && (exists c :: Filled(shape, r1, c))
    && (exists r :: Filled(shape, r, c1))
    && r0 <= initRow && (r0 == initRow || exists c :: Filled(shape, r0, c))
    && c0 <= initCol && (c0 == initCol || exists r :: Filled(shape, r, c0))
  }

  /** When the start values lie beyond every occupied cell the scan finds
      the minimal bounding box. */
  lemma ScanBoundsMinimal(shape: Grid, initRow: int, initCol: int, r0: int, r1: int, c0: int, c1: int)
    requires ScanBounds(shape, initRow, initCol, r0, r1, c0, c1)
    requires forall r, c :: Filled(shape, r, c) ==> r < initRow && c < initCol
    ensures MinimalBox(shape, r0, r1, c0, c1)
  {
    var ra, ca :| Filled(shape, ra, ca);
    assert r0 <= ra < initRow && c0 <= ca < initCol;
  }

  /** There is only one minimal bounding box. */
  lemma MinimalBoxUnique(shape: Grid, r0: int, r1: int, c0: int, c1: int,
                         s0: int, s1: int, d0: int, d1: int)
    requires MinimalBox(shape, r0, r1, c0, c1) && MinimalBox(shape, s0, s1, d0, d1)
    ensures r0 == s0 && r1 == s1 && c0 == d0 && c1 == d1
  {
    var ca :| Filled(shape, r0, ca);
    var cb :| Filled(shape, s0, cb);
    var cc :| Filled(shape, r1, cc);
    var cd :| Filled(shape, s1, cd);
    var ra :| Filled(shape, ra, c0);
    var rb :| Filled(shape, rb, d0);
    var rc :| Filled(shape, rc, c1);
    var rd :| Filled(shape, rd, d1);
  }

  /** The bounds scan of the preview code: a min/max accumulator pass over
      the occupied cells, with the minima starting at `initRow`/`initCol`
      and the maxima at -1. `maxRow` stays -1 exactly when no cell is
      occupied. Rows may have different lengths. */
  method ScanBox(shape: Grid, initRow: int, initCol: int)
    returns (minRow: int, maxRow: int, minCol: int, maxCol: int)
    requires 0 <= initRow && 0 <= initCol
    ensures maxRow == -1 <==> !HasFilled(shape)
    ensures maxRow != -1 ==>
      && ScanBounds(shape, initRow, initCol, minRow, maxRow, minCol, maxCol)
      && 0 <= minRow <= maxRow < |shape| && 0 <= minCol <= maxCol
  {
    minRow, maxRow, minCol, maxCol := initRow, -1, initCol, -1;
    // witnesses: an occupied cell on each side of the box found so far
    ghost var topCol, bottomCol, leftRow, rightRow := 0, 0, 0, 0;
    var r := 0;
    while r < |shape|
      invariant 0 <= r <= |shape|
      invariant 0 <= minRow <= initRow && 0 <= minCol <= initCol
      invariant maxRow == -1 ==> maxCol == -1 && forall rr, cc :: Filled(shape, rr, cc) ==> rr >= r
      invariant maxRow != -1 ==> 0 <= maxRow < r && Filled(shape, maxRow, bottomCol)
      invariant maxRow != -1 ==> Filled(shape, rightRow, maxCol)
      invariant forall rr, cc :: Filled(shape, rr, cc) && rr < r ==>
        minRow <= rr <= maxRow && minCol <= cc <= maxCol
      invariant minRow == initRow || Filled(shape, minRow, topCol)
      invariant minCol == initCol || Filled(shape, leftRow, minCol)
    {
      var c := 0;
      while c < |shape[r]|
        invariant 0 <= c <= |shape[r]|
        invariant 0 <= minRow <= initRow && 0 <= minCol <= initCol
        invariant maxRow == -1 ==> maxCol == -1
        invariant maxRow == -1 ==>
          forall rr, cc :: Filled(shape, rr, cc) ==> rr > r || (rr == r && cc >= c)
        invariant maxRow != -1 ==> 0 <= maxRow <= r && Filled(shape, maxRow, bottomCol)
        invariant maxRow != -1 ==> Filled(shape, rightRow, maxCol)
        invariant forall rr, cc :: Filled(shape, rr, cc) && (rr < r || (rr == r && cc < c)) ==>
          minRow <= rr <= maxRow && minCol <= cc <= maxCol
        invariant minRow == initRow || Filled(shape, minRow, topCol)
        invariant minCol == initCol || Filled(shape, leftRow, minCol)
      {
        if shape[r][c] != 0 {
          if r < minRow { minRow, topCol := r, c; }
          if r > maxRow { maxRow, bottomCol := r, c; }
          if c < minCol { minCol, leftRow := c, r; }
          if c > maxCol { maxCol, rightRow := c, r; }
        }
        c := c + 1;
      }
      r := r + 1;
    }
    if maxRow != -1 {
      assert Filled(shape, leftRow, minCol) || minCol == initCol;
    }
  }

  /** The copy loop of the preview code: the rows r0..r1 and columns
      c0..c1 of the shape, or `None` (the source's IndexError) when one of
      those rows is too short to index column c1. */
  method CopyBox(shape: Grid, r0: int, r1: int, c0: int, c1: int) returns (preview: Option<Grid>)
    requires 0 <= r0 <= r1 < |shape| && 0 <= c0 <= c1
    ensures preview.Some? <==> BoxInside(shape, r0, r1, c0, c1)
    ensures preview.Some? ==> preview.value == Crop(shape, r0, r1, c0, c1)
  {
    var rows: Grid := [];
    var row := r0;
    while row <= r1
      invariant r0 <= row <= r1 + 1
      invariant forall r :: r0 <= r < row ==> c1 < |shape[r]|
      invariant |rows| == row - r0
      invariant forall i :: 0 <= i < |rows| ==> |rows[i]| == c1 - c0 + 1
      invariant forall i, j :: 0 <= i < |rows| && 0 <= j < |rows[i]| ==> rows[i][j] == shape[r0 + i][c0 + j]
    {
      var previewRow := [];
      var col := c0;
      while col <= c1
        invariant c0 <= col <= c1 + 1
        invariant |previewRow| == col - c0
        invariant col > c0 ==> col - 1 < |shape[row]|
        invariant forall j :: 0 <= j < col - c0 ==> previewRow[j] == shape[row][c0 + j]
      {
        if col >= |shape[row]| {
          return None;
        }
        previewRow := previewRow + [shape[row][col]];
        col := col + 1;
      }
      assert c1 < |shape[row]| && |previewRow| == c1 - c0 + 1;
      rows := rows + [previewRow];
      assert rows[row - r0] == previewRow;
      row := row + 1;
    }
    preview := Some(rows);
    var p := Crop(shape, r0, r1, c0, c1);
    assert forall i :: 0 <= i < |rows| ==> rows[i] == p[i];
  }

  /** The preview code shared by the factory and the renderer: the box the
      scan finds, copied out; `[[0]]` when no cell is occupied; `None` when
      the copy indexes past the end of a short row. The bounds are ghost
      outputs so that callers can say which box was cropped. */
  method CropPreview(shape: Grid, initRow: int, initCol: int)
    returns (preview: Option<Grid>, ghost r0: int, ghost r1: int, ghost c0: int, ghost c1: int)
    requires 0 <= initRow && 0 <= initCol
    ensures !HasFilled(shape) ==> preview == Some([[0]])
    ensures HasFilled(shape) ==>
      && ScanBounds(shape, initRow, initCol, r0, r1, c0, c1)
      && 0 <= r0 <= r1 < |shape| && 0 <= c0 <= c1
      && (preview.Some? <==> BoxInside(shape, r0, r1, c0, c1))
    ensures HasFilled(shape) && preview.Some? ==> preview.value == Crop(shape, r0, r1, c0, c1)
  {
    var minRow, maxRow, minCol, maxCol := ScanBox(shape, initRow, initCol);
    r0, r1, c0, c1 := minRow, maxRow, minCol, maxCol;
    if maxRow == -1 {
      preview := Some([[0]]);
    } else {
      preview := CopyBox(shape, minRow, maxRow, minCol, maxCol);
    }
  }
}
