/** The original game's pieces: literal rotation tables of `'#'`/`'.'`
    strings and one colour per kind. A piece carries its kind, the rotation
    states and colour it took from the tables when it was made, a rotation
    index, and the board column `x` and row `y` of its top-left cell.
    Rotating or moving builds a new piece and leaves the old one as it
    was. */
module ClassicTetromino {

  datatype Kind = I | O | T | S | Z | J | L

  /** The kinds in the order of the shape table, the list a random piece is
      drawn from. */
  const Kinds: seq<Kind> := [I, O, T, S, Z, J, L]

  /** The rotation states of each kind. */
  function Shapes(k: Kind): (states: seq<seq<string>>)
    ensures |states| == 1 || |states| == 2 || |states| == 4
  {
    match k
    case I => [["....", "####", "....", "...."],
               ["..#.", "..#.", "..#.", "..#."],
               ["....", "....", "####", "...."],
               [".#..", ".#..", ".#..", ".#.."]]
    case O => [["##", "##"]]
    case T => [[".#.", "###", "..."],
               [".#.", ".##", ".#."],
               ["...", "###", ".#."],
               [".#.", "##.", ".#."]]
    case S => [[".##", "##.", "..."],
               [".#.", ".##", "..#"]]
    case Z => [["##.", ".##", "..."],
               ["..#", ".##", ".#."]]
    case J => [["#..", "###", "..."],
               [".##", ".#.", ".#."],
               ["...", "###", "..#"],
               [".#.", ".#.", "##."]]
    case L => [["..#", "###", "..."],
               [".#.", ".#.", ".##"],
               ["...", "###", "#.."],
               ["##.", ".#.", ".#."]]
  }

  function Color(k: Kind): (c: int)
    ensures 1 <= c <= 7
  {
    match k
    case I => 1
    case O => 2
    case T => 3
    case S => 4
    case Z => 5
    case J => 6
    case L => 7
  }

  datatype Tetromino = Tetromino(kind: Kind, shapes: seq<seq<string>>, color: int, rotation: int, x: int, y: int)

  /** `Tetromino(shape_type)`: the kind's states and colour, rotation 0, at
      column 3 of the top row. */
  function NewTetromino(k: Kind): (t: Tetromino)
    ensures t.kind == k && t.shapes == Shapes(k) && t.color == Color(k)
    ensures t.rotation == 0 && t.x == 3 && t.y == 0
  {
    Tetromino(k, Shapes(k), Color(k), 0, 3, 0)
  }

  /** `Tetromino()` without a type: the kind the random draw `roll` picks
      from the table's kinds. */
  function RandomTetromino(roll: nat): (t: Tetromino)
    ensures t.kind in Kinds && t.kind == Kinds[roll % 7]
    ensures t.shapes == Shapes(t.kind) && t.color == Color(t.kind)
    ensures t.rotation == 0 && t.x == 3 && t.y == 0
  {
    NewTetromino(Kinds[roll % |Kinds|])
  }

  /** `len(self.shapes)`. */
  function RotationCount(t: Tetromino): nat {
    |t.shapes|
  }

  /** `r % n` for the state counts 1, 2 and 4 of the tables, written out
      so that the divisor is a constant. Python's `%` and Dafny's agree for
      a positive divisor: the result is never negative, so rotating left
      from state 0 gives the last state. A piece without states, which the
      tables never produce (Python would raise ZeroDivisionError), gets 0. */
  function Wrap(n: nat, r: int): (i: int)
    ensures n > 0 ==> 0 <= i < n
    ensures n == 1 ==> i == 0
    ensures n == 0 ==> i == 0
    ensures 0 <= r < n ==> i == r
    ensures n > 0 && r == n ==> i == 0
    ensures n > 0 && r == -1 ==> i == n - 1
  {
    if n == 0 || n == 1 then 0
    else if n == 2 then r % 2
    else if n == 4 then r % 4
    else ModEdges(n, r); r % n
  }

  /** The three remainders a rotation step meets: an index already in
      range, one past the last state, and one before the first. */
  lemma ModEdges(n: nat, r: int)
    requires n > 0
    ensures 0 <= r < n ==> r % n == r
    ensures r == n ==> r % n == 0
    ensures r == -1 ==> r % n == n - 1
  {
  }

  /** `get_current_shape`: the rotation index is taken modulo the number
      of states, so any index names a state. */
  function CurrentShape(t: Tetromino): (state: seq<string>)
    ensures t.shapes != [] ==> state in t.shapes
    ensures 0 <= t.rotation < |t.shapes| ==> state == t.shapes[t.rotation]
    ensures t.shapes == [] ==> state == []
  {
    if t.shapes == [] then [] else t.shapes[Wrap(|t.shapes|, t.rotation)]
  }

  /** `rotate_right`: the next state, wrapping from the last to the first;
      nothing but the index changes. */
  function RotateRight(t: Tetromino): (r: Tetromino)
    ensures r == t.(rotation := r.rotation)
    ensures t.shapes != [] ==> 0 <= r.rotation < |t.shapes|
    ensures 0 <= t.rotation < |t.shapes| - 1 ==> r.rotation == t.rotation + 1
    ensures t.rotation == |t.shapes| - 1 ==> r.rotation == 0
  {
    t.(rotation := Wrap(|t.shapes|, t.rotation + 1))
  }

  /** `rotate_left`: the previous state, wrapping from the first to the
      last; nothing but the index changes. */
  function RotateLeft(t: Tetromino): (r: Tetromino)
    ensures r == t.(rotation := r.rotation)
    ensures t.shapes != [] ==> 0 <= r.rotation < |t.shapes|
    ensures 0 < t.rotation < |t.shapes| ==> r.rotation == t.rotation - 1
    ensures t.rotation == 0 && t.shapes != [] ==> r.rotation == |t.shapes| - 1
  {
    t.(rotation := Wrap(|t.shapes|, t.rotation - 1))
  }

  /** `move`: the piece shifted by (dx, dy), nothing else changed. */
  function Move(t: Tetromino, dx: int, dy: int): (m: Tetromino)
    ensures m == t.(x := m.x, y := m.y)
    ensures m.x - t.x == dx && m.y - t.y == dy
  {
    t.(x := t.x + dx, y := t.y + dy)
  }

  /** Rotating right `k` times. */
  function RotateRightTimes(t: Tetromino, k: nat): Tetromino {
    if k == 0 then t else RotateRight(RotateRightTimes(t, k - 1))
  }

  // ---------------------------------------------------------------------
  // What the tables guarantee

  /** One rotation state: four blocks within a 4 x 4 box. */
  predicate StateOk(state: seq<string>) {
    && ShapeCount(state, 0) == 4
    && |state| <= 4
    && forall r :: 0 <= r < |state| ==> |state[r]| <= 4
  }

  /** A piece as the tables make it: 1, 2 or 4 rotation states, each
      with four blocks in a 4 x 4 box, and a colour from 1 to 7. */
  predicate WellFormed(t: Tetromino) {
    && (|t.shapes| == 1 || |t.shapes| == 2 || |t.shapes| == 4)
    && (forall i {:trigger StateOk(t.shapes[i])} :: 0 <= i < |t.shapes| ==> StateOk(t.shapes[i]))
    && 1 <= t.color <= 7
  }

  /** Every piece built from the tables is well formed. */
  lemma NewWellFormed(k: Kind)
    ensures WellFormed(NewTetromino(k))
  {
    forall i | 0 <= i < |Shapes(k)|
      ensures StateOk(Shapes(k)[i])
    {
      StatesHaveFourBlocks(k, i);
      StatesInBox(k, i);
    }
  }

  /** The state a well-formed piece shows is one of its table states. */
  lemma CurrentStateOk(t: Tetromino)
    requires WellFormed(t)
    ensures StateOk(CurrentShape(t))
  {
    assert StateOk(t.shapes[Wrap(|t.shapes|, t.rotation)]);
  }

  /** A piece as `Tetromino()` returns it: well formed, in rotation 0, at
      column 3 of the top row. */
  predicate Drawn(t: Tetromino) {
    WellFormed(t) && t.rotation == 0 && t.x == 3 && t.y == 0
  }

  /** Every random draw gives such a piece. */
  lemma RandomDrawn(roll: nat)
    ensures Drawn(RandomTetromino(roll))
  {
    NewWellFormed(Kinds[roll % |Kinds|]);
  }

  // ---------------------------------------------------------------------
  // Rotation and movement laws

  /** Adding one to a reduced index and reducing again is reducing the
      successor. */
  lemma WrapSucc(n: nat, a: int)
    requires n == 1 || n == 2 || n == 4
    ensures Wrap(n, Wrap(n, a) + 1) == Wrap(n, a + 1)
  {
  }

  /** Each right rotation advances the index by one modulo the number of
      states, keeping everything else. */
  lemma {:induction false} RotateRightTimesIndex(t: Tetromino, k: nat)
    requires WellFormed(t)
    ensures RotateRightTimes(t, k) == t.(rotation := if k == 0 then t.rotation else Wrap(|t.shapes|, t.rotation + k))
  {
    if k > 1 {
      RotateRightTimesIndex(t, k - 1);
      WrapSucc(|t.shapes|, t.rotation + k - 1);
    }
  }

  /** A full turn: rotating right as many times as the piece has states
      gives back the same piece. */
  lemma FullTurn(t: Tetromino)
    requires WellFormed(t) && 0 <= t.rotation < RotationCount(t)
    ensures RotateRightTimes(t, RotationCount(t)) == t
  {
    RotateRightTimesIndex(t, RotationCount(t));
  }

  /** Rotating left undoes rotating right, and the other way round. */
  lemma RotationsCancel(t: Tetromino)
    requires WellFormed(t) && 0 <= t.rotation < RotationCount(t)
    ensures RotateLeft(RotateRight(t)) == t
    ensures RotateRight(RotateLeft(t)) == t
  {
  }

  /** Moving and rotating keep a piece well formed. */
  lemma StepsKeepWellFormed(t: Tetromino, dx: int, dy: int)
    requires WellFormed(t)
    ensures WellFormed(Move(t, dx, dy)) && WellFormed(RotateRight(t)) && WellFormed(RotateLeft(t))
  {
  }

  // ---------------------------------------------------------------------
  // Occupied blocks

  type Pos = (int, int)

  /** A shape character that is neither `'.'` nor `' '` is a block. */
  predicate IsBlock(ch: char) {
    ch != '.' && ch != ' '
  }

  /** The blocks of one shape row from character `c` on, drawn at column
      `x`, row `y`, left to right. */
  function RowCells(row: string, c: nat, x: int, y: int): seq<Pos>
    requires c <= |row|
    decreases |row| - c
  {
    if c == |row| then []
    else (if IsBlock(row[c]) then [(x + c, y)] else []) + RowCells(row, c + 1, x, y)
  }

  /** The blocks of the shape's rows from row `r` on, drawn with the
      shape's top-left cell at column `x`, row `y`, row by row. */
  function ShapeCells(shape: seq<string>, r: nat, x: int, y: int): seq<Pos>
    requires r <= |shape|
    decreases |shape| - r
  {
    if r == |shape| then []
    else RowCells(shape[r], 0, x, y + r) + ShapeCells(shape, r + 1, x, y)
  }

  /** The board cells the piece occupies, in the order `get_blocks` lists
      them. */
  function Blocks(t: Tetromino): seq<Pos> {
    ShapeCells(CurrentShape(t), 0, t.x, t.y)
  }

  /** `get_blocks`: the blocks of the piece's current rotation state. */
  method GetBlocks(t: Tetromino) returns (blocks: seq<Pos>)
    ensures blocks == Blocks(t)
  {
    blocks := ShapeBlocks(CurrentShape(t), t.x, t.y);
  }

  /** The loop of `get_blocks`: over rows and characters, appending the
      board position of each block. */
  method ShapeBlocks(shape: seq<string>, x: int, y: int) returns (blocks: seq<Pos>)
    ensures blocks == ShapeCells(shape, 0, x, y)
  {
    ghost var full := ShapeCells(shape, 0, x, y);
    blocks := [];
    var r := 0;
    while r < |shape|
      invariant 0 <= r <= |shape|
      invariant full == blocks + ShapeCells(shape, r, x, y)
    {
      var row := shape[r];
      var c := 0;
      while c < |row|
        invariant 0 <= c <= |row|
        invariant full == blocks + RowCells(row, c, x, y + r) + ShapeCells(shape, r + 1, x, y)
      {
        if IsBlock(row[c]) {
          blocks := blocks + [(x + c, y + r)];
        }
        c := c + 1;
      }
      r := r + 1;
    }
  }

  /** The number of blocks in a row from character `c` on, and in a shape
      from row `r` on; neither depends on where the shape is drawn. */
  function RowCount(row: string, c: nat): nat
    requires c <= |row|
    decreases |row| - c
  {
    if c == |row| then 0 else (if IsBlock(row[c]) then 1 else 0) + RowCount(row, c + 1)
  }

  function ShapeCount(shape: seq<string>, r: nat): nat
    requires r <= |shape|
    decreases |shape| - r
  {
    if r == |shape| then 0 else RowCount(shape[r], 0) + ShapeCount(shape, r + 1)
  }

  lemma {:induction false} RowCellsCount(row: string, c: nat, x: int, y: int)
    requires c <= |row|
    ensures |RowCells(row, c, x, y)| == RowCount(row, c)
    decreases |row| - c
  {
    if c < |row| {
      RowCellsCount(row, c + 1, x, y);
    }
  }

  lemma {:induction false} ShapeCellsCount(shape: seq<string>, r: nat, x: int, y: int)
    requires r <= |shape|
    ensures |ShapeCells(shape, r, x, y)| == ShapeCount(shape, r)
    decreases |shape| - r
  {
    if r < |shape| {
      ShapeCellsCount(shape, r + 1, x, y);
      RowCellsCount(shape[r], 0, x, y + r);
    }
  }

 /** Every rotation state of every kind has exactly four blocks, counted
      state by state. */
  lemma StatesHaveFourBlocks(k: Kind, i: int)
    requires 0 <= i < |Shapes(k)|
    ensures ShapeCount(Shapes(k)[i], 0) == 4
  {
    match k
    case I => IHasFourBlocks(i);
    case O => OHasFourBlocks(i);
    case T => THasFourBlocks(i);
    case S => SHasFourBlocks(i);
    case Z => ZHasFourBlocks(i);
    case J => JHasFourBlocks(i);
    case L => LHasFourBlocks(i);
  }

  lemma IHasFourBlocks(i: int)
    requires 0 <= i < |Shapes(I)|
    ensures ShapeCount(Shapes(I)[i], 0) == 4
  {
    if i == 0 {
      assert ShapeCount(Shapes(I)[0], 0) == 4;
    } else if i == 1 {
      assert ShapeCount(Shapes(I)[1], 0) == 4;
    } else if i == 2 {
      assert ShapeCount(Shapes(I)[2], 0) == 4;
    } else {
      assert ShapeCount(Shapes(I)[3], 0) == 4;
    }
  }

  lemma OHasFourBlocks(i: int)
    requires 0 <= i < |Shapes(O)|
    ensures ShapeCount(Shapes(O)[i], 0) == 4
  {
    assert ShapeCount(Shapes(O)[0], 0) == 4;
  }

  lemma THasFourBlocks(i: int)
    requires 0 <= i < |Shapes(T)|
    ensures ShapeCount(Shapes(T)[i], 0) == 4
  {
    if i == 0 {
      assert ShapeCount(Shapes(T)[0], 0) == 4;
    } else if i == 1 {
      assert ShapeCount(Shapes(T)[1], 0) == 4;
    } else if i == 2 {
      assert ShapeCount(Shapes(T)[2], 0) == 4;
    } else {
      assert ShapeCount(Shapes(T)[3], 0) == 4;
    }
  }

  lemma SHasFourBlocks(i: int)
    requires 0 <= i < |Shapes(S)|
    ensures ShapeCount(Shapes(S)[i], 0) == 4
  {
    if i == 0 {
      assert ShapeCount(Shapes(S)[0], 0) == 4;
    } else {
      assert ShapeCount(Shapes(S)[1], 0) == 4;
    }
  }

  lemma ZHasFourBlocks(i: int)
    requires 0 <= i < |Shapes(Z)|
    ensures ShapeCount(Shapes(Z)[i], 0) == 4
  {
    if i == 0 {
      assert ShapeCount(Shapes(Z)[0], 0) == 4;
    } else {
      assert ShapeCount(Shapes(Z)[1], 0) == 4;
    }
  }

  lemma JHasFourBlocks(i: int)
    requires 0 <= i < |Shapes(J)|
    ensures ShapeCount(Shapes(J)[i], 0) == 4
  {
    if i == 0 {
      assert ShapeCount(Shapes(J)[0], 0) == 4;
    } else if i == 1 {
      assert ShapeCount(Shapes(J)[1], 0) == 4;
    } else if i == 2 {
      assert ShapeCount(Shapes(J)[2], 0) == 4;
    } else {
      assert ShapeCount(Shapes(J)[3], 0) == 4;
    }
  }

  lemma LHasFourBlocks(i: int)
    requires 0 <= i < |Shapes(L)|
    ensures ShapeCount(Shapes(L)[i], 0) == 4
  {
    if i == 0 {
      assert ShapeCount(Shapes(L)[0], 0) == 4;
    } else if i == 1 {
      assert ShapeCount(Shapes(L)[1], 0) == 4;
    } else if i == 2 {
      assert ShapeCount(Shapes(L)[2], 0) == 4;
    } else {
      assert ShapeCount(Shapes(L)[3], 0) == 4;
    }
  }

  /** So `get_blocks` always lists four positions. */
  lemma FourBlocks(t: Tetromino)
    requires WellFormed(t)
    ensures |Blocks(t)| == 4
  {
    CurrentStateOk(t);
    ShapeCellsCount(CurrentShape(t), 0, t.x, t.y);
  }

  /** Every position shifted by (dx, dy). */
  function Shifted(bs: seq<Pos>, dx: int, dy: int): (s: seq<Pos>)
    ensures |s| == |bs|
    ensures forall i :: 0 <= i < |bs| ==> s[i] == (bs[i].0 + dx, bs[i].1 + dy)
  {
    seq(|bs|, i requires 0 <= i < |bs| => (bs[i].0 + dx, bs[i].1 + dy))
  }

  /** Shifting distributes over concatenation. */
  lemma ShiftedConcat(a: seq<Pos>, b: seq<Pos>, dx: int, dy: int)
    ensures Shifted(a + b, dx, dy) == Shifted(a, dx, dy) + Shifted(b, dx, dy)
  {
    var l, r := Shifted(a + b, dx, dy), Shifted(a, dx, dy) + Shifted(b, dx, dy);
    assert |l| == |r|;
    forall i | 0 <= i < |l|
      ensures l[i] == r[i]
    {
      if i < |a| {
        assert (a + b)[i] == a[i];
      } else {
        assert (a + b)[i] == b[i - |a|];
      }
    }
  }

  lemma {:induction false} RowCellsShift(row: string, c: nat, x: int, y: int, dx: int, dy: int)
    requires c <= |row|
    ensures RowCells(row, c, x + dx, y + dy) == Shifted(RowCells(row, c, x, y), dx, dy)
    decreases |row| - c
  {
    if c < |row| {
      RowCellsShift(row, c + 1, x, y, dx, dy);
      var head: seq<Pos> := if IsBlock(row[c]) then [(x + c, y)] else [];
      ShiftedConcat(head, RowCells(row, c + 1, x, y), dx, dy);
    }
  }

  lemma {:induction false} ShapeCellsShift(shape: seq<string>, r: nat, x: int, y: int, dx: int, dy: int)
    requires r <= |shape|
    ensures ShapeCells(shape, r, x + dx, y + dy) == Shifted(ShapeCells(shape, r, x, y), dx, dy)
    decreases |shape| - r
  {
    if r < |shape| {
      ShapeCellsShift(shape, r + 1, x, y, dx, dy);
      RowCellsShift(shape[r], 0, x, y + r, dx, dy);
      ShiftedConcat(RowCells(shape[r], 0, x, y + r), ShapeCells(shape, r + 1, x, y), dx, dy);
    }
  }

  /** A moved piece keeps its kind and rotation, and its blocks are the
      original blocks shifted by the move. */
  lemma MoveShiftsBlocks(t: Tetromino, dx: int, dy: int)
    ensures Move(t, dx, dy).kind == t.kind && Move(t, dx, dy).shapes == t.shapes && Move(t, dx, dy).rotation == t.rotation
    ensures Blocks(Move(t, dx, dy)) == Shifted(Blocks(t), dx, dy)
  {
    MoveKeepsShape(t, dx, dy);
    ShapeCellsShift(CurrentShape(t), 0, t.x, t.y, dx, dy);
  }

  /** A move keeps the rotation state. */
  lemma MoveKeepsShape(t: Tetromino, dx: int, dy: int)
    ensures CurrentShape(Move(t, dx, dy)) == CurrentShape(t)
    ensures Move(t, dx, dy).x == t.x + dx && Move(t, dx, dy).y == t.y + dy
  {
  }

  /** Every block of a row lies on that row. */
  lemma {:induction false} RowCellsOnRow(row: string, c: nat, x: int, y: int)
    requires c <= |row|
    ensures forall i :: 0 <= i < |RowCells(row, c, x, y)| ==> RowCells(row, c, x, y)[i].1 == y
    decreases |row| - c
  {
    if c < |row| {
      RowCellsOnRow(row, c + 1, x, y);
    }
  }

  /** Every block of the shape's rows from `r` on lies at or below row
      `y + r`. */
  lemma {:induction false} ShapeCellsBelow(shape: seq<string>, r: nat, x: int, y: int)
    requires r <= |shape|
    ensures forall i :: 0 <= i < |ShapeCells(shape, r, x, y)| ==> ShapeCells(shape, r, x, y)[i].1 >= y + r
    decreases |shape| - r
  {
    if r < |shape| {
      ShapeCellsBelow(shape, r + 1, x, y);
      RowCellsOnRow(shape[r], 0, x, y + r);
    }
  }

  /** Every block of a row lies between column `x + c` and the row's end. */
  lemma {:induction false} RowCellsColumns(row: string, c: nat, x: int, y: int)
    requires c <= |row|
    ensures forall i :: 0 <= i < |RowCells(row, c, x, y)| ==>
      x + c <= RowCells(row, c, x, y)[i].0 < x + |row| && RowCells(row, c, x, y)[i].1 == y
    decreases |row| - c
  {
    if c < |row| {
      RowCellsColumns(row, c + 1, x, y);
    }
  }

  /** The shape's rows from `r` on, all at most `w` long, put their blocks
      in columns `x` to `x + w - 1` and rows `y + r` to `y + |shape| - 1`. */
  lemma {:induction false} ShapeCellsArea(shape: seq<string>, r: nat, x: int, y: int, w: int)
    requires r <= |shape|
    requires forall k :: 0 <= k < |shape| ==> |shape[k]| <= w
    ensures forall i :: 0 <= i < |ShapeCells(shape, r, x, y)| ==>
      && x <= ShapeCells(shape, r, x, y)[i].0 < x + w
      && y + r <= ShapeCells(shape, r, x, y)[i].1 < y + |shape|
    decreases |shape| - r
  {
    if r < |shape| {
      ShapeCellsArea(shape, r + 1, x, y, w);
      RowCellsColumns(shape[r], 0, x, y + r);
    }
  }

  /** Every rotation state fits a 4 x 4 box. */
  lemma StatesInBox(k: Kind, i: int)
    requires 0 <= i < |Shapes(k)|
    ensures |Shapes(k)[i]| <= 4 && forall r :: 0 <= r < |Shapes(k)[i]| ==> |Shapes(k)[i][r]| <= 4
  {
  }

  /** A piece's blocks lie in the four columns and four rows from its
      origin. */
  lemma BlocksInBox(t: Tetromino)
    requires WellFormed(t)
    ensures forall i :: 0 <= i < |Blocks(t)| ==>
      t.x <= Blocks(t)[i].0 < t.x + 4 && t.y <= Blocks(t)[i].1 < t.y + 4
  {
    CurrentStateOk(t);
    ShapeCellsArea(CurrentShape(t), 0, t.x, t.y, 4);
  }

  /** A piece occupies some cell at or below its row `y`. */
  lemma SomeBlockBelowTop(t: Tetromino)
    requires WellFormed(t)
    ensures |Blocks(t)| > 0 && Blocks(t)[0].1 >= t.y
  {
    FourBlocks(t);
    ShapeCellsBelow(CurrentShape(t), 0, t.x, t.y);
  }
}
