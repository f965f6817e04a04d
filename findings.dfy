/** Two places where the refactored engine does not do what it evidently
    means to, each modelled as written with an input that shows it, next to
    a corrected rule with the intended property proved. */
module Findings {
  import opened Wrappers
  import opened Cells
  import opened Config
  import opened State
  import opened Board
  import opened Factory
  import opened Engine
  import EngineFacts

  // ---------------------------------------------------------------------
  // The tick decides on the lock from the state read before the fall

  /** As written: when the fall is due and succeeds but the state read at
      the start of the tick was grounded with an expired timer, the tick
      locks the piece at its new position, although the fall has just
      cleared the grounded flag. */
  lemma StaleSnapshotLock(env: Env, v: EngineView, now: int, roll: nat)
    requires Ready(env, v)
    requires v.mgr.current.status == Playing && v.mgr.current.currentPiece.Some?
    requires now - v.lastFall >= v.mgr.current.fallSpeed
    requires Fits(v.grid, env.width, env.height, MovePiece(v.mgr.current.currentPiece.value, 0, 1))
    requires !FallStep(env, v, now).raised
    requires v.mgr.current.isGrounded && v.mgr.current.lockTimer > 0
    requires now - v.mgr.current.lockTimer >= v.mgr.current.lockDelay
    ensures
      var fallen := FallStep(env, v, now).view.(lastFall := now);
      && fallen.mgr.current.currentPiece == Some(MovePiece(v.mgr.current.currentPiece.value, 0, 1))
      && !fallen.mgr.current.isGrounded
      && (FallStepReady(env, v, now);
          var l := LockStep(env, fallen, roll);
          TickStep(env, v, now, roll) == if l.raised then l.view else l.view.(lastUpdate := now))
  {
    var s := v.mgr.current;
    var moved := MovePiece(s.currentPiece.value, 0, 1);
    UpdateInstalls(v.mgr, s.(currentPiece := Some(moved),
                             ghostPiece := Some(Drop(v.grid, env.width, env.height, moved)),
                             isGrounded := false, lockTimer := 0, moveResets := 0));
  }

  /** A 4 x 4 board with one block, a ledge at column 1 of row 1. */
  const TickGrid: Grid := [[0, 0, 0, 0], [0, 7, 0, 0], [0, 0, 0, 0], [0, 0, 0, 0]]

  /** A one-cell piece in the top row, grounded earlier while it rested on
      the ledge at column 1 and then moved left to column 0, off the
      ledge (a sideways move keeps the flag), with its lock timer expired
      at the tick at 1000 ms. */
  const TickShape: Grid := [[1]]

  const TickPiece := TetrominoState("O", 0, 0, 0, TickShape, 7)

  const TickCatalogue := Catalogue(["O"], map["O" := PieceConfig(Some([TickShape]), Some(7))])

  const TickState := GameState(Playing, TickGrid, 4, 4, Some(TickPiece), None, None,
                               0, 1, 0, 0, 0, 500, 500, 100, true, 1, 15, 0, 100)

  const TickEnv := Env(4, 4, TickCatalogue, DefaultScoring, DefaultGame)

  const TickView := EngineView(true, 0, 0, TickGrid, ManagerState(TickState, [TickState]))

  lemma TickCatalogueOk()
    ensures CatalogueOk(TickCatalogue) && Ready(TickEnv, TickView)
  {
    assert Filled(TickShape, 0, 0);
  }

  /** On that input the piece moved one row down lies on free cells of
      the board, by the board's rule and by the manager's. */
  lemma TickMovedFits()
    ensures Fits(TickGrid, 4, 4, MovePiece(TickPiece, 0, 1))
    ensures PieceOnBoard(MovePiece(TickPiece, 0, 1), TickGrid)
    ensures BoardOk(TickGrid, 4, 4)
  {
    var g := TickGrid;
    assert forall r, c :: Filled(TickShape, r, c) ==> r == 0 && c == 0;
    assert CellOk(g, 4, 4, 0, 1) && CellFree(g, 0, 1);
  }

  /** On that input the manager accepts the fall to row 1. */
  lemma TickFallTaken()
    ensures Ready(TickEnv, TickView)
    ensures !FallStep(TickEnv, TickView, 1000).raised
  {
    TickCatalogueOk();
    TickMovedFits();
    var g := TickGrid;
    var moved := MovePiece(TickPiece, 0, 1);
    var next := TickState.(currentPiece := Some(moved), ghostPiece := Some(Drop(g, 4, 4, moved)),
                           isGrounded := false, lockTimer := 0, moveResets := 0);
    assert StateCheck(TickState, next) == None;
  }

  /** That input meets every condition of `StaleSnapshotLock` at the tick
      at 1000 ms, and after its fall to row 1 the piece could still fall
      further: the tick locks it in mid-air. */
  lemma StaleSnapshotExample()
    ensures Ready(TickEnv, TickView)
    ensures TickState.status == Playing && TickState.currentPiece == Some(TickPiece)
    ensures 1000 - TickView.lastFall >= TickState.fallSpeed
    ensures Fits(TickView.grid, 4, 4, MovePiece(TickPiece, 0, 1))
    ensures !FallStep(TickEnv, TickView, 1000).raised
    ensures TickState.isGrounded && TickState.lockTimer > 0 && 1000 - TickState.lockTimer >= TickState.lockDelay
    ensures Fits(TickView.grid, 4, 4, MovePiece(TickPiece, 0, 2))
  {
    TickFallTaken();
    assert forall r, c :: Filled(TickShape, r, c) ==> r == 0 && c == 0;
  }

  /** The grid that tick leaves: locking the moved piece into the ledge
      board fills row 1 of column 0 and clears nothing. */
  lemma TickLockedGrid()
    ensures Cleared(Painted(TickGrid, TickShape, 0, 1, 7, false), 4) ==
            [[0, 0, 0, 0], [7, 7, 0, 0], [0, 0, 0, 0], [0, 0, 0, 0]]
  {
    var placed := Painted(TickGrid, TickShape, 0, 1, 7, false);
    var locked: Grid := [[0, 0, 0, 0], [7, 7, 0, 0], [0, 0, 0, 0], [0, 0, 0, 0]];
    forall i, j | 0 <= i < 4 && 0 <= j < 4
      ensures placed[i][j] == locked[i][j]
    {
      PaintedAt(TickGrid, TickShape, 0, 1, 7, false, i, j);
    }
    forall i | 0 <= i < 4
      ensures placed[i] == locked[i]
    {
      assert |placed[i]| == |TickGrid[i]| == 4;
    }
    assert placed == locked;
    assert CountComplete(locked) == 0 by {
      assert locked[0][0] == 0 && locked[1][2] == 0 && locked[2][0] == 0 && locked[3][0] == 0;
      assert !Complete(locked[0]) && !Complete(locked[1]) && !Complete(locked[2]) && !Complete(locked[3]);
    }
    SurvivorsNoComplete(locked);
  }

  /** The tick's grid is the grid of the lock that follows the fall. */
  lemma TickGridIsLockGrid()
    ensures Ready(TickEnv, TickView) && Ready(TickEnv, FallStep(TickEnv, TickView, 1000).view)
    ensures
      var fallen := FallStep(TickEnv, TickView, 1000).view.(lastFall := 1000);
      && fallen.grid == TickGrid
      && fallen.mgr.current.currentPiece == Some(MovePiece(TickPiece, 0, 1))
      && TickStep(TickEnv, TickView, 1000, 0).grid == LockStep(TickEnv, fallen, 0).view.grid
  {
    StaleSnapshotExample();
    StaleSnapshotLock(TickEnv, TickView, 1000, 0);
    FallStepReady(TickEnv, TickView, 1000);
  }

  /** After that tick the piece is locked at row 1 of column 0, beside the
      ledge, with the two rows below it still empty. */
  lemma StaleSnapshotGrid()
    ensures Ready(TickEnv, TickView)
    ensures TickStep(TickEnv, TickView, 1000, 0).grid == [[0, 0, 0, 0], [7, 7, 0, 0], [0, 0, 0, 0], [0, 0, 0, 0]]
  {
    TickGridIsLockGrid();
    var fallen := FallStep(TickEnv, TickView, 1000).view.(lastFall := 1000);
    TickMovedFits();
    EngineFacts.LockFacts(TickEnv, fallen, 0);
    TickLockedGrid();
  }

  /** Corrected: the lock check reads the state left by the fall. */
  ghost function FreshTickStep(env: Env, v: EngineView, now: int, roll: nat): EngineView
    requires Ready(env, v)
  {
    var s := v.mgr.current;
    if s.status != Playing then v
    else
      var fallDue := now - v.lastFall >= s.fallSpeed;
      var f := if fallDue then FallStep(env, v, now) else Step(v, false);
      if f.raised then f.view
      else
        var v1 := if fallDue then f.view.(lastFall := now) else f.view;
        var s1 := v1.mgr.current;
        var lockDue := s1.isGrounded && s1.lockTimer > 0 && now - s1.lockTimer >= s1.lockDelay;
        FallStepReady(env, v, now);
        var l := if lockDue then LockStep(env, v1, roll) else Step(v1, false);
        if l.raised then l.view else l.view.(lastUpdate := now)
  }

  /** With the corrected tick a piece that has just fallen is never
      locked in the same tick: the grid is untouched; and a tick without a
      due fall behaves exactly as the source's. */
  lemma FreshTickNoLockAfterFall(env: Env, v: EngineView, now: int, roll: nat)
    requires Ready(env, v)
    ensures
      var s := v.mgr.current;
      s.status == Playing && s.currentPiece.Some? && now - v.lastFall >= s.fallSpeed
        && Fits(v.grid, env.width, env.height, MovePiece(s.currentPiece.value, 0, 1)) ==>
        && FreshTickStep(env, v, now, roll).grid == v.grid
        && (!FallStep(env, v, now).raised ==>
              FreshTickStep(env, v, now, roll) == FallStep(env, v, now).view.(lastFall := now, lastUpdate := now))
    ensures now - v.lastFall < v.mgr.current.fallSpeed ==> FreshTickStep(env, v, now, roll) == TickStep(env, v, now, roll)
  {
    var s := v.mgr.current;
    if s.currentPiece.Some? {
      var moved := MovePiece(s.currentPiece.value, 0, 1);
      UpdateInstalls(v.mgr, s.(currentPiece := Some(moved),
                               ghostPiece := Some(Drop(v.grid, env.width, env.height, moved)),
                               isGrounded := false, lockTimer := 0, moveResets := 0));
    }
  }

  /** On the example input the corrected tick only lets the piece fall:
      the grid keeps just the ledge. */
  lemma FreshTickExample()
    ensures CatalogueOk(TickCatalogue) && Ready(TickEnv, TickView)
    ensures FreshTickStep(TickEnv, TickView, 1000, 0).grid == TickGrid
  {
    TickCatalogueOk();
    assert forall r, c :: Filled(TickShape, r, c) ==> r == 0 && c == 0;
    assert Fits(TickView.grid, 4, 4, MovePiece(TickPiece, 0, 1));
    FreshTickNoLockAfterFall(TickEnv, TickView, 1000, 0);
  }

  // ---------------------------------------------------------------------
  // The manager refuses positions left of column 0 that the board accepts

  /** As written: a fitting candidate whose shape has empty leading
      columns may stand at a negative column on the board, but the
      manager insists on a non-negative origin, so the move raises and
      nothing changes. */
  lemma NegativeColumnRefused(env: Env, v: EngineView, candidate: TetrominoState, now: int, roll: nat)
    requires Ready(env, v) && Droppable(candidate.shape)
    requires Fits(v.grid, env.width, env.height, candidate) && candidate.x < 0
    requires !v.mgr.current.isGrounded
    ensures ShiftStep(env, v, candidate, now, roll) == Step(v, true)
  {
  }

  /** The fallback O piece, whose column 0 is empty, one step left of the
      wall. */
  const FallbackO := TetrominoState("O", -1, 0, 0, FallbackO0, 3)

  /** The board accepts it at column -1 of an empty 10 x 20 board (its
      cells are in columns 0 and 1), the manager does not: the O piece can
      never reach the left wall. */
  lemma OPieceLeftWall()
    ensures Fits(ZeroRows(10, 20), 10, 20, FallbackO)
    ensures !PieceOnBoard(FallbackO, ZeroRows(10, 20))
    ensures PieceInside(FallbackO, ZeroRows(10, 20))
  {
    var g := ZeroRows(10, 20);
    forall r, c | Filled(FallbackO0, r, c)
      ensures 0 <= r < 2 && 1 <= c <= 2
    {
    }
    assert forall r, c :: Filled(FallbackO0, r, c) ==> CellOk(g, 10, 20, -1 + c, r);
  }

  /** Corrected: the manager's rule checks every occupied cell and nothing
      else, so the origin may lie outside the board. */
  ghost predicate PieceInside(piece: TetrominoState, board: Grid) {
    forall r, c :: Filled(piece.shape, r, c) ==> CellFree(board, piece.x + c, piece.y + r)
  }

  /** The corrected rule agrees with the board's rule exactly, for every
      nonempty shape that does not reach above the top row; the source's
      rule is stricter than both. */
  lemma PieceInsideAgreesWithBoard(board: Grid, width: int, height: int, p: TetrominoState)
    requires IsRect(board, width, height)
    requires p.shape != [] && p.y >= 0
    ensures Fits(board, width, height, p) <==> PieceInside(p, board)
    ensures PieceOnBoard(p, board) ==> PieceInside(p, board)
  {
    if Fits(board, width, height, p) {
      forall r, c | Filled(p.shape, r, c)
        ensures CellFree(board, p.x + c, p.y + r)
      {
        assert CellOk(board, width, height, p.x + c, p.y + r);
      }
    }
    if PieceInside(p, board) {
      forall r, c | Filled(p.shape, r, c)
        ensures CellOk(board, width, height, p.x + c, p.y + r)
      {
        assert CellFree(board, p.x + c, p.y + r);
      }
    }
  }
}
