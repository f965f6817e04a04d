/** What the refactored engine's steps guarantee: the lock places, clears
    and scores at the level from before the clear; the spawn promotes the
    next piece or ends the game; moves and rotations either do nothing,
    spend a lock-delay reset or lock the piece; a hard drop lands the piece
    and scores two points per row; and the input dispatch and the tick only
    act while playing. */
module EngineFacts {
  import opened Wrappers
  import opened Cells
  import opened State
  import opened Board
  import opened Factory
  import opened Scoring
  import opened Engine

  /** A state that passes the manager's checks against its own dimensions:
      every state the manager accepted keeps this while the dimensions do
      not change. */
  ghost predicate SelfValid(s: GameState) {
    StateCheck(s, s).None?
  }

  /** A status change of a self-valid state is always accepted. */
  lemma StatusChangeAccepted(m: ManagerState, status: GameStatus)
    requires SelfValid(m.current)
    ensures Update(m, m.current.(status := status)).Ok?
    ensures Update(m, m.current.(status := status)).value.current == m.current.(status := status)
  {
  }

  /** An accepted update that keeps the dimensions stays self-valid. */
  lemma AcceptedStaysSelfValid(m: ManagerState, s: GameState)
    requires s.boardWidth == m.current.boardWidth && s.boardHeight == m.current.boardHeight
    requires Update(m, s).Ok?
    ensures SelfValid(Update(m, s).value.current)
  {
  }

  // ---------------------------------------------------------------------
  // Ending the game and spawning

  /** Ending the game never touches the grid or the totals, and from a
      self-valid state it always reaches game over with the engine stopped. */
  lemma EndGameFacts(v: EngineView)
    ensures EndGameStep(v).grid == v.grid
    ensures EndGameStep(v).mgr.current.score == v.mgr.current.score
    ensures EndGameStep(v).mgr.current.linesCleared == v.mgr.current.linesCleared
    ensures SelfValid(v.mgr.current) ==>
      EndGameStep(v).mgr.current.status == GameOver && !EndGameStep(v).running
  {
    if SelfValid(v.mgr.current) {
      StatusChangeAccepted(v.mgr, GameOver);
    }
  }

  /** The spawn: a failed draw raises with nothing changed; a promoted
      piece that fits becomes the current piece with its landing position,
      the drawn piece becomes next and the lock-delay fields start afresh;
      a missing or blocked piece ends the game. The grid and the totals are
      never changed. */
  lemma SpawnFacts(env: Env, v: EngineView, next: Option<TetrominoState>, roll: nat)
    requires Ready(env, v)
    requires next.Some? ==> Droppable(next.value.shape)
    ensures CreateRandomPiece(env.cat, roll).Err? ==> SpawnStep(env, v, next, roll) == Step(v, true)
    ensures SpawnStep(env, v, next, roll).view.grid == v.grid
    ensures SpawnStep(env, v, next, roll).view.mgr.current.score == v.mgr.current.score
    ensures SpawnStep(env, v, next, roll).view.mgr.current.linesCleared == v.mgr.current.linesCleared
    ensures CreateRandomPiece(env.cat, roll).Ok? && next.Some? && Fits(v.grid, env.width, env.height, next.value)
            && !SpawnStep(env, v, next, roll).raised ==>
      SpawnStep(env, v, next, roll).view.mgr.current ==
        v.mgr.current.(currentPiece := next, nextPiece := Some(CreateRandomPiece(env.cat, roll).value),
                       ghostPiece := Some(Drop(v.grid, env.width, env.height, next.value)),
                       isGrounded := false, lockTimer := 0, moveResets := 0, board := v.grid)
    ensures CreateRandomPiece(env.cat, roll).Ok? && (next.None? || !Fits(v.grid, env.width, env.height, next.value))
            && SelfValid(v.mgr.current) ==>
      && !SpawnStep(env, v, next, roll).raised
      && SpawnStep(env, v, next, roll).view.mgr.current.status == GameOver
      && !SpawnStep(env, v, next, roll).view.running
  {
    EndGameFacts(v);
    var s := v.mgr.current;
    if CreateRandomPiece(env.cat, roll).Ok? && next.Some? && Fits(v.grid, env.width, env.height, next.value) {
      UpdateInstalls(v.mgr, s.(currentPiece := next, nextPiece := Some(CreateRandomPiece(env.cat, roll).value),
                               ghostPiece := Some(Drop(v.grid, env.width, env.height, next.value)),
                               isGrounded := false, lockTimer := 0, moveResets := 0, board := v.grid));
    }
  }

  // ---------------------------------------------------------------------
  // Locking

  /** The scoring of cleared lines adds the line points at the given level
      and then the lines, and leaves the grid alone. */
  lemma ScoreLinesFacts(env: Env, v: EngineView, n: nat, level: int)
    ensures ScoreLines(env, v, n, level).view.grid == v.grid
    ensures !ScoreLines(env, v, n, level).raised ==>
      && ScoreLines(env, v, n, level).view.mgr.current.score == v.mgr.current.score + LineScore(env.scoring, n, level)
      && ScoreLines(env, v, n, level).view.mgr.current.linesCleared == v.mgr.current.linesCleared + n
  {
    var s := v.mgr.current;
    var points := LineScore(env.scoring, n, level);
    var l1 := CalculateLevel(s.score + points, s.linesCleared);
    UpdateInstalls(v.mgr, s.(score := s.score + points, level := l1, fallSpeed := CalculateFallSpeed(l1)));
    if ScoreIncrement(v.mgr, points).Ok? {
      var m1 := ScoreIncrement(v.mgr, points).value;
      var s1 := m1.current;
      var l2 := CalculateLevel(s1.score, s1.linesCleared + n);
      UpdateInstalls(m1, s1.(linesCleared := s1.linesCleared + n, level := l2, fallSpeed := CalculateFallSpeed(l2)));
    }
  }

  /** A lock of a piece that fits: the grid afterwards is the grid with the
      piece painted in and its complete rows cleared, so it holds no
      complete row, whatever happens later in the step; a lock that does
      not raise scores the cleared lines at the level from before the
      clear and counts them; a zero lines-per-level always raises. */
  lemma LockFacts(env: Env, v: EngineView, roll: nat)
    requires Ready(env, v)
    requires v.mgr.current.currentPiece.Some?
    requires Fits(v.grid, env.width, env.height, v.mgr.current.currentPiece.value)
    ensures
      var s0 := v.mgr.current;
      var p := s0.currentPiece.value;
      var placed := Painted(v.grid, p.shape, p.x, p.y, p.color, false);
      var n := CountComplete(placed);
      var st := LockStep(env, v, roll);
      && st.view.grid == Cleared(placed, env.width)
      && (forall i :: 0 <= i < env.height ==> !Complete(st.view.grid[i]))
      && (!st.raised ==>
            && st.view.mgr.current.score == s0.score + (if n > 0 then LineScore(env.scoring, n, s0.level) else 0)
            && st.view.mgr.current.linesCleared == s0.linesCleared + n)
      && (env.game.linesPerLevel == 0 ==> st.raised)
  {
    var s0 := v.mgr.current;
    var p := s0.currentPiece.value;
    var placed := Painted(v.grid, p.shape, p.x, p.y, p.color, false);
    ClearedProperties(placed, env.width, env.height);
    var n := CountComplete(placed);
    var v1 := v.(grid := Cleared(placed, env.width));
    if n > 0 {
      ScoreLinesFacts(env, v1, n, s0.level);
      ScoreLinesReady(env, v1, n, s0.level);
      var scored := ScoreLines(env, v1, n, s0.level);
      SpawnFacts(env, scored.view, s0.nextPiece, roll);
    } else {
      SpawnFacts(env, v1, s0.nextPiece, roll);
    }
  }

  /** With no current piece a lock does nothing; with one that does not
      fit it raises (the board's refusal) with nothing changed. */
  lemma LockRefusals(env: Env, v: EngineView, roll: nat)
    requires Ready(env, v)
    ensures v.mgr.current.currentPiece.None? ==> LockStep(env, v, roll) == Step(v, false)
    ensures v.mgr.current.currentPiece.Some? && !Fits(v.grid, env.width, env.height, v.mgr.current.currentPiece.value) ==>
      LockStep(env, v, roll) == Step(v, true)
  {
  }

  /** A lock promotes the piece that was next before the lock began: when
      nothing raises and it fits the cleared grid it is the new current
      piece, and the state's board is the engine's grid again. */
  lemma LockPromotesNext(env: Env, v: EngineView, roll: nat)
    requires Ready(env, v)
    requires v.mgr.current.currentPiece.Some?
    requires Fits(v.grid, env.width, env.height, v.mgr.current.currentPiece.value)
    requires v.mgr.current.nextPiece.Some?
    ensures
      var s0 := v.mgr.current;
      var p := s0.currentPiece.value;
      var cleared := Cleared(Painted(v.grid, p.shape, p.x, p.y, p.color, false), env.width);
      var st := LockStep(env, v, roll);
      && IsRect(cleared, env.width, env.height)
      && (!st.raised && Fits(cleared, env.width, env.height, s0.nextPiece.value) ==>
            && st.view.mgr.current.currentPiece == s0.nextPiece
            && st.view.mgr.current.board == st.view.grid
            && !st.view.mgr.current.isGrounded && st.view.mgr.current.moveResets == 0)
  {
    var s0 := v.mgr.current;
    var p := s0.currentPiece.value;
    var placed := Painted(v.grid, p.shape, p.x, p.y, p.color, false);
    ClearedProperties(placed, env.width, env.height);
    var n := CountComplete(placed);
    var v1 := v.(grid := Cleared(placed, env.width));
    if n > 0 {
      ScoreLinesFacts(env, v1, n, s0.level);
      ScoreLinesReady(env, v1, n, s0.level);
      var scored := ScoreLines(env, v1, n, s0.level);
      SpawnFacts(env, scored.view, s0.nextPiece, roll);
    } else {
      SpawnFacts(env, v1, s0.nextPiece, roll);
    }
  }

  // ---------------------------------------------------------------------
  // Moving and rotating

  /** The shared tail of a move and a rotation, while airborne or for a
      candidate that does not fit: a candidate that does not fit changes
      nothing; otherwise it replaces the piece and its ghost and nothing
      else, unless the manager rejects it. */
  lemma ShiftFacts(env: Env, v: EngineView, candidate: TetrominoState, now: int, roll: nat)
    requires Ready(env, v) && Droppable(candidate.shape)
    ensures
      var s := v.mgr.current;
      var st := ShiftStep(env, v, candidate, now, roll);
      var fits := Fits(v.grid, env.width, env.height, candidate);
      var shadow := Some(Drop(v.grid, env.width, env.height, candidate));
      && (!fits ==> st == Step(v, false))
      && (fits && !s.isGrounded ==>
            && st.view.grid == v.grid && st.view.running == v.running
            && st.view.lastFall == v.lastFall && st.view.lastUpdate == v.lastUpdate
            && (st.raised <==> StateCheck(s, s.(currentPiece := Some(candidate), ghostPiece := shadow)).Some?)
            && (!st.raised ==> st.view.mgr.current == s.(currentPiece := Some(candidate), ghostPiece := shadow)))
  {
    var s := v.mgr.current;
    var shadow := Some(Drop(v.grid, env.width, env.height, candidate));
    UpdateInstalls(v.mgr, s.(currentPiece := Some(candidate), ghostPiece := shadow));
  }

  /** The shared tail while grounded: each fitting candidate spends one
      move reset and restarts the lock timer at `now`, and the one past
      the cap locks the piece where it is instead of moving it. */
  lemma GroundedShiftFacts(env: Env, v: EngineView, candidate: TetrominoState, now: int, roll: nat)
    requires Ready(env, v) && Droppable(candidate.shape)
    requires v.mgr.current.isGrounded && Fits(v.grid, env.width, env.height, candidate)
    ensures
      var s := v.mgr.current;
      var st := ShiftStep(env, v, candidate, now, roll);
      var shadow := Some(Drop(v.grid, env.width, env.height, candidate));
      && (s.moveResets + 1 <= s.maxMoveResets && !st.raised ==>
            st.view.mgr.current ==
              s.(currentPiece := Some(candidate), ghostPiece := shadow, moveResets := s.moveResets + 1, lockTimer := now))
      && (s.moveResets + 1 > s.maxMoveResets ==> st == LockStep(env, v, roll))
  {
    var s := v.mgr.current;
    var shadow := Some(Drop(v.grid, env.width, env.height, candidate));
    UpdateInstalls(v.mgr, s.(currentPiece := Some(candidate), ghostPiece := shadow,
                             moveResets := s.moveResets + 1, lockTimer := now));
  }

  /** A move shifts the current piece by the offset; without a piece
      nothing happens. */
  lemma MoveFacts(env: Env, v: EngineView, dx: int, dy: int, now: int, roll: nat)
    requires Ready(env, v)
    ensures v.mgr.current.currentPiece.None? ==> MoveStep(env, v, dx, dy, now, roll) == Step(v, false)
    ensures v.mgr.current.currentPiece.Some? ==>
      var p := v.mgr.current.currentPiece.value;
      MoveStep(env, v, dx, dy, now, roll) == ShiftStep(env, v, p.(x := p.x + dx, y := p.y + dy), now, roll)
  {
  }

  /** A rotation the factory refuses raises with nothing changed; an
      accepted one is shifted like a move, to the catalogue's shape for the
      new rotation at the same place. */
  lemma RotateFacts(env: Env, v: EngineView, direction: string, now: int, roll: nat)
    requires Ready(env, v) && v.mgr.current.currentPiece.Some?
    ensures
      var p := v.mgr.current.currentPiece.value;
      var r := RotatePiece(env.cat, p, direction);
      && (r.Err? ==> RotateStep(env, v, direction, now, roll) == Step(v, true))
      && (direction != "right" && direction != "left" ==> r.Err?)
      && (r.Ok? ==>
            && r.value == p.(rotation := r.value.rotation, shape := r.value.shape)
            && Droppable(r.value.shape)
            && RotateStep(env, v, direction, now, roll) == ShiftStep(env, v, r.value, now, roll))
  {
    RotatedDroppable(env.cat, v.mgr.current.currentPiece.value, direction);
  }

  // ---------------------------------------------------------------------
  // Falling and dropping

  /** The natural fall: one row down when that fits, clearing the
      lock-delay fields; otherwise the first blocked tick starts the lock
      delay at `now` and later ones change nothing. */
  lemma FallFacts(env: Env, v: EngineView, now: int)
    requires Ready(env, v) && v.mgr.current.currentPiece.Some?
    ensures
      var s := v.mgr.current;
      var p := s.currentPiece.value;
      var moved := p.(y := p.y + 1);
      var st := FallStep(env, v, now);
      && st.view.grid == v.grid
      && (Fits(v.grid, env.width, env.height, moved) && !st.raised ==>
            && st.view.mgr.current.currentPiece == Some(moved)
            && st.view.mgr.current.ghostPiece == Some(Drop(v.grid, env.width, env.height, moved))
            && !st.view.mgr.current.isGrounded
            && st.view.mgr.current.lockTimer == 0 && st.view.mgr.current.moveResets == 0)
      && (!Fits(v.grid, env.width, env.height, moved) && !s.isGrounded && !st.raised ==>
            st.view.mgr.current == s.(isGrounded := true, lockTimer := now))
      && (!Fits(v.grid, env.width, env.height, moved) && s.isGrounded ==> st == Step(v, false))
  {
    var s := v.mgr.current;
    var p := s.currentPiece.value;
    var moved := p.(y := p.y + 1);
    if Fits(v.grid, env.width, env.height, moved) {
      UpdateInstalls(v.mgr, s.(currentPiece := Some(moved),
                               ghostPiece := Some(Drop(v.grid, env.width, env.height, moved)),
                               isGrounded := false, lockTimer := 0, moveResets := 0));
    } else {
      UpdateInstalls(v.mgr, s.(isGrounded := true, lockTimer := now));
    }
  }

  /** The hard drop's landing position is where the piece comes to rest:
      at or below where it was, fitting whenever it fitted, unable to fall
      further, and that many rows are scored. */
  lemma HardDropLands(env: Env, v: EngineView)
    requires Ready(env, v) && v.mgr.current.currentPiece.Some?
    ensures
      var p := v.mgr.current.currentPiece.value;
      var landed := Drop(v.grid, env.width, env.height, p);
      && landed == p.(y := landed.y) && landed.y >= p.y
      && !Fits(v.grid, env.width, env.height, landed.(y := landed.y + 1))
      && (Fits(v.grid, env.width, env.height, p) ==> Fits(v.grid, env.width, env.height, landed))
      && DropRows(env, v) == landed.y - p.y >= 0
  {
  }

  /** The hard drop moves the piece to its landing position, adds two
      points per row dropped and locks it there. */
  lemma HardDropFacts(env: Env, v: EngineView, roll: nat)
    requires Ready(env, v) && v.mgr.current.currentPiece.Some?
    ensures
      var s := v.mgr.current;
      var p := s.currentPiece.value;
      var landed := Drop(v.grid, env.width, env.height, p);
      Update(v.mgr, s.(currentPiece := Some(landed))).Ok? ==>
        var m1 := Update(v.mgr, s.(currentPiece := Some(landed))).value;
        ScoreIncrement(m1, 2 * (landed.y - p.y)).Ok? ==>
          var m2 := ScoreIncrement(m1, 2 * (landed.y - p.y)).value;
          && m2.current.currentPiece == Some(landed)
          && m2.current.score == s.score + 2 * (landed.y - p.y)
          && HardDropStep(env, v, roll) == LockStep(env, v.(mgr := m2), roll)
  {
    var s := v.mgr.current;
    var p := s.currentPiece.value;
    var landed := Drop(v.grid, env.width, env.height, p);
    UpdateInstalls(v.mgr, s.(currentPiece := Some(landed)));
    if Update(v.mgr, s.(currentPiece := Some(landed))).Ok? {
      var m1 := Update(v.mgr, s.(currentPiece := Some(landed))).value;
      var s1 := m1.current;
      var points := 2 * (landed.y - p.y);
      assert HardDropScore(DropRows(env, v)) == points;
      assert LandStep(env, v) == Step(v.(mgr := m1), false);
      var level := CalculateLevel(s1.score + points, s1.linesCleared);
      UpdateInstalls(m1, s1.(score := s1.score + points, level := level, fallSpeed := CalculateFallSpeed(level)));
      if ScoreIncrement(m1, points).Ok? {
        var m2 := ScoreIncrement(m1, points).value;
        assert Apply(v.(mgr := m1), ScoreIncrement(m1, points)) == Step(v.(mgr := m2), false);
      }
    }
  }

  // ---------------------------------------------------------------------
  // Input, pausing and ticks

  /** The input dispatch: `quit` only stops the engine; `pause` toggles
      between playing and paused and is ignored otherwise; game keys act
      only while playing, each as its step; any other token is ignored. */
  lemma InputFacts(env: Env, v: EngineView, key: string, now: int, roll: nat)
    requires Ready(env, v)
    ensures
      var s := v.mgr.current;
      var out := InputStep(env, v, key, now, roll);
      && (key == "quit" ==> out == v.(running := false))
      && (key == "pause" && s.status == Playing ==> out == PauseStep(v))
      && (key == "pause" && s.status == Paused ==> out == ResumeStep(v, now))
      && (key == "pause" && s.status != Playing && s.status != Paused ==> out == v)
      && (key != "quit" && key != "pause" && s.status != Playing ==> out == v)
      && (s.status == Playing && key == "move_left" ==> out == MoveStep(env, v, -1, 0, now, roll).view)
      && (s.status == Playing && key == "move_right" ==> out == MoveStep(env, v, 1, 0, now, roll).view)
      && (s.status == Playing && key == "soft_drop" ==> out == MoveStep(env, v, 0, 1, now, roll).view)
      && (s.status == Playing && key == "hard_drop" ==> out == HardDropStep(env, v, roll).view)
      && (s.status == Playing && key == "rotate_right" ==> out == RotateStep(env, v, "right", now, roll).view)
      && (s.status == Playing && key == "rotate_left" ==> out == RotateStep(env, v, "left", now, roll).view)
      && (key !in {"quit", "pause", "move_left", "move_right", "soft_drop", "hard_drop", "rotate_right", "rotate_left"} ==>
            out == v)
  {
  }

  /** From a self-valid playing state, pausing reaches paused, and
      resuming after it restores the same state with both timers at the
      resume time; the grid and the running flag are untouched. */
  lemma PauseResumeRoundTrip(v: EngineView, now: int)
    requires SelfValid(v.mgr.current) && v.mgr.current.status == Playing
    ensures PauseStep(v).mgr.current == v.mgr.current.(status := Paused)
    ensures ResumeStep(PauseStep(v), now).mgr.current == v.mgr.current
    ensures ResumeStep(PauseStep(v), now).lastFall == now && ResumeStep(PauseStep(v), now).lastUpdate == now
    ensures ResumeStep(PauseStep(v), now).grid == v.grid && ResumeStep(PauseStep(v), now).running == v.running
  {
    StatusChangeAccepted(v.mgr, Paused);
    var p := PauseStep(v);
    assert SelfValid(p.mgr.current);
    StatusChangeAccepted(p.mgr, Playing);
    assert p.mgr.current.(status := Playing) == v.mgr.current;
  }

  /** A tick only acts while playing; one with neither the fall nor the
      lock due only records the time. */
  lemma TickFacts(env: Env, v: EngineView, now: int, roll: nat)
    requires Ready(env, v)
    ensures v.mgr.current.status != Playing ==> TickStep(env, v, now, roll) == v
    ensures
      var s := v.mgr.current;
      s.status == Playing && now - v.lastFall < s.fallSpeed
        && !(s.isGrounded && s.lockTimer > 0 && now - s.lockTimer >= s.lockDelay) ==>
        TickStep(env, v, now, roll) == v.(lastUpdate := now)
  {
  }

  // ---------------------------------------------------------------------
  // Starting

  /** A start that does not raise leaves a running engine playing on an
      empty grid from a zero score at level 1, with both timers at `now`
      and a history of the fresh state and the started one. */
  lemma StartFacts(env: Env, v: EngineView, now: int, roll1: nat, roll2: nat)
    requires Ready(env, v)
    ensures
      var st := StartStep(env, v, now, roll1, roll2);
      var s := st.view.mgr.current;
      !st.raised ==>
        && st.view.running && st.view.lastFall == now && st.view.lastUpdate == now
        && st.view.grid == ZeroRows(env.width, env.height)
        && s.status == Playing && s.score == 0 && s.level == 1 && s.linesCleared == 0
        && st.view.mgr.history == [NewGameState(Playing), s]
  {
    var m0 := FreshManager();
    var c := CreateRandomPiece(env.cat, roll1);
    var n := CreateRandomPiece(env.cat, roll2);
    if c.Ok? && n.Ok? {
      CreatedDroppable(env.cat, roll1);
      var grid := ZeroRows(env.width, env.height);
      var t := m0.current.(status := Playing, currentPiece := Some(c.value), nextPiece := Some(n.value),
                           ghostPiece := Some(Drop(grid, env.width, env.height, c.value)));
      UpdateInstalls(m0, t);
    }
  }

  /** The pieces of a start that does not raise: two drawn from the
      catalogue, the first with its landing position, in a state the
      manager keeps accepting status changes of. */
  lemma StartPieces(env: Env, v: EngineView, now: int, roll1: nat, roll2: nat)
    requires Ready(env, v)
    ensures
      var st := StartStep(env, v, now, roll1, roll2);
      var s := st.view.mgr.current;
      !st.raised ==>
        && CreateRandomPiece(env.cat, roll1).Ok? && CreateRandomPiece(env.cat, roll2).Ok?
        && s.currentPiece == Some(CreateRandomPiece(env.cat, roll1).value)
        && s.nextPiece == Some(CreateRandomPiece(env.cat, roll2).value)
        && s.currentPiece.value.shapeType in env.cat.types && s.nextPiece.value.shapeType in env.cat.types
        && (CreatedDroppable(env.cat, roll1);
            s.ghostPiece == Some(Drop(ZeroRows(env.width, env.height), env.width, env.height, s.currentPiece.value)))
        && SelfValid(s)
  {
    var m0 := FreshManager();
    var c := CreateRandomPiece(env.cat, roll1);
    var n := CreateRandomPiece(env.cat, roll2);
    if c.Ok? && n.Ok? {
      CreatedDroppable(env.cat, roll1);
      var grid := ZeroRows(env.width, env.height);
      var t := m0.current.(status := Playing, currentPiece := Some(c.value), nextPiece := Some(n.value),
                           ghostPiece := Some(Drop(grid, env.width, env.height, c.value)));
      UpdateInstalls(m0, t);
      if Update(m0, t).Ok? {
        AcceptedStaysSelfValid(m0, t);
      }
    }
  }
}
