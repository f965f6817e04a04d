/** The refactored game's engine: the state machine over playing, paused
    and game over, driving the board, the state manager and the factory.
    Each engine step is first given as a function from the engine's view
    (running flag, timers, board grid, manager contents) to the view after
    it, together with whether the step raised; the engine object's methods
    are proved to compute exactly those steps, and the lemmas state what
    the steps do. Wall-clock readings are the parameter `now` (ms) and the
    random draw of a new piece is the parameter `roll`. */
module Engine {
  import opened Wrappers
  import opened Cells
  import opened Config
  import opened State
  import opened Board
  import opened Factory
  import opened Scoring

  /** What the engine reads but never changes: the board's size, the piece
      catalogue and the rule configuration. */
  datatype Env = Env(width: int, height: int, cat: Catalogue, scoring: ScoringConfig, game: GameConfig)

  /** What the engine changes: its running flag and timers, the board's
      grid and the state manager. */
  datatype EngineView = EngineView(running: bool, lastUpdate: int, lastFall: int, grid: Grid, mgr: ManagerState)

  /** A view after a step and whether the step ended in an exception (the
      effects made before it are kept, as in the source). */
  datatype Step = Step(view: EngineView, raised: bool)

  /** Every shape of the catalogue either is empty or has an occupied
      cell; the landing search ends on such shapes. */
  ghost predicate CatalogueOk(cat: Catalogue) {
    forall k :: k in cat.cache && cat.cache[k].shapes.Some? ==>
      forall i :: 0 <= i < |cat.cache[k].shapes.value| ==> Droppable(cat.cache[k].shapes.value[i])
  }

  ghost predicate PiecesOk(s: GameState) {
    && (s.currentPiece.Some? ==> Droppable(s.currentPiece.value.shape))
    && (s.nextPiece.Some? ==> Droppable(s.nextPiece.value.shape))
  }

  /** What every step needs and keeps: a board grid of the board's size
      and pieces the landing search can handle. */
  ghost predicate Ready(env: Env, v: EngineView) {
    && env.width > 0 && env.height > 0 && CatalogueOk(env.cat)
    && IsRect(v.grid, env.width, env.height)
    && PiecesOk(v.mgr.current)
  }

  /** A drawn piece comes from the catalogue, so the landing search ends on it. */
  lemma CreatedDroppable(cat: Catalogue, roll: nat)
    requires CatalogueOk(cat)
    ensures CreateRandomPiece(cat, roll).Ok? ==> Droppable(CreateRandomPiece(cat, roll).value.shape)
  {
    if CreateRandomPiece(cat, roll).Ok? {
      var k := cat.types[roll % |cat.types|];
      assert Droppable(cat.cache[k].shapes.value[0]);
    }
  }

  /** So is a rotated one. */
  lemma RotatedDroppable(cat: Catalogue, piece: TetrominoState, direction: string)
    requires CatalogueOk(cat)
    ensures RotatePiece(cat, piece, direction).Ok? ==> Droppable(RotatePiece(cat, piece, direction).value.shape)
  {
    if RotatePiece(cat, piece, direction).Ok? {
      var p := RotatePiece(cat, piece, direction).value;
      assert Droppable(cat.cache[piece.shapeType].shapes.value[p.rotation]);
    }
  }

  /** A manager call's outcome folded into the view: an accepted update
      installs the new manager, a rejected one raises with nothing changed. */
  ghost function Apply(v: EngineView, r: Result<ManagerState, StateError>): (st: Step)
    ensures r.Ok? ==> st == Step(v.(mgr := r.value), false)
    ensures r.Err? ==> st == Step(v, true)
  {
    match r
    case Ok(m) => Step(v.(mgr := m), false)
    case Err(_) => Step(v, true)
  }

  /** An accepted update installs exactly the state it was given. */
  lemma UpdateInstalls(m: ManagerState, s: GameState)
    ensures Update(m, s).Ok? ==> Update(m, s).value.current == s
  {
  }

  // ---------------------------------------------------------------------
  // Steps

  /** `end_game`: switch to game over (unless already there) and stop
      running; a rejected switch is swallowed with the engine still running. */
  ghost function EndGameStep(v: EngineView): EngineView {
    var s := v.mgr.current;
    if s.status == GameOver then v.(running := false)
    else match Update(v.mgr, s.(status := GameOver))
      case Ok(m) => v.(mgr := m, running := false)
      case Err(_) => v
  }

  /** `pause_game`: from playing only; a rejected update is swallowed. */
  ghost function PauseStep(v: EngineView): EngineView {
    var s := v.mgr.current;
    if s.status != Playing then v
    else match Update(v.mgr, s.(status := Paused))
      case Ok(m) => v.(mgr := m)
      case Err(_) => v
  }

  /** `resume_game`: from paused only, restarting both timers at `now`. */
  ghost function ResumeStep(v: EngineView, now: int): EngineView {
    var s := v.mgr.current;
    if s.status != Paused then v
    else match Update(v.mgr, s.(status := Playing))
      case Ok(m) => v.(mgr := m, lastUpdate := now, lastFall := now)
      case Err(_) => v
  }

  /** The spawn at the end of a lock: draw the new next piece, then either
      end the game (the promoted piece `next` does not fit) or promote it
      with its landing position and fresh lock-delay fields, committing
      the board grid to the state. */
  ghost function SpawnStep(env: Env, v: EngineView, next: Option<TetrominoState>, roll: nat): (st: Step)
    requires Ready(env, v)
    requires next.Some? ==> Droppable(next.value.shape)
  {
    match CreateRandomPiece(env.cat, roll)
    case Err(_) => Step(v, true)
    case Ok(newNext) =>
      if next.None? || !Fits(v.grid, env.width, env.height, next.value) then Step(EndGameStep(v), false)
      else
        var s := v.mgr.current;
        Apply(v, Update(v.mgr, s.(currentPiece := next, nextPiece := Some(newNext),
                                  ghostPiece := Some(Drop(v.grid, env.width, env.height, next.value)),
                                  isGrounded := false, lockTimer := 0, moveResets := 0, board := v.grid)))
  }

  /** The score part of a lock that cleared `n` lines: line points at the
      level `level` from before the clear, then the lines themselves. */
  ghost function ScoreLines(env: Env, v: EngineView, n: nat, level: int): Step {
    match ScoreIncrement(v.mgr, LineScore(env.scoring, n, level))
    case Err(_) => Step(v, true)
    case Ok(m1) =>
      match LinesUpdate(m1, n)
      case Err(_) => Step(v.(mgr := m1), true)
      case Ok(m2) => Step(v.(mgr := m2), false)
  }

  /** `_lock_current_piece`: place the current piece (raising when it does
      not fit), clear lines, score them, compute the level through the
      calculator (raising on a zero lines-per-level) and spawn the next
      piece taken from the state as it was before the lock. */
  ghost function LockStep(env: Env, v: EngineView, roll: nat): (st: Step)
    requires Ready(env, v)
  {
    var s0 := v.mgr.current;
    if s0.currentPiece.None? then Step(v, false)
    else
      var p := s0.currentPiece.value;
      if !Fits(v.grid, env.width, env.height, p) then Step(v, true)
      else
        var placed := Painted(v.grid, p.shape, p.x, p.y, p.color, false);
        ClearedRect(placed, env.width, env.height);
        var n := CountComplete(placed);
        var v1 := v.(grid := Cleared(placed, env.width));
        var scored := if n > 0 then ScoreLines(env, v1, n, s0.level) else Step(v1, false);
        if scored.raised then scored
        else if Level(env.game, s0.linesCleared + n).None? then Step(scored.view, true)
        else SpawnStep(env, scored.view, s0.nextPiece, roll)
  }

  /** `_handle_natural_fall`: move down one row if that fits, clearing the
      lock-delay fields; otherwise start the lock delay at `now`, but only
      on the first tick the piece is blocked. */
  ghost function FallStep(env: Env, v: EngineView, now: int): (st: Step)
    requires Ready(env, v)
  {
    var s := v.mgr.current;
    if s.currentPiece.None? then Step(v, false)
    else
      var moved := MovePiece(s.currentPiece.value, 0, 1);
      if Fits(v.grid, env.width, env.height, moved) then
        Apply(v, Update(v.mgr, s.(currentPiece := Some(moved),
                                  ghostPiece := Some(Drop(v.grid, env.width, env.height, moved)),
                                  isGrounded := false, lockTimer := 0, moveResets := 0)))
      else if !s.isGrounded then Apply(v, Update(v.mgr, s.(isGrounded := true, lockTimer := now)))
      else Step(v, false)
  }

  /** The shared tail of `_move_piece` and `_rotate_piece` for the moved or
      rotated piece `candidate`: nothing happens unless it fits; while
      grounded each success uses up one move reset and restarts the lock
      timer, and once the resets exceed the cap the current piece is
      locked instead. */
  ghost function ShiftStep(env: Env, v: EngineView, candidate: TetrominoState, now: int, roll: nat): (st: Step)
    requires Ready(env, v) && Droppable(candidate.shape)
  {
    var s := v.mgr.current;
    if !Fits(v.grid, env.width, env.height, candidate) then Step(v, false)
    else
      var resets := if s.isGrounded then s.moveResets + 1 else s.moveResets;
      if s.isGrounded && resets > s.maxMoveResets then LockStep(env, v, roll)
      else ShiftTo(env, v, candidate, now)
  }

  /** The shift taken: the candidate becomes the current piece with its
      landing position, and a grounded piece uses up a reset and restarts
      its lock timer at `now`. */
  ghost function ShiftTo(env: Env, v: EngineView, candidate: TetrominoState, now: int): (st: Step)
    requires Ready(env, v) && Droppable(candidate.shape)
  {
    var s := v.mgr.current;
    Apply(v, Update(v.mgr, s.(currentPiece := Some(candidate),
                              ghostPiece := Some(Drop(v.grid, env.width, env.height, candidate)),
                              moveResets := if s.isGrounded then s.moveResets + 1 else s.moveResets,
                              lockTimer := if s.isGrounded then now else s.lockTimer)))
  }

  /** `_move_piece(dx, dy)`. */
  ghost function MoveStep(env: Env, v: EngineView, dx: int, dy: int, now: int, roll: nat): Step
    requires Ready(env, v)
  {
    var s := v.mgr.current;
    if s.currentPiece.None? then Step(v, false)
    else ShiftStep(env, v, MovePiece(s.currentPiece.value, dx, dy), now, roll)
  }

  /** `_rotate_piece(direction)`: a rotation the factory refuses raises. */
  ghost function RotateStep(env: Env, v: EngineView, direction: string, now: int, roll: nat): Step
    requires Ready(env, v)
  {
    var s := v.mgr.current;
    if s.currentPiece.None? then Step(v, false)
    else match RotatePiece(env.cat, s.currentPiece.value, direction)
      case Err(_) => Step(v, true)
      case Ok(rotated) =>
        RotatedDroppable(env.cat, s.currentPiece.value, direction);
        ShiftStep(env, v, rotated, now, roll)
  }

  /** How many rows the current piece falls before it lands. */
  ghost function DropRows(env: Env, v: EngineView): int
    requires Ready(env, v) && v.mgr.current.currentPiece.Some?
  {
    var p := v.mgr.current.currentPiece.value;
    Drop(v.grid, env.width, env.height, p).y - p.y
  }

  /** The first part of `_hard_drop_piece`: move the current piece to its
      landing position. */
  ghost function LandStep(env: Env, v: EngineView): Step
    requires Ready(env, v) && v.mgr.current.currentPiece.Some?
  {
    var s := v.mgr.current;
    Apply(v, Update(v.mgr, s.(currentPiece := Some(Drop(v.grid, env.width, env.height, s.currentPiece.value)))))
  }

  /** `_hard_drop_piece`: land the piece, add two points per row dropped,
      then lock it. */
  ghost function HardDropStep(env: Env, v: EngineView, roll: nat): Step
    requires Ready(env, v)
  {
    if v.mgr.current.currentPiece.None? then Step(v, false)
    else
      var l := LandStep(env, v);
      LandReady(env, v);
      if l.raised then l
      else
        var scored := Apply(l.view, ScoreIncrement(l.view.mgr, HardDropScore(DropRows(env, v))));
        ScoreReady(env, l.view, HardDropScore(DropRows(env, v)));
        if scored.raised then scored else LockStep(env, scored.view, roll)
  }

  /** `update`: while playing, let the piece fall when the fall interval
      has passed since the last fall, then lock it when the state read at
      the start of the tick was grounded with an expired lock timer; an
      exception ends the tick early and is swallowed. */
  ghost function TickStep(env: Env, v: EngineView, now: int, roll: nat): EngineView
    requires Ready(env, v)
  {
    var s := v.mgr.current;
    if s.status != Playing then v
    else
      var fallDue := now - v.lastFall >= s.fallSpeed;
      var f := if fallDue then FallStep(env, v, now) else Step(v, false);
      if f.raised then f.view
      else
        var v1 := if fallDue then f.view.(lastFall := now) else f.view;
        var lockDue := s.isGrounded && s.lockTimer > 0 && now - s.lockTimer >= s.lockDelay;
        FallStepReady(env, v, now);
        var l := if lockDue then LockStep(env, v1, roll) else Step(v1, false);
        if l.raised then l.view else l.view.(lastUpdate := now)
  }

  /** `handle_input` for one action token; exceptions are swallowed. */
  ghost function InputStep(env: Env, v: EngineView, key: string, now: int, roll: nat): EngineView
    requires Ready(env, v)
  {
    var s := v.mgr.current;
    if key == "quit" then v.(running := false)
    else if key == "pause" then
      (if s.status == Playing then PauseStep(v) else if s.status == Paused then ResumeStep(v, now) else v)
    else if s.status != Playing then v
    else if key == "move_left" then MoveStep(env, v, -1, 0, now, roll).view
    else if key == "move_right" then MoveStep(env, v, 1, 0, now, roll).view
    else if key == "soft_drop" then MoveStep(env, v, 0, 1, now, roll).view
    else if key == "hard_drop" then HardDropStep(env, v, roll).view
    else if key == "rotate_right" then RotateStep(env, v, "right", now, roll).view
    else if key == "rotate_left" then RotateStep(env, v, "left", now, roll).view
    else v
  }

  /** `start_game`: a fresh manager and an empty board, two drawn pieces,
      the first with its landing position, status playing, both timers at
      `now` and the engine running. A failure raises, keeping the reset. */
  ghost function StartStep(env: Env, v: EngineView, now: int, roll1: nat, roll2: nat): Step
    requires Ready(env, v)
  {
    StartFrom(env, v.(mgr := FreshManager(), grid := ZeroRows(env.width, env.height)), now, roll1, roll2)
  }

  /** The start after the reset `v0`: draw both pieces and install them. */
  ghost function StartFrom(env: Env, v0: EngineView, now: int, roll1: nat, roll2: nat): Step
    requires Ready(env, v0)
  {
    match CreateRandomPiece(env.cat, roll1)
    case Err(_) => Step(v0, true)
    case Ok(current) =>
      match CreateRandomPiece(env.cat, roll2)
      case Err(_) => Step(v0, true)
      case Ok(next) =>
        CreatedDroppable(env.cat, roll1);
        var shadow := Drop(v0.grid, env.width, env.height, current);
        match Update(v0.mgr, v0.mgr.current.(status := Playing, currentPiece := Some(current),
                                             nextPiece := Some(next), ghostPiece := Some(shadow)))
        case Err(_) => Step(v0, true)
        case Ok(m1) => Step(v0.(mgr := m1, lastUpdate := now, lastFall := now, running := true), false)
  }

  // ---------------------------------------------------------------------
  // Every step keeps the engine ready

  /** A manager update that keeps the pieces keeps the engine ready. */
  lemma UpdateReady(env: Env, v: EngineView, s: GameState)
    requires Ready(env, v) && PiecesOk(s)
    ensures Update(v.mgr, s).Ok? ==> Ready(env, v.(mgr := Update(v.mgr, s).value))
  {
  }

  lemma EndGameReady(env: Env, v: EngineView)
    requires Ready(env, v)
    ensures Ready(env, EndGameStep(v))
    ensures EndGameStep(v).grid == v.grid
  {
    UpdateReady(env, v, v.mgr.current.(status := GameOver));
  }

  lemma SpawnReady(env: Env, v: EngineView, next: Option<TetrominoState>, roll: nat)
    requires Ready(env, v)
    requires next.Some? ==> Droppable(next.value.shape)
    ensures Ready(env, SpawnStep(env, v, next, roll).view)
    ensures SpawnStep(env, v, next, roll).view.grid == v.grid
  {
    CreatedDroppable(env.cat, roll);
    EndGameReady(env, v);
    if CreateRandomPiece(env.cat, roll).Ok? && next.Some? && Fits(v.grid, env.width, env.height, next.value) {
      var s := v.mgr.current;
      UpdateReady(env, v, s.(currentPiece := next, nextPiece := Some(CreateRandomPiece(env.cat, roll).value),
                             ghostPiece := Some(Drop(v.grid, env.width, env.height, next.value)),
                             isGrounded := false, lockTimer := 0, moveResets := 0, board := v.grid));
    }
  }

  lemma ScoreLinesReady(env: Env, v: EngineView, n: nat, level: int)
    requires Ready(env, v)
    ensures Ready(env, ScoreLines(env, v, n, level).view)
    ensures ScoreLines(env, v, n, level).view.grid == v.grid
    ensures ScoreLines(env, v, n, level).view.mgr.current.nextPiece == v.mgr.current.nextPiece
  {
    var s := v.mgr.current;
    var points := LineScore(env.scoring, n, level);
    var l1 := CalculateLevel(s.score + points, s.linesCleared);
    UpdateReady(env, v, s.(score := s.score + points, level := l1, fallSpeed := CalculateFallSpeed(l1)));
    if ScoreIncrement(v.mgr, points).Ok? {
      var v1 := v.(mgr := ScoreIncrement(v.mgr, points).value);
      var s1 := v1.mgr.current;
      var l2 := CalculateLevel(s1.score, s1.linesCleared + n);
      UpdateReady(env, v1, s1.(linesCleared := s1.linesCleared + n, level := l2, fallSpeed := CalculateFallSpeed(l2)));
    }
  }

  lemma LockReady(env: Env, v: EngineView, roll: nat)
    requires Ready(env, v)
    ensures Ready(env, LockStep(env, v, roll).view)
  {
    var s0 := v.mgr.current;
    if s0.currentPiece.Some? && Fits(v.grid, env.width, env.height, s0.currentPiece.value) {
      var p := s0.currentPiece.value;
      var placed := Painted(v.grid, p.shape, p.x, p.y, p.color, false);
      ClearedProperties(placed, env.width, env.height);
      var n := CountComplete(placed);
      var v1 := v.(grid := Cleared(placed, env.width));
      assert Ready(env, v1);
      if n > 0 {
        ScoreLinesReady(env, v1, n, s0.level);
        var scored := ScoreLines(env, v1, n, s0.level);
        SpawnReady(env, scored.view, s0.nextPiece, roll);
      } else {
        SpawnReady(env, v1, s0.nextPiece, roll);
      }
    }
  }

  lemma FallStepReady(env: Env, v: EngineView, now: int)
    requires Ready(env, v)
    ensures Ready(env, FallStep(env, v, now).view)
  {
  }

  lemma ShiftReady(env: Env, v: EngineView, candidate: TetrominoState, now: int, roll: nat)
    requires Ready(env, v) && Droppable(candidate.shape)
    ensures Ready(env, ShiftStep(env, v, candidate, now, roll).view)
  {
    LockReady(env, v, roll);
  }

  lemma MoveReady(env: Env, v: EngineView, dx: int, dy: int, now: int, roll: nat)
    requires Ready(env, v)
    ensures Ready(env, MoveStep(env, v, dx, dy, now, roll).view)
  {
    var s := v.mgr.current;
    if s.currentPiece.Some? {
      ShiftReady(env, v, MovePiece(s.currentPiece.value, dx, dy), now, roll);
    }
  }

  lemma RotateReady(env: Env, v: EngineView, direction: string, now: int, roll: nat)
    requires Ready(env, v)
    ensures Ready(env, RotateStep(env, v, direction, now, roll).view)
  {
    var s := v.mgr.current;
    if s.currentPiece.Some? {
      RotatedDroppable(env.cat, s.currentPiece.value, direction);
      var r := RotatePiece(env.cat, s.currentPiece.value, direction);
      if r.Ok? {
        ShiftReady(env, v, r.value, now, roll);
      }
    }
  }

  lemma ScoreReady(env: Env, v: EngineView, points: int)
    requires Ready(env, v)
    ensures Ready(env, Apply(v, ScoreIncrement(v.mgr, points)).view)
  {
    var s := v.mgr.current;
    var level := CalculateLevel(s.score + points, s.linesCleared);
    UpdateReady(env, v, s.(score := s.score + points, level := level, fallSpeed := CalculateFallSpeed(level)));
  }

  lemma LandReady(env: Env, v: EngineView)
    requires Ready(env, v) && v.mgr.current.currentPiece.Some?
    ensures Ready(env, LandStep(env, v).view)
  {
    var s := v.mgr.current;
    UpdateReady(env, v, s.(currentPiece := Some(Drop(v.grid, env.width, env.height, s.currentPiece.value))));
  }

  lemma HardDropReady(env: Env, v: EngineView, roll: nat)
    requires Ready(env, v)
    ensures Ready(env, HardDropStep(env, v, roll).view)
  {
    if v.mgr.current.currentPiece.Some? {
      LandReady(env, v);
      var l := LandStep(env, v);
      ScoreReady(env, l.view, HardDropScore(DropRows(env, v)));
      LockReady(env, Apply(l.view, ScoreIncrement(l.view.mgr, HardDropScore(DropRows(env, v)))).view, roll);
    }
  }

  lemma TickReady(env: Env, v: EngineView, now: int, roll: nat)
    requires Ready(env, v)
    ensures Ready(env, TickStep(env, v, now, roll))
  {
    FallStepReady(env, v, now);
    var f := FallStep(env, v, now);
    LockReady(env, f.view.(lastFall := now), roll);
    LockReady(env, v, roll);
  }

  lemma InputReady(env: Env, v: EngineView, key: string, now: int, roll: nat)
    requires Ready(env, v)
    ensures Ready(env, InputStep(env, v, key, now, roll))
  {
    var s := v.mgr.current;
    if key == "pause" {
      UpdateReady(env, v, s.(status := Paused));
      UpdateReady(env, v, s.(status := Playing));
    } else if key == "move_left" {
      MoveReady(env, v, -1, 0, now, roll);
    } else if key == "move_right" {
      MoveReady(env, v, 1, 0, now, roll);
    } else if key == "soft_drop" {
      MoveReady(env, v, 0, 1, now, roll);
    } else if key == "hard_drop" {
      HardDropReady(env, v, roll);
    } else if key == "rotate_right" {
      RotateReady(env, v, "right", now, roll);
    } else if key == "rotate_left" {
      RotateReady(env, v, "left", now, roll);
    }
  }

  lemma StartReady(env: Env, v: EngineView, now: int, roll1: nat, roll2: nat)
    requires Ready(env, v)
    ensures Ready(env, StartFrom(env, v, now, roll1, roll2).view)
  {
    CreatedDroppable(env.cat, roll1);
    CreatedDroppable(env.cat, roll2);
    var c := CreateRandomPiece(env.cat, roll1);
    var n := CreateRandomPiece(env.cat, roll2);
    if c.Ok? && n.Ok? {
      UpdateReady(env, v, v.mgr.current.(status := Playing, currentPiece := Some(c.value), nextPiece := Some(n.value),
                                         ghostPiece := Some(Drop(v.grid, env.width, env.height, c.value))));
    }
  }

  // ---------------------------------------------------------------------
  // The engine object

  class TetrisGameEngine {
    const board: GameBoard
    const mgr: GameStateManager
    const factory: TetrominoFactory
    const scoring: ScoringConfig
    const game: GameConfig
    var running: bool
    var lastUpdate: int
    var lastFall: int

    function View(): EngineView
      reads this, board, mgr
    {
      EngineView(running, lastUpdate, lastFall, board.board, mgr.View())
    }

    function Setting(): Env
      reads this, board, factory
    {
      Env(board.width, board.height, factory.View(), scoring, game)
    }

    ghost predicate Valid()
      reads this, board, mgr, factory
    {
      board.Valid() && mgr.Valid() && Ready(Setting(), View())
    }

    /** A stopped engine over the given board and factory with a manager
        of its own holding the default state. */
    constructor(board: GameBoard, factory: TetrominoFactory, scoring: ScoringConfig, game: GameConfig)
      requires board.Valid() && CatalogueOk(factory.View())
      ensures Valid() && fresh(mgr)
      ensures this.board == board && this.factory == factory
      ensures Setting() == Env(board.width, board.height, factory.View(), scoring, game)
      ensures View() == EngineView(false, 0, 0, board.board, ManagerState(NewGameState(Menu), [NewGameState(Menu)]))
    {
      this.board := board;
      this.factory := factory;
      this.scoring := scoring;
      this.game := game;
      mgr := new GameStateManager(None);
      running, lastUpdate, lastFall := false, 0, 0;
    }

    method EndGame()
      requires Valid()
      modifies this, mgr
      ensures Valid() && Setting() == old(Setting())
      ensures View() == EndGameStep(old(View()))
    {
      EndGameReady(Setting(), View());
      var s := mgr.current;
      if s.status != GameOver {
        var r := mgr.UpdateState(s.(status := GameOver));
        if r.Err? {
          return;
        }
      }
      running := false;
    }

    method PauseGame()
      requires Valid()
      modifies mgr
      ensures Valid() && Setting() == old(Setting())
      ensures View() == PauseStep(old(View()))
    {
      var s := mgr.current;
      if s.status == Playing {
        var r := mgr.UpdateState(s.(status := Paused));
      }
    }

    method ResumeGame(now: int)
      requires Valid()
      modifies this, mgr
      ensures Valid() && Setting() == old(Setting())
      ensures View() == ResumeStep(old(View()), now)
    {
      var s := mgr.current;
      if s.status == Paused {
        var r := mgr.UpdateState(s.(status := Playing));
        if r.Ok? {
          lastUpdate, lastFall := now, now;
        }
      }
    }

    /** `_lock_current_piece`. */
    method LockCurrentPiece(roll: nat) returns (raised: bool)
      requires Valid()
      modifies this, board, mgr
      ensures Valid() && Setting() == old(Setting())
      ensures Step(View(), raised) == LockStep(old(Setting()), old(View()), roll)
    {
      LockReady(Setting(), View(), roll);
      var s0 := mgr.current;
      if s0.currentPiece.None? {
        return false;
      }
      var placed := board.PlacePiece(s0.currentPiece);
      if !placed {
        return true;
      }
      var n := board.ClearCompletedLines();
      if n > 0 {
        raised := ScoreClearedLines(n, s0.level);
        if raised {
          return;
        }
      }
      var newLevel := Level(game, s0.linesCleared + n);
      if newLevel.None? {
        return true;
      }
      raised := SpawnNext(s0.nextPiece, roll);
    }

    /** `start_game`, with the two drawn pieces chosen by `roll1` and `roll2`. */
    method StartGame(now: int, roll1: nat, roll2: nat) returns (raised: bool)
      requires Valid()
      modifies this, board, mgr
      ensures Valid() && Setting() == old(Setting())
      ensures Step(View(), raised) == StartStep(old(Setting()), old(View()), now, roll1, roll2)
    {
      var initial := mgr.ResetGame();
      board.Reset();
      raised := InstallPieces(now, roll1, roll2);
    }

    /** The part of `start_game` after the reset: the two pieces are drawn,
        the first with its landing position, and the game is started. */
    method InstallPieces(now: int, roll1: nat, roll2: nat) returns (raised: bool)
      requires Valid()
      modifies this, mgr
      ensures Valid() && Setting() == old(Setting())
      ensures Step(View(), raised) == StartFrom(old(Setting()), old(View()), now, roll1, roll2)
    {
      StartReady(Setting(), View(), now, roll1, roll2);
      var current := CreateRandomPiece(factory.View(), roll1);
      if current.Err? {
        return true;
      }
      var next := CreateRandomPiece(factory.View(), roll2);
      if next.Err? {
        return true;
      }
      CreatedDroppable(factory.View(), roll1);
      ghost var env, v := Setting(), View();
      var shadow := board.GetGhostPiecePosition(Some(current.value));
      var t := mgr.current.(status := Playing, currentPiece := Some(current.value),
                            nextPiece := Some(next.value), ghostPiece := shadow);
      var r := mgr.UpdateState(t);
      if r.Err? {
        return true;
      }
      ghost var m1 := State.Update(v.mgr, t).value;
      assert StartFrom(env, v, now, roll1, roll2) == Step(v.(mgr := m1, lastUpdate := now, lastFall := now, running := true), false);
      lastUpdate, lastFall := now, now;
      running := true;
      raised := false;
    }

    /** `_handle_natural_fall`. */
    method HandleNaturalFall(now: int) returns (raised: bool)
      requires Valid()
      modifies mgr
      ensures Valid() && Setting() == old(Setting())
      ensures Step(View(), raised) == FallStep(old(Setting()), old(View()), now)
    {
      FallStepReady(Setting(), View(), now);
      var s := mgr.current;
      if s.currentPiece.None? {
        return false;
      }
      var moved := MovePiece(s.currentPiece.value, 0, 1);
      var ok := board.IsValidPosition(Some(moved));
      if ok {
        var shadow := board.GetGhostPiecePosition(Some(moved));
        var r := mgr.UpdateState(s.(currentPiece := Some(moved), ghostPiece := shadow,
                                    isGrounded := false, lockTimer := 0, moveResets := 0));
        raised := r.Err?;
      } else if !s.isGrounded {
        var r := mgr.UpdateState(s.(isGrounded := true, lockTimer := now));
        raised := r.Err?;
      } else {
        raised := false;
      }
    }

    /** The common tail of a move and a rotation, for the new piece `candidate`. */
    method Shift(candidate: TetrominoState, now: int, roll: nat) returns (raised: bool)
      requires Valid() && Droppable(candidate.shape)
      modifies this, board, mgr
      ensures Valid() && Setting() == old(Setting())
      ensures Step(View(), raised) == ShiftStep(old(Setting()), old(View()), candidate, now, roll)
    {
      var s := mgr.current;
      var ok := board.IsValidPosition(Some(candidate));
      if !ok {
        return false;
      }
      if s.isGrounded && s.moveResets + 1 > s.maxMoveResets {
        raised := LockCurrentPiece(roll);
      } else {
        raised := ShiftPiece(candidate, now);
      }
    }

    /** The update of a shift that is taken. */
    method ShiftPiece(candidate: TetrominoState, now: int) returns (raised: bool)
      requires Valid() && Droppable(candidate.shape)
      modifies mgr
      ensures Valid() && Setting() == old(Setting())
      ensures Step(View(), raised) == ShiftTo(old(Setting()), old(View()), candidate, now)
    {
      ghost var env, v := Setting(), View();
      var s := mgr.current;
      var shadow := board.GetGhostPiecePosition(Some(candidate));
      var resets := s.moveResets;
      var timer := s.lockTimer;
      if s.isGrounded {
        resets, timer := resets + 1, now;
      }
      var t := s.(currentPiece := Some(candidate), ghostPiece := shadow, moveResets := resets, lockTimer := timer);
      assert ShiftTo(env, v, candidate, now) == Apply(v, State.Update(v.mgr, t));
      UpdateReady(env, v, t);
      var r := mgr.UpdateState(t);
      raised := r.Err?;
    }

    /** `_move_piece(dx, dy)`. */
    method Move(dx: int, dy: int, now: int, roll: nat) returns (raised: bool)
      requires Valid()
      modifies this, board, mgr
      ensures Valid() && Setting() == old(Setting())
      ensures Step(View(), raised) == MoveStep(old(Setting()), old(View()), dx, dy, now, roll)
    {
      var s := mgr.current;
      if s.currentPiece.None? {
        return false;
      }
      raised := Shift(MovePiece(s.currentPiece.value, dx, dy), now, roll);
    }

    /** `_rotate_piece(direction)`. */
    method Rotate(direction: string, now: int, roll: nat) returns (raised: bool)
      requires Valid()
      modifies this, board, mgr
      ensures Valid() && Setting() == old(Setting())
      ensures Step(View(), raised) == RotateStep(old(Setting()), old(View()), direction, now, roll)
    {
      var s := mgr.current;
      if s.currentPiece.None? {
        return false;
      }
      var rotated := RotatePiece(factory.View(), s.currentPiece.value, direction);
      if rotated.Err? {
        return true;
      }
      RotatedDroppable(factory.View(), s.currentPiece.value, direction);
      raised := Shift(rotated.value, now, roll);
    }

    /** The landing part of `_hard_drop_piece`; `rows` is the drop distance. */
    method Land() returns (raised: bool, rows: int)
      requires Valid() && mgr.current.currentPiece.Some?
      modifies mgr
      ensures Valid() && Setting() == old(Setting())
      ensures Step(View(), raised) == LandStep(old(Setting()), old(View()))
      ensures rows == DropRows(old(Setting()), old(View()))
    {
      LandReady(Setting(), View());
      var s := mgr.current;
      var p := s.currentPiece.value;
      var shadow := board.GetGhostPiecePosition(Some(p));
      var landed := shadow.value;
      rows := landed.y - p.y;
      var r := mgr.UpdateState(s.(currentPiece := Some(landed)));
      raised := r.Err?;
    }

    /** `increment_score` on the manager, raising when it is rejected. */
    method AddScore(points: int) returns (raised: bool)
      requires Valid()
      modifies mgr
      ensures Valid() && Setting() == old(Setting())
      ensures Step(View(), raised) == Apply(old(View()), ScoreIncrement(old(View()).mgr, points))
    {
      ScoreReady(Setting(), View(), points);
      var r := mgr.IncrementScore(points);
      raised := r.Err?;
    }

    /** `_hard_drop_piece`. */
    method HardDropPiece(roll: nat) returns (raised: bool)
      requires Valid()
      modifies this, board, mgr
      ensures Valid() && Setting() == old(Setting())
      ensures Step(View(), raised) == HardDropStep(old(Setting()), old(View()), roll)
    {
      if mgr.current.currentPiece.None? {
        return false;
      }
      var rows;
      raised, rows := Land();
      if raised {
        return;
      }
      raised := AddScore(HardDropScore(rows));
      if raised {
        return;
      }
      raised := LockCurrentPiece(roll);
    }

    /** `update`: one tick at time `now`; exceptions are swallowed. */
    method Update(now: int, roll: nat)
      requires Valid()
      modifies this, board, mgr
      ensures Valid() && Setting() == old(Setting())
      ensures View() == TickStep(old(Setting()), old(View()), now, roll)
    {
      TickReady(Setting(), View(), now, roll);
      var s := mgr.current;
      if s.status != Playing {
        return;
      }
      if now - lastFall >= s.fallSpeed {
        var raised := HandleNaturalFall(now);
        if raised {
          return;
        }
        lastFall := now;
      }
      if s.isGrounded && s.lockTimer > 0 && now - s.lockTimer >= s.lockDelay {
        var raised := LockCurrentPiece(roll);
        if raised {
          return;
        }
      }
      lastUpdate := now;
    }

    /** `handle_input` for one action token; exceptions are swallowed. */
    method HandleInput(key: string, now: int, roll: nat)
      requires Valid()
      modifies this, board, mgr
      ensures Valid() && Setting() == old(Setting())
      ensures View() == InputStep(old(Setting()), old(View()), key, now, roll)
    {
      InputReady(Setting(), View(), key, now, roll);
      var s := mgr.current;
      if key == "quit" {
        running := false;
        return;
      } else if key == "pause" {
        if s.status == Playing {
          PauseGame();
        } else if s.status == Paused {
          ResumeGame(now);
        }
        return;
      }
      if s.status != Playing {
        return;
      }
      var raised := false;
      if key == "move_left" {
        raised := Move(-1, 0, now, roll);
      } else if key == "move_right" {
        raised := Move(1, 0, now, roll);
      } else if key == "soft_drop" {
        raised := Move(0, 1, now, roll);
      } else if key == "hard_drop" {
        raised := HardDropPiece(roll);
      } else if key == "rotate_right" {
        raised := Rotate("right", now, roll);
      } else if key == "rotate_left" {
        raised := Rotate("left", now, roll);
      }
    }

    /** The scoring of `n` cleared lines at the level `level`. */
    method ScoreClearedLines(n: nat, level: int) returns (raised: bool)
      requires Valid()
      modifies mgr
      ensures Valid() && Setting() == old(Setting())
      ensures Step(View(), raised) == ScoreLines(old(Setting()), old(View()), n, level)
    {
      ScoreLinesReady(Setting(), View(), n, level);
      var r1 := mgr.IncrementScore(LineScore(scoring, n, level));
      if r1.Err? {
        return true;
      }
      var r2 := mgr.ClearLines(n);
      raised := r2.Err?;
    }

    /** The spawn after a lock, with `next` read before the lock began. */
    method SpawnNext(next: Option<TetrominoState>, roll: nat) returns (raised: bool)
      requires Valid()
      requires next.Some? ==> Droppable(next.value.shape)
      modifies this, mgr
      ensures Valid() && Setting() == old(Setting())
      ensures Step(View(), raised) == SpawnStep(old(Setting()), old(View()), next, roll)
    {
      var created := CreateRandomPiece(factory.View(), roll);
      if created.Err? {
        return true;
      }
      CreatedDroppable(factory.View(), roll);
      var ok := board.IsValidPosition(next);
      if !ok {
        EndGame();
        return false;
      }
      var shadow := board.GetGhostPiecePosition(next);
      var grid := board.GetBoard();
      var s := mgr.current;
      var r := mgr.UpdateState(s.(currentPiece := next, nextPiece := Some(created.value), ghostPiece := shadow,
                                  isGrounded := false, lockTimer := 0, moveResets := 0, board := grid));
      UpdateInstalls(old(mgr.View()), s.(currentPiece := next, nextPiece := Some(created.value), ghostPiece := shadow,
                                  isGrounded := false, lockTimer := 0, moveResets := 0, board := grid));
      raised := r.Err?;
    }
  }
}
