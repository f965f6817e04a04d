/** The original game loop: a falling piece on a 10 x 20 board, lock delay
    with a bounded number of move resets, scoring, and levels capped at 10.
    Time is the integer millisecond `now` passed to each tick, the input
    action is a parameter, and each random piece is picked by a `drawn`. */
module ClassicGame {
  import opened Wrappers
  import opened Cells
  import opened ClassicTetromino
  import opened ClassicBoard
  import Config
  import Scoring
  import State

  const Width := 10
  const Height := 20

  /** `min(10, lines // 10 + 1)`: one level per ten lines, capped at 10. */
  function ClassicLevel(lines: int): (level: int)
    ensures level <= 10
    ensures lines >= 0 ==> level >= 1 && level == if State.CalculateLevel(0, lines) < 10 then State.CalculateLevel(0, lines) else 10
  {
    var l := Scoring.FloorDiv(lines, 10) + 1;
    if l < 10 then l else 10
  }

  /** `calculate_score`: the table 0, 40, 100, 300, 1200 by lines cleared,
      times the level; the configurable calculator of the refactored game
      with its default table. */
  function ClassicScore(lines: int, level: int): (points: int)
    ensures 0 <= lines <= 4 ==> points == [0, 40, 100, 300, 1200][lines] * level
    ensures !(0 <= lines <= 4) ==> points == 0
  {
    Scoring.LineScore(Config.DefaultScoring, lines, level)
  }

  /** Everything the game object holds besides the board object, and the
      board's grid. */
  datatype GameView = GameView(
    grid: Grid,
    current: Tetromino,
    next: Tetromino,
    score: int,
    level: int,
    lines: int,
    fallTime: int,
    fallSpeed: int,
    lockDelay: int,
    lockTimer: int,
    grounded: bool,
    moveResets: int,
    maxMoveResets: int,
    gameOver: bool,
    paused: bool,
    lastUpdate: int)

  /** The grid is 10 x 20 and both pieces are as the tables make them. */
  predicate Shaped(v: GameView) {
    IsRect(v.grid, Width, Height) && WellFormed(v.current) && WellFormed(v.next)
  }

  predicate Accepts(v: GameView, t: Tetromino)
    requires Shaped(v)
  {
    ValidPosition(v.grid, Width, Height, t)
  }

  /** The new game: two random pieces, an empty board, level 1. */
  function Initial(now: int, first: Tetromino, second: Tetromino): GameView {
    GameView(ZeroRows(Width, Height), first, second,
             0, 1, 0, 0, 500, 500, 0, false, 0, 15, false, false, now)
  }

  // ---------------------------------------------------------------------
  // The game's steps as functions of its state

  /** `spawn_new_tetromino`: the next piece becomes current at column 3 of
      the top row, a new next piece is drawn, the lock delay starts over,
      and the game is over if the board refuses the new piece. */
  function SpawnStep(v: GameView, drawn: Tetromino): GameView
    requires Shaped(v)
  {
    Spawned(v, drawn, Accepts(v, v.next.(x := 3, y := 0)))
  }

  /** The state after the spawn, given whether the board accepts the new
      piece. */
  function Spawned(v: GameView, drawn: Tetromino, ok: bool): GameView {
    v.(current := v.next.(x := 3, y := 0), next := drawn, grounded := false, lockTimer := 0, moveResets := 0,
       gameOver := if !ok then true else v.gameOver)
  }

  /** The state after placing the piece and clearing lines, before the
      spawn. */
  function Settled(v: GameView): (r: GameView)
    requires Shaped(v)
    ensures Shaped(r)
  {
    var placed := Placed(v.grid, Width, Height, Blocks(v.current), v.current.color);
    ClearedRect(placed, Width, Height);
    Scored(v.(grid := Cleared(placed, Width)), CountComplete(placed))
  }

  /** The counters after `n` lines were cleared: lines, score at the old
      level, level and fall speed change only when a line went. */
  function Scored(v: GameView, n: int): (r: GameView)
  {
    if n > 0 then
      var lines := v.lines + n;
      var level := ClassicLevel(lines);
      v.(lines := lines, score := v.score + ClassicScore(n, v.level), level := level,
         fallSpeed := State.CalculateFallSpeed(level))
    else v
  }

  /** `lock_tetromino`: place, clear, score, then spawn. */
  function LockStep(v: GameView, drawn: Tetromino): GameView
    requires Shaped(v)
  {
    SpawnStep(Settled(v), drawn)
  }

  /** `reset_lock_delay`: only a grounded piece with resets left gets its
      timer restarted, using up one reset. */
  function ResetStep(v: GameView): GameView {
    if v.grounded && v.moveResets < v.maxMoveResets then v.(lockTimer := 0, moveResets := v.moveResets + 1)
    else v
  }

  /** A move or rotation to `candidate`: taken only when the board accepts
      it, and then (for moves other than the soft drop) resetting the lock
      delay. */
  function TryStep(v: GameView, candidate: Tetromino, reset: bool): GameView
    requires Shaped(v)
  {
    if !Accepts(v, candidate) then v
    else if reset then ResetStep(v.(current := candidate))
    else v.(current := candidate)
  }

  /** The hard drop: the piece moved to its landing row, then locked. */
  function HardDropStep(v: GameView, drawn: Tetromino): GameView
    requires Shaped(v)
  {
    LockStep(Landed(v), drawn)
  }

  /** The state with the piece moved down to its landing row. */
  function Landed(v: GameView): (r: GameView)
    requires Shaped(v)
    ensures Shaped(r)
  {
    StepsKeepWellFormed(v.current, 0, DropPosition(v.grid, Width, Height, v.current) - v.current.y);
    v.(current := Move(v.current, 0, DropPosition(v.grid, Width, Height, v.current) - v.current.y))
  }

  /** The piece a move or rotation action tries, and whether taking it
      resets the lock delay (the soft drop does not); `None` for the other
      actions. */
  function Candidate(t: Tetromino, action: string): Option<(Tetromino, bool)> {
    if action == "move_left" then Some((Move(t, -1, 0), true))
    else if action == "move_right" then Some((Move(t, 1, 0), true))
    else if action == "soft_drop" then Some((Move(t, 0, 1), false))
    else if action == "rotate_right" then Some((RotateRight(t), true))
    else if action == "rotate_left" then Some((RotateLeft(t), true))
    else None
  }

  /** Moving or rotating keeps a piece well formed. */
  lemma CandidateWellFormed(t: Tetromino, action: string)
    requires WellFormed(t)
    ensures Candidate(t, action).Some? ==> WellFormed(Candidate(t, action).value.0)
  {
    StepsKeepWellFormed(t, -1, 0);
    StepsKeepWellFormed(t, 1, 0);
    StepsKeepWellFormed(t, 0, 1);
  }

  /** `handle_input`, with the state after the action and whether the game
      goes on. */
  function InputStep(v: GameView, action: Option<string>, drawn: Tetromino): (GameView, bool)
    requires Shaped(v)
  {
    if action.None? then (v, true)
    else if action.value == "quit" then (v, false)
    else if action.value == "pause" then (v.(paused := !v.paused), true)
    else if v.paused || v.gameOver then (v, true)
    else if action.value == "hard_drop" then (HardDropStep(v, drawn), true)
    else match Candidate(v.current, action.value)
      case Some((c, reset)) => (TryStep(v, c, reset), true)
      case None => (v, true)
  }

  /** The falling part of a tick: once the fall time reaches the fall
      speed, the piece moves down a row if it can and the fall time starts
      over. */
  function FallStep(v: GameView): GameView
    requires Shaped(v)
  {
    var below := Move(v.current, 0, 1);
    if v.fallTime < v.fallSpeed then v
    else if Accepts(v, below) then v.(current := below, fallTime := 0)
    else v.(fallTime := 0)
  }

  /** The grounded part of a tick: grounding starts the lock delay with
      fresh resets, the timer runs, and the piece locks once it reaches
      the delay; a piece with room below is ungrounded. */
  function GroundStep(v: GameView, delta: int, drawn: Tetromino): GameView
    requires Shaped(v)
  {
    if Accepts(v, Move(v.current, 0, 1)) then FallStep(v.(grounded := false, lockTimer := 0, moveResets := 0))
    else TimerStep(v, delta, drawn)
  }

  /** A piece without room below: it is grounded (with fresh resets if it
      just landed), its lock timer runs on by `delta`, and it locks once
      the timer reaches the delay. */
  function TimerStep(v: GameView, delta: int, drawn: Tetromino): GameView
    requires Shaped(v)
  {
    var timed := Timed(v, delta);
    if timed.lockTimer >= timed.lockDelay then LockStep(timed, drawn) else FallStep(timed)
  }

  /** The piece is grounded, with fresh resets if it just landed, and its
      lock timer has run on by `delta`. */
  function Timed(v: GameView, delta: int): GameView {
    var g := if !v.grounded then v.(grounded := true, lockTimer := 0, moveResets := 0) else v;
    g.(lockTimer := g.lockTimer + delta)
  }

  /** `update_game_state` at time `now`: nothing while paused or over;
      otherwise the elapsed time feeds the fall time and the lock timer. */
  function TickStep(v: GameView, now: int, drawn: Tetromino): GameView
    requires Shaped(v)
  {
    if v.paused || v.gameOver then v
    else GroundStep(Clocked(v, now), now - v.lastUpdate, drawn)
  }

  /** The clock reading at `now`: the elapsed time is added to the fall
      time. */
  function Clocked(v: GameView, now: int): GameView {
    v.(fallTime := v.fallTime + (now - v.lastUpdate), lastUpdate := now)
  }

  // ---------------------------------------------------------------------
  // The game invariant

  /** The counters every step keeps in range: the level is between 1 and
      10 and decides the fall speed, resets never exceed their cap, the
      score and the line count never go negative. */
  predicate Counters(v: GameView) {
    && Shaped(v)
    && 1 <= v.level <= 10
    && v.fallSpeed == State.CalculateFallSpeed(v.level)
    && 0 <= v.moveResets <= v.maxMoveResets
    && v.score >= 0 && v.lines >= 0
  }

  /** ...and while the game is on, the board accepts the current piece. */
  predicate Inv(v: GameView) {
    Counters(v) && (!v.gameOver ==> Accepts(v, v.current))
  }

  /** The new game starts with the invariant: its first piece, at column
      3 of the top row, lies in columns 3 to 6 and rows 0 to 3 of the empty
      board. */
  lemma InitialInv(now: int, first: Tetromino, second: Tetromino)
    requires Drawn(first) && Drawn(second)
    ensures Inv(Initial(now, first, second))
  {
    EmptyBoardAccepts(Width, Height, first);
  }

  /** Spawning keeps the counters, and afterwards the game goes on only
      if the board accepts the new piece. */
  lemma SpawnKeepsInv(v: GameView, drawn: Tetromino)
    requires Counters(v) && Drawn(drawn)
    ensures Inv(SpawnStep(v, drawn))
    ensures !v.gameOver ==> (SpawnStep(v, drawn).gameOver <==> !Accepts(v, v.next.(x := 3, y := 0)))
  {
  }

  /** Locking keeps the invariant, whatever the piece's position. */
  lemma LockKeepsInv(v: GameView, drawn: Tetromino)
    requires Counters(v) && Drawn(drawn)
    ensures Inv(LockStep(v, drawn))
  {
    var s := Settled(v);
    var placed := Placed(v.grid, Width, Height, Blocks(v.current), v.current.color);
    if CountComplete(placed) > 0 {
      assert s.level == ClassicLevel(s.lines);
      assert ClassicScore(CountComplete(placed), v.level) >= 0;
    }
    SpawnKeepsInv(s, drawn);
  }

  lemma ResetKeepsInv(v: GameView)
    requires Inv(v)
    ensures Inv(ResetStep(v))
  {
  }

  lemma TryKeepsInv(v: GameView, candidate: Tetromino, reset: bool)
    requires Inv(v) && WellFormed(candidate)
    ensures Inv(TryStep(v, candidate, reset))
  {
    if Accepts(v, candidate) && reset {
      ResetKeepsInv(v.(current := candidate));
    }
  }

  /** The hard drop keeps the invariant. */
  lemma HardDropKeepsInv(v: GameView, drawn: Tetromino)
    requires Inv(v) && Drawn(drawn)
    ensures Inv(HardDropStep(v, drawn))
  {
    LockKeepsInv(Landed(v), drawn);
  }

  /** Every input keeps the invariant. */
  lemma InputKeepsInv(v: GameView, action: Option<string>, drawn: Tetromino)
    requires Inv(v) && Drawn(drawn)
    ensures Inv(InputStep(v, action, drawn).0)
  {
    if action.Some? && !v.paused && !v.gameOver {
      var c := v.current;
      if action.value == "hard_drop" {
        HardDropKeepsInv(v, drawn);
      } else if Candidate(c, action.value).Some? {
        CandidateWellFormed(c, action.value);
        var (d, reset) := Candidate(c, action.value).value;
        TryKeepsInv(v, d, reset);
      }
    }
  }

  lemma FallKeepsInv(v: GameView)
    requires Inv(v)
    ensures Inv(FallStep(v))
  {
  }

  /** The lock timer keeps the invariant. */
  lemma TimerKeepsInv(v: GameView, delta: int, drawn: Tetromino)
    requires Inv(v) && Drawn(drawn)
    ensures Inv(TimerStep(v, delta, drawn))
  {
    var timed := Timed(v, delta);
    if timed.lockTimer >= timed.lockDelay {
      LockKeepsInv(timed, drawn);
    } else {
      FallKeepsInv(timed);
    }
  }

  /** Every tick keeps the invariant. */
  lemma TickKeepsInv(v: GameView, now: int, drawn: Tetromino)
    requires Inv(v) && Drawn(drawn)
    ensures Inv(TickStep(v, now, drawn))
  {
    if !v.paused && !v.gameOver {
      var u := Clocked(v, now);
      if Accepts(u, Move(u.current, 0, 1)) {
        FallKeepsInv(u.(grounded := false, lockTimer := 0, moveResets := 0));
      } else {
        TimerKeepsInv(u, now - v.lastUpdate, drawn);
      }
    }
  }

  // ---------------------------------------------------------------------
  // What each step does

  /** Levels stop at 10, where the fall speed reaches its 50 ms floor; the
      refactored rule keeps counting (level 11 at 100 lines). Below the cap
      the two rules agree. */
  lemma LevelCap(lines: int)
    requires lines >= 0
    ensures lines >= 90 ==> ClassicLevel(lines) == 10
    ensures lines < 90 ==> ClassicLevel(lines) == State.CalculateLevel(0, lines)
    ensures 1 <= ClassicLevel(lines) <= 10
    ensures State.CalculateFallSpeed(ClassicLevel(lines)) == 500 - (ClassicLevel(lines) - 1) * 50
    ensures ClassicLevel(100) == 10 && State.CalculateLevel(0, 100) == 11
  {
    assert State.CalculateLevel(0, 100) == 11;
  }

  /** Locking places the piece and removes every complete row, leaving
      none; with no complete row the board is the one with the piece
      placed. */
  lemma LockGridFacts(v: GameView, drawn: Tetromino)
    requires Shaped(v)
    ensures
      var placed := Placed(v.grid, Width, Height, Blocks(v.current), v.current.color);
      var r := LockStep(v, drawn);
      && r.grid == Cleared(placed, Width)
      && (forall i :: 0 <= i < Height ==> !Complete(r.grid[i]))
      && (CountComplete(placed) == 0 ==> r.grid == placed)
  {
    var placed := Placed(v.grid, Width, Height, Blocks(v.current), v.current.color);
    assert LockStep(v, drawn).grid == Cleared(placed, Width);
    ClearedProperties(placed, Width, Height);
    if CountComplete(placed) == 0 {
      ClearedNoComplete(placed, Width);
    }
  }

  /** Locking counts the cleared rows, scores them at the level the piece
      fell at, and recomputes level and fall speed only when a row went. */
  lemma LockCountFacts(v: GameView, drawn: Tetromino)
    requires Shaped(v)
    ensures
      var n := CountComplete(Placed(v.grid, Width, Height, Blocks(v.current), v.current.color));
      var r := LockStep(v, drawn);
      && r.lines == v.lines + n
      && r.score == v.score + ClassicScore(n, v.level)
      && (n > 0 ==> r.level == ClassicLevel(r.lines) && r.fallSpeed == State.CalculateFallSpeed(r.level))
      && (n == 0 ==> r.level == v.level && r.fallSpeed == v.fallSpeed)
  {
  }

  /** Locking spawns the next piece with a fresh lock delay; the game is
      over exactly when it was or the cleared board refuses that piece. */
  lemma LockSpawnFacts(v: GameView, drawn: Tetromino)
    requires Shaped(v)
    ensures
      var r := LockStep(v, drawn);
      && r.current == v.next.(x := 3, y := 0) && r.next == drawn
      && !r.grounded && r.lockTimer == 0 && r.moveResets == 0
      && (r.gameOver <==> v.gameOver || !ValidPosition(r.grid, Width, Height, r.current))
  {
  }

  /** A reset restarts the timer only for a grounded piece with resets
      left; once the cap is reached moves go on being taken but the timer
      runs on and the piece is not forced down. */
  lemma ResetFacts(v: GameView, candidate: Tetromino)
    requires Shaped(v) && v.moveResets <= v.maxMoveResets
    ensures ResetStep(v).moveResets <= v.maxMoveResets
    ensures ResetStep(v).lockTimer == 0 || ResetStep(v).lockTimer == v.lockTimer
    ensures v.grounded && v.moveResets < v.maxMoveResets ==>
      ResetStep(v).lockTimer == 0 && ResetStep(v).moveResets == v.moveResets + 1
    ensures v.grounded && v.moveResets == v.maxMoveResets && Accepts(v, candidate) ==>
      TryStep(v, candidate, true) == v.(current := candidate)
  {
  }

  /** A move is taken exactly when the board accepts it, and never
      touches the board. */
  lemma TryFacts(v: GameView, candidate: Tetromino, reset: bool)
    requires Shaped(v)
    ensures TryStep(v, candidate, reset).current == (if Accepts(v, candidate) then candidate else v.current)
    ensures TryStep(v, candidate, reset).grid == v.grid
    ensures !reset || !Accepts(v, candidate) ==> TryStep(v, candidate, reset).lockTimer == v.lockTimer
  {
  }

  /** Quitting ends the loop and changes nothing; pausing toggles even
      after the game is over; while paused or over every other action is
      ignored. */
  lemma InputFacts(v: GameView, action: Option<string>, drawn: Tetromino)
    requires Shaped(v)
    ensures InputStep(v, action, drawn).1 <==> !(action.Some? && action.value == "quit")
    ensures action.Some? && action.value == "quit" ==> InputStep(v, action, drawn).0 == v
    ensures action.Some? && action.value == "pause" ==> InputStep(v, action, drawn).0 == v.(paused := !v.paused)
    ensures (v.paused || v.gameOver) && !(action.Some? && action.value == "pause") ==>
      InputStep(v, action, drawn).0 == v
    ensures InputStep(v, action, drawn).0.grid != v.grid ==>
      action == Some("hard_drop") && !v.paused && !v.gameOver
  {
    if action.Some? && action.value != "quit" && action.value != "pause" && action.value != "hard_drop"
       && !v.paused && !v.gameOver && Candidate(v.current, action.value).Some? {
      var (d, reset) := Candidate(v.current, action.value).value;
      TryFacts(v, d, reset);
    }
  }

  /** A tick does nothing while paused or over. A piece with room below is
      ungrounded and never locked: the board stays, and the piece falls a
      row once the fall is due. */
  lemma TickFreeFacts(v: GameView, now: int, drawn: Tetromino)
    requires Shaped(v)
    ensures v.paused || v.gameOver ==> TickStep(v, now, drawn) == v
    ensures
      var delta := now - v.lastUpdate;
      var r := TickStep(v, now, drawn);
      var below := Move(v.current, 0, 1);
      !v.paused && !v.gameOver && Accepts(v, below) ==>
        && r.grid == v.grid && !r.grounded && r.lockTimer == 0 && r.moveResets == 0
        && r.current == (if v.fallTime + delta >= v.fallSpeed then below else v.current)
        && r.lastUpdate == now
  {
  }

  /** A tick of a running game whose piece has no room below runs the
      lock timer. */
  lemma TickIsTimer(v: GameView, now: int, drawn: Tetromino)
    requires Shaped(v) && !v.paused && !v.gameOver && !Accepts(v, Move(v.current, 0, 1))
    ensures TickStep(v, now, drawn) == TimerStep(Clocked(v, now), now - v.lastUpdate, drawn)
  {
    assert Accepts(Clocked(v, now), Move(v.current, 0, 1)) == Accepts(v, Move(v.current, 0, 1));
  }

  /** A piece without room below locks once its lock timer, counted from
      when it landed (with fresh resets then), reaches the delay. */
  lemma TickLocksWhenDue(v: GameView, now: int, drawn: Tetromino)
    requires Shaped(v) && !v.paused && !v.gameOver && !Accepts(v, Move(v.current, 0, 1))
    requires (if v.grounded then v.lockTimer else 0) + (now - v.lastUpdate) >= v.lockDelay
    ensures
      var delta := now - v.lastUpdate;
      TickStep(v, now, drawn) ==
        LockStep(v.(fallTime := v.fallTime + delta, lastUpdate := now, grounded := true,
                    lockTimer := (if v.grounded then v.lockTimer else 0) + delta,
                    moveResets := if v.grounded then v.moveResets else 0), drawn)
  {
    TickIsTimer(v, now, drawn);
  }

  /** Until then it stays where it is, grounded, with its timer running,
      and the fall time starts over once the fall is due. */
  lemma TickWaitsUntilDue(v: GameView, now: int, drawn: Tetromino)
    requires Shaped(v) && !v.paused && !v.gameOver && !Accepts(v, Move(v.current, 0, 1))
    requires (if v.grounded then v.lockTimer else 0) + (now - v.lastUpdate) < v.lockDelay
    ensures
      var delta := now - v.lastUpdate;
      TickStep(v, now, drawn) ==
        v.(fallTime := if v.fallTime + delta >= v.fallSpeed then 0 else v.fallTime + delta,
           lastUpdate := now, grounded := true,
           lockTimer := (if v.grounded then v.lockTimer else 0) + delta,
           moveResets := if v.grounded then v.moveResets else 0)
  {
    TickIsTimer(v, now, drawn);
    var u := Timed(Clocked(v, now), now - v.lastUpdate);
    assert !Accepts(u, Move(u.current, 0, 1));
  }

  // ---------------------------------------------------------------------
  // The game object

  class TetrisGame {
    const board: GameBoard
    var current: Tetromino
    var next: Tetromino
    var score: int
    var level: int
    var linesCleared: int
    var fallTime: int
    var fallSpeed: int
    var lockDelay: int
    var lockTimer: int
    var isGrounded: bool
    var moveResets: int
    var maxMoveResets: int
    var gameOver: bool
    var paused: bool
    var lastUpdate: int

    /** The board object is 10 x 20. */
    ghost predicate Valid()
      reads this, board
    {
      board.Valid() && board.width == Width && board.height == Height && WellFormed(current) && WellFormed(next)
    }

    /** The game's fields with the board's grid. */
    function View(): GameView
      reads this, board
    {
      GameView(board.board, current, next, score, level, linesCleared, fallTime, fallSpeed, lockDelay,
               lockTimer, isGrounded, moveResets, maxMoveResets, gameOver, paused, lastUpdate)
    }

    /** A new game at time `now` with its two drawn pieces. */
    constructor(now: int, first: Tetromino, second: Tetromino)
      requires Drawn(first) && Drawn(second)
      ensures Valid() && fresh(board) && View() == Initial(now, first, second)
    {
      board := new GameBoard(Width, Height);
      current := first;
      next := second;
      score, level, linesCleared := 0, 1, 0;
      fallTime, fallSpeed := 0, 500;
      lockDelay, lockTimer, isGrounded := 500, 0, false;
      moveResets, maxMoveResets := 0, 15;
      gameOver, paused := false, false;
      lastUpdate := now;
    }

    /** `spawn_new_tetromino`. */
    method SpawnNewTetromino(drawn: Tetromino)
      requires Valid() && Drawn(drawn)
      modifies this
      ensures Valid() && View() == SpawnStep(old(View()), drawn)
    {
      ghost var v := View();
      var spawned := next.(x := 3, y := 0);
      var ok := board.IsValidPosition(spawned);
      current, next := spawned, drawn;
      isGrounded, lockTimer, moveResets := false, 0, 0;
      if !ok {
        gameOver := true;
      }
      assert View() == Spawned(v, drawn, ok);
    }

    /** `reset_lock_delay`. */
    method ResetLockDelay()
      requires Valid()
      modifies this
      ensures Valid() && View() == ResetStep(old(View()))
    {
      if isGrounded && moveResets < maxMoveResets {
        lockTimer := 0;
        moveResets := moveResets + 1;
      }
    }

    /** `lock_tetromino`. */
    method LockTetromino(drawn: Tetromino)
      requires Valid() && Drawn(drawn)
      modifies this, board
      ensures Valid() && View() == LockStep(old(View()), drawn)
    {
      Settle();
      SpawnNewTetromino(drawn);
    }

    /** The part of `lock_tetromino` before the spawn: place the piece,
        clear lines, and update lines, score, level and fall speed when
        any went. */
    method Settle()
      requires Valid()
      modifies this, board
      ensures Valid() && View() == Settled(old(View()))
    {
      ghost var v := View();
      board.PlaceTetromino(current);
      var cleared := board.ClearLines();
      ghost var placed := Placed(v.grid, Width, Height, Blocks(v.current), v.current.color);
      assert View() == v.(grid := Cleared(placed, Width));
      AddLines(cleared);
    }

    /** The line count, score, level and fall speed after clearing `n`
        lines. */
    method AddLines(n: int)
      requires Valid()
      modifies this
      ensures Valid() && View() == Scored(old(View()), n)
    {
      if n > 0 {
        var lines := linesCleared + n;
        var newLevel := ClassicLevel(lines);
        linesCleared, score := lines, score + ClassicScore(n, level);
        level, fallSpeed := newLevel, State.CalculateFallSpeed(newLevel);
      }
    }

    /** A move or rotation to `candidate`, as `handle_input` makes it. */
    method TryMove(candidate: Tetromino, reset: bool)
      requires Valid() && WellFormed(candidate)
      modifies this
      ensures Valid() && View() == TryStep(old(View()), candidate, reset)
    {
      var ok := board.IsValidPosition(candidate);
      if ok {
        current := candidate;
        if reset {
          ResetLockDelay();
        }
      }
    }

    /** The hard drop of `handle_input`: the piece moves to the row
        `get_drop_position` finds and is locked there. */
    method HardDrop(drawn: Tetromino)
      requires Valid() && Drawn(drawn)
      modifies this, board
      ensures Valid() && View() == HardDropStep(old(View()), drawn)
    {
      ghost var v := View();
      var dropY := board.GetDropPosition(current);
      current := Move(current, 0, dropY - current.y);
      assert View() == Landed(v);
      LockTetromino(drawn);
    }

    /** `handle_input` with the action read from the input handler, or
        `None` when no key was pressed; false means quit. */
    method HandleInput(action: Option<string>, drawn: Tetromino) returns (cont: bool)
      requires Valid() && Drawn(drawn)
      modifies this, board
      ensures Valid() && (View(), cont) == InputStep(old(View()), action, drawn)
    {
      if action.None? {
        return true;
      }
      var a := action.value;
      if a == "quit" {
        return false;
      } else if a == "pause" {
        paused := !paused;
        return true;
      }
      if paused || gameOver {
        return true;
      }
      cont := true;
      if a == "move_left" {
        TryMove(Move(current, -1, 0), true);
      } else if a == "move_right" {
        TryMove(Move(current, 1, 0), true);
      } else if a == "soft_drop" {
        TryMove(Move(current, 0, 1), false);
      } else if a == "hard_drop" {
        HardDrop(drawn);
      } else if a == "rotate_right" {
        TryMove(RotateRight(current), true);
      } else if a == "rotate_left" {
        TryMove(RotateLeft(current), true);
      }
    }

    /** `update_game_state` with the clock reading `now`. */
    method UpdateGameState(now: int, drawn: Tetromino)
      requires Valid() && Drawn(drawn)
      modifies this, board
      ensures Valid() && View() == TickStep(old(View()), now, drawn)
    {
      if paused || gameOver {
        return;
      }
      ghost var v := View();
      var delta := now - lastUpdate;
      fallTime, lastUpdate := fallTime + delta, now;
      assert View() == Clocked(v, now);
      UpdateGrounding(delta, drawn, Clocked(v, now));
    }

    /** The grounding check of `update_game_state`, after the elapsed time
        `delta` was added to the fall time. */
    method UpdateGrounding(delta: int, drawn: Tetromino, ghost v: GameView)
      requires Valid() && Drawn(drawn) && View() == v
      modifies this, board
      ensures Valid() && View() == GroundStep(v, delta, drawn)
    {
      var below := Move(current, 0, 1);
      var free := board.IsValidPosition(below);
      if free {
        isGrounded, lockTimer, moveResets := false, 0, 0;
        UpdateFalling(below, free);
      } else {
        RunLockTimer(delta, drawn);
      }
    }

    /** The grounded branch of `update_game_state`. */
    method RunLockTimer(delta: int, drawn: Tetromino)
      requires Valid() && Drawn(drawn) && !Accepts(View(), Move(current, 0, 1))
      modifies this, board
      ensures Valid() && View() == TimerStep(old(View()), delta, drawn)
    {
      ghost var v := View();
      if !isGrounded {
        isGrounded, lockTimer, moveResets := true, 0, 0;
      }
      lockTimer := lockTimer + delta;
      assert View() == Timed(v, delta);
      if lockTimer >= lockDelay {
        LockTetromino(drawn);
      } else {
        UpdateFalling(Move(current, 0, 1), false);
      }
    }

    /** The normal fall of `update_game_state`, given the piece one row
        down and whether the board accepts it. */
    method UpdateFalling(below: Tetromino, free: bool)
      requires Valid() && below == Move(current, 0, 1) && free == Accepts(View(), below)
      modifies this
      ensures Valid() && View() == FallStep(old(View()))
    {
      if fallTime >= fallSpeed {
        if free {
          current := below;
        }
        fallTime := 0;
      }
    }
  }
}
