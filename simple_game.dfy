/** The debugging variant of the original game: the same pieces and board,
    one-key commands, no lock delay and no pause. Each key is a parameter,
    and each random piece is picked by a `drawn`. */
module SimpleGame {
  import opened Cells
  import opened ClassicTetromino
  import opened ClassicBoard
  import ClassicGame

  const Width := ClassicGame.Width
  const Height := ClassicGame.Height

  /** The fields of the game object and the board's grid. */
  datatype SimpleView = SimpleView(
    grid: Grid,
    current: Tetromino,
    next: Tetromino,
    score: int,
    level: int,
    lines: int,
    gameOver: bool,
    running: bool)

  /** The grid is 10 x 20 and both pieces are as the tables make them. */
  predicate Shaped(v: SimpleView) {
    IsRect(v.grid, Width, Height) && WellFormed(v.current) && WellFormed(v.next)
  }

  predicate Accepts(v: SimpleView, t: Tetromino)
    requires Shaped(v)
  {
    ValidPosition(v.grid, Width, Height, t)
  }

  /** The new game: two random pieces, an empty board, level 1, running. */
  function Initial(first: Tetromino, second: Tetromino): SimpleView {
    SimpleView(ZeroRows(Width, Height), first, second, 0, 1, 0, false, true)
  }

  // ---------------------------------------------------------------------
  // The game's steps as functions of its state

  /** `spawn_new_tetromino`: the next piece becomes current at column 3 of
      the top row, a new one is drawn, and the game is over if the board
      refuses the new piece. */
  function SpawnStep(v: SimpleView, drawn: Tetromino): SimpleView
    requires Shaped(v)
  {
    var spawned := v.next.(x := 3, y := 0);
    v.(current := spawned, next := drawn, gameOver := if !Accepts(v, spawned) then true else v.gameOver)
  }

  /** The state after placing the piece and clearing lines, before the
      spawn. */
  function Settled(v: SimpleView): (r: SimpleView)
    requires Shaped(v)
    ensures Shaped(r)
  {
    var placed := Placed(v.grid, Width, Height, Blocks(v.current), v.current.color);
    ClearedRect(placed, Width, Height);
    Scored(v.(grid := Cleared(placed, Width)), CountComplete(placed))
  }

  /** The counters after `n` lines were cleared: they change only when a
      line went; the score is counted at the old level. */
  function Scored(v: SimpleView, n: int): (r: SimpleView)
  {
    if n > 0 then
      var lines := v.lines + n;
      v.(lines := lines, score := v.score + ClassicGame.ClassicScore(n, v.level), level := ClassicGame.ClassicLevel(lines))
    else v
  }

  /** `lock_tetromino`: place, clear, score, then spawn. */
  function LockStep(v: SimpleView, drawn: Tetromino): SimpleView
    requires Shaped(v)
  {
    SpawnStep(Settled(v), drawn)
  }

  /** A move or rotation, taken only when the board accepts it. */
  function TryStep(v: SimpleView, candidate: Tetromino): SimpleView
    requires Shaped(v)
  {
    if Accepts(v, candidate) then v.(current := candidate) else v
  }

  /** The soft drop: one row down, or the piece locks where it is. */
  function DropStep(v: SimpleView, drawn: Tetromino): SimpleView
    requires Shaped(v)
  {
    var below := Move(v.current, 0, 1);
    if Accepts(v, below) then v.(current := below) else LockStep(v, drawn)
  }

  /** `handle_input(key)`: `q` stops the loop even after the game is over;
      once it is over every other key is ignored; `a`, `d` and `w` move
      left, right and rotate, `s` drops (or locks); other keys do nothing. */
  function KeyStep(v: SimpleView, key: char, drawn: Tetromino): SimpleView
    requires Shaped(v)
  {
    if key == 'q' then v.(running := false)
    else if v.gameOver then v
    else if key == 'a' then TryStep(v, Move(v.current, -1, 0))
    else if key == 'd' then TryStep(v, Move(v.current, 1, 0))
    else if key == 's' then DropStep(v, drawn)
    else if key == 'w' then TryStep(v, RotateRight(v.current))
    else v
  }

  /** The fall of the main loop once a second has passed: the piece moves
      down a row or locks, unless the game is over. */
  function GravityStep(v: SimpleView, drawn: Tetromino): SimpleView
    requires Shaped(v)
  {
    if v.gameOver then v else DropStep(v, drawn)
  }

  // ---------------------------------------------------------------------
  // The game invariant

  /** The level is always the one the line count gives, and the score and
      the line count never go negative. */
  predicate Counters(v: SimpleView) {
    && Shaped(v)
    && v.level == ClassicGame.ClassicLevel(v.lines)
    && v.score >= 0 && v.lines >= 0
  }

  /** ...and while the game is on, the board accepts the current piece. */
  predicate Inv(v: SimpleView) {
    Counters(v) && (!v.gameOver ==> Accepts(v, v.current))
  }

  /** The level stays between 1 and 10. */
  lemma CountersLevel(v: SimpleView)
    requires Counters(v)
    ensures 1 <= v.level <= 10
  {
  }

  /** The new game starts with the invariant. */
  lemma InitialInv(first: Tetromino, second: Tetromino)
    requires Drawn(first) && Drawn(second)
    ensures Inv(Initial(first, second))
  {
    EmptyBoardAccepts(Width, Height, first);
  }

  /** Spawning keeps the counters, and afterwards the game goes on only if
      the board accepts the new piece. */
  lemma SpawnKeepsInv(v: SimpleView, drawn: Tetromino)
    requires Counters(v) && Drawn(drawn)
    ensures Inv(SpawnStep(v, drawn))
  {
  }

  /** Locking keeps the invariant, whatever the piece's position. */
  lemma LockKeepsInv(v: SimpleView, drawn: Tetromino)
    requires Counters(v) && Drawn(drawn)
    ensures Inv(LockStep(v, drawn))
  {
    var placed := Placed(v.grid, Width, Height, Blocks(v.current), v.current.color);
    if CountComplete(placed) > 0 {
      assert ClassicGame.ClassicScore(CountComplete(placed), v.level) >= 0;
    }
    SpawnKeepsInv(Settled(v), drawn);
  }

  lemma TryKeepsInv(v: SimpleView, candidate: Tetromino)
    requires Inv(v) && WellFormed(candidate)
    ensures Inv(TryStep(v, candidate))
  {
  }

  lemma DropKeepsInv(v: SimpleView, drawn: Tetromino)
    requires Inv(v) && Drawn(drawn)
    ensures Inv(DropStep(v, drawn))
  {
    StepsKeepWellFormed(v.current, 0, 1);
    if !Accepts(v, Move(v.current, 0, 1)) {
      LockKeepsInv(v, drawn);
    }
  }

  /** Every key keeps the invariant. */
  lemma KeyKeepsInv(v: SimpleView, key: char, drawn: Tetromino)
    requires Inv(v) && Drawn(drawn)
    ensures Inv(KeyStep(v, key, drawn))
  {
    StepsKeepWellFormed(v.current, -1, 0);
    StepsKeepWellFormed(v.current, 1, 0);
    if key != 'q' && !v.gameOver && key == 's' {
      DropKeepsInv(v, drawn);
    }
  }

  /** The main loop's fall keeps the invariant. */
  lemma GravityKeepsInv(v: SimpleView, drawn: Tetromino)
    requires Inv(v) && Drawn(drawn)
    ensures Inv(GravityStep(v, drawn))
  {
    if !v.gameOver {
      DropKeepsInv(v, drawn);
    }
  }

  // ---------------------------------------------------------------------
  // What each step does

  /** `q` only stops the loop, game over or not; no other key stops it,
      and once the game is over every other key is ignored. */
  lemma QuitFacts(v: SimpleView, key: char, drawn: Tetromino)
    requires Shaped(v)
    ensures key == 'q' ==> KeyStep(v, key, drawn) == v.(running := false)
    ensures KeyStep(v, key, drawn).running <==> v.running && key != 'q'
    ensures v.gameOver && key != 'q' ==> KeyStep(v, key, drawn) == v
  {
    if key != 'q' && !v.gameOver && key == 's' {
      LockSpawnFacts(v, drawn);
    }
  }

  /** `a`, `d` and `w` in a running game take the move or rotation exactly
      when the board accepts it and change nothing else. */
  lemma MoveKeyFacts(v: SimpleView, key: char, drawn: Tetromino)
    requires Shaped(v) && !v.gameOver && (key == 'a' || key == 'd' || key == 'w')
    ensures
      var c := if key == 'a' then Move(v.current, -1, 0)
               else if key == 'd' then Move(v.current, 1, 0)
               else RotateRight(v.current);
      KeyStep(v, key, drawn) == if Accepts(v, c) then v.(current := c) else v
  {
  }

  /** `s` in a running game moves the piece one row down when the board
      accepts that, and otherwise locks it. */
  lemma SoftDropFacts(v: SimpleView, drawn: Tetromino)
    requires Shaped(v) && !v.gameOver
    ensures Accepts(v, Move(v.current, 0, 1)) ==> KeyStep(v, 's', drawn) == v.(current := Move(v.current, 0, 1))
    ensures !Accepts(v, Move(v.current, 0, 1)) ==> KeyStep(v, 's', drawn) == LockStep(v, drawn)
  {
  }

  /** Every key but `s` leaves the board as it is. */
  lemma KeyKeepsGrid(v: SimpleView, key: char, drawn: Tetromino)
    requires Shaped(v) && key != 's'
    ensures KeyStep(v, key, drawn).grid == v.grid
  {
  }

  /** The main loop's fall is the `s` key of a running game, and does
      nothing once the game is over. */
  lemma GravityIsSoftDrop(v: SimpleView, drawn: Tetromino)
    requires Shaped(v)
    ensures !v.gameOver ==> GravityStep(v, drawn) == KeyStep(v, 's', drawn)
    ensures v.gameOver ==> GravityStep(v, drawn) == v
  {
  }

  /** Locking places the piece and removes every complete row, leaving
      none. */
  lemma LockGridFacts(v: SimpleView, drawn: Tetromino)
    requires Shaped(v)
    ensures
      var placed := Placed(v.grid, Width, Height, Blocks(v.current), v.current.color);
      var r := LockStep(v, drawn);
      && r.grid == Cleared(placed, Width)
      && (forall i :: 0 <= i < Height ==> !Complete(r.grid[i]))
      && (CountComplete(placed) == 0 ==> r.grid == placed)
  {
    var placed := Placed(v.grid, Width, Height, Blocks(v.current), v.current.color);
    assert LockStep(v, drawn).grid == Cleared(placed, Width);
    ClearedProperties(placed, Width, Height);
    if CountComplete(placed) == 0 {
      ClearedNoComplete(placed, Width);
    }
  }

  /** Locking counts the cleared rows and scores them by the table at the
      level the piece fell at; the level follows the line count. */
  lemma LockCountFacts(v: SimpleView, drawn: Tetromino)
    requires Shaped(v)
    ensures
      var n := CountComplete(Placed(v.grid, Width, Height, Blocks(v.current), v.current.color));
      var r := LockStep(v, drawn);
      && r.lines == v.lines + n
      && r.score == v.score + (if n <= 4 then [0, 40, 100, 300, 1200][n] else 0) * v.level
      && r.level == (if n > 0 then ClassicGame.ClassicLevel(r.lines) else v.level)
  {
  }

  /** Locking spawns the next piece; the game is over exactly when it was
      or the cleared board refuses that piece, and the loop keeps running. */
  lemma LockSpawnFacts(v: SimpleView, drawn: Tetromino)
    requires Shaped(v)
    ensures
      var r := LockStep(v, drawn);
      && r.current == v.next.(x := 3, y := 0) && r.next == drawn && r.running == v.running
      && (r.gameOver <==> v.gameOver || !ValidPosition(r.grid, Width, Height, r.current))
  {
  }

  /** The state of the original game seen through the fields this variant
      has. */
  function Project(g: ClassicGame.GameView, running: bool): (v: SimpleView)
    ensures ClassicGame.Shaped(g) ==> Shaped(v)
  {
    SimpleView(g.grid, g.current, g.next, g.score, g.level, g.lines, g.gameOver, running)
  }

  /** The variant locks exactly as the original game does: the same board,
      pieces, score, lines, level and game-over flag. */
  lemma LockAgreesWithClassic(g: ClassicGame.GameView, running: bool, drawn: Tetromino)
    requires ClassicGame.Shaped(g)
    ensures Project(ClassicGame.LockStep(g, drawn), running) == LockStep(Project(g, running), drawn)
  {
    var placed := Placed(g.grid, Width, Height, Blocks(g.current), g.current.color);
    assert Project(ClassicGame.Settled(g), running) == Settled(Project(g, running));
  }

  // ---------------------------------------------------------------------
  // The game object

  class SimpleTetris {
    const board: GameBoard
    var current: Tetromino
    var next: Tetromino
    var score: int
    var level: int
    var linesCleared: int
    var gameOver: bool
    var running: bool

    /** The board object is 10 x 20 and both pieces are well formed. */
    ghost predicate Valid()
      reads this, board
    {
      board.Valid() && board.width == Width && board.height == Height && WellFormed(current) && WellFormed(next)
    }

    /** The game's fields with the board's grid. */
    function View(): SimpleView
      reads this, board
    {
      SimpleView(board.board, current, next, score, level, linesCleared, gameOver, running)
    }

    /** A new game with its two drawn pieces; the terminal set-up is not
        modelled. */
    constructor(first: Tetromino, second: Tetromino)
      requires Drawn(first) && Drawn(second)
      ensures Valid() && fresh(board) && View() == Initial(first, second)
    {
      board := new GameBoard(Width, Height);
      current, next := first, second;
      score, level, linesCleared := 0, 1, 0;
      gameOver, running := false, true;
    }

    /** `spawn_new_tetromino`. */
    method SpawnNewTetromino(drawn: Tetromino)
      requires Valid() && Drawn(drawn)
      modifies this
      ensures Valid() && View() == SpawnStep(old(View()), drawn)
    {
      var spawned := next.(x := 3, y := 0);
      current := spawned;
      next := drawn;
      var ok := board.IsValidPosition(current);
      if !ok {
        gameOver := true;
      }
    }

    /** `lock_tetromino`. */
    method LockTetromino(drawn: Tetromino)
      requires Valid() && Drawn(drawn)
      modifies this, board
      ensures Valid() && View() == LockStep(old(View()), drawn)
    {
      Settle();
      SpawnNewTetromino(drawn);
    }

    /** The part of `lock_tetromino` before the spawn. */
    method Settle()
      requires Valid()
      modifies this, board
      ensures Valid() && View() == Settled(old(View()))
    {
      ghost var v := View();
      board.PlaceTetromino(current);
      var cleared := board.ClearLines();
      ghost var placed := Placed(v.grid, Width, Height, Blocks(v.current), v.current.color);
      assert View() == v.(grid := Cleared(placed, Width));
      AddLines(cleared);
    }

    /** The line count, score and level after clearing `n` lines. */
    method AddLines(n: int)
      requires Valid()
      modifies this
      ensures Valid() && View() == Scored(old(View()), n)
    {
      if n > 0 {
        linesCleared := linesCleared + n;
        score := score + ClassicGame.ClassicScore(n, level);
        level := ClassicGame.ClassicLevel(linesCleared);
      }
    }

    /** A move or rotation to `candidate`, taken if the board accepts it. */
    method TryMove(candidate: Tetromino)
      requires Valid() && WellFormed(candidate)
      modifies this
      ensures Valid() && View() == TryStep(old(View()), candidate)
    {
      var ok := board.IsValidPosition(candidate);
      if ok {
        current := candidate;
      }
    }

    /** The soft drop of `handle_input`. */
    method SoftDrop(drawn: Tetromino)
      requires Valid() && Drawn(drawn)
      modifies this, board
      ensures Valid() && View() == DropStep(old(View()), drawn)
    {
      var below := Move(current, 0, 1);
      StepsKeepWellFormed(current, 0, 1);
      var ok := board.IsValidPosition(below);
      if ok {
        current := below;
      } else {
        LockTetromino(drawn);
      }
    }

    /** `handle_input(key)`. */
    method HandleInput(key: char, drawn: Tetromino)
      requires Valid() && Drawn(drawn)
      modifies this, board
      ensures Valid() && View() == KeyStep(old(View()), key, drawn)
    {
      if key == 'q' {
        running := false;
        return;
      }
      if gameOver {
        return;
      }
      StepsKeepWellFormed(current, 0, 0);
      if key == 'a' {
        TryMove(Move(current, -1, 0));
      } else if key == 'd' {
        TryMove(Move(current, 1, 0));
      } else if key == 's' {
        SoftDrop(drawn);
      } else if key == 'w' {
        TryMove(RotateRight(current));
      }
    }
  }
}
