/** The immutable game-state record of the refactored game and the manager
    that replaces it on every change, validates each replacement and keeps
    a bounded history for undo. */
module State {
  import opened Wrappers
  import opened Cells

  datatype GameStatus = Menu | Playing | Paused | GameOver | Finished

  /** A positioned piece: its type name, board position of the shape's
      top-left cell, rotation index, shape grid and colour. */
  datatype TetrominoState = TetrominoState(
    shapeType: string,
    x: int,
    y: int,
    rotation: int,
    shape: Grid,
    color: int)

  /** One snapshot of the whole game. */
  datatype GameState = GameState(
    status: GameStatus,
    board: Grid,
    boardWidth: int,
    boardHeight: int,
    currentPiece: Option<TetrominoState>,
    nextPiece: Option<TetrominoState>,
    ghostPiece: Option<TetrominoState>,
    score: int,
    level: int,
    linesCleared: int,
    totalPieces: int,
    fallTime: int,
    fallSpeed: int,
    lockDelay: int,
    lockTimer: int,
    isGrounded: bool,
    moveResets: int,
    maxMoveResets: int,
    lastInputTime: int,
    inputRepeatDelay: int)

  /** A state built with every field at its default except the status;
      the board defaults to an empty 10 x 20 grid. */
  function NewGameState(status: GameStatus): (s: GameState)
    ensures s.status == status
    ensures IsRect(s.board, s.boardWidth, s.boardHeight)
    ensures s.board == ZeroRows(10, 20) && s.boardWidth == 10 && s.boardHeight == 20
    ensures s.currentPiece.None? && s.nextPiece.None? && s.ghostPiece.None?
    ensures s.score == 0 && s.level == 1 && s.linesCleared == 0 && s.totalPieces == 0
    ensures s.fallTime == 0 && s.fallSpeed == 500 && s.lockDelay == 500 && s.lockTimer == 0
    ensures !s.isGrounded && s.moveResets == 0 && s.maxMoveResets == 15
    ensures s.lastInputTime == 0 && s.inputRepeatDelay == 100
  {
    GameState(status, ZeroRows(10, 20), 10, 20, None, None, None,
              0, 1, 0, 0, 0, 500, 500, 0, false, 0, 15, 0, 100)
  }

  datatype StateError =
    | InvalidBoard
    | NegativeScore
    | LevelBelowOne
    | InvalidPiecePosition
    | UnknownPieceType(kind: string)

  const MaxHistorySize := 100

  // ---------------------------------------------------------------------
  // Validation

  /** A nonempty board of `height` rows of `width` cells, none negative. */
  predicate BoardOk(board: Grid, width: int, height: int) {
    && |board| != 0
    && |board| == height
    && forall i :: 0 <= i < |board| ==>
         |board[i]| == width && forall j :: 0 <= j < width ==> board[i][j] >= 0
  }

  /** The board cell at column `bx`, row `by` exists and is empty. */
  predicate CellFree(board: Grid, col: int, row: int) {
    0 <= row < |board| && 0 <= col < |board[row]| && board[row][col] == 0
  }

  /** The manager's own placement rule: the piece's position is not
      negative and each occupied cell lands on an empty cell inside the
      board (unlike the board's rule, nothing may stick out above). */
  ghost predicate PieceOnBoard(piece: TetrominoState, board: Grid) {
    && piece.x >= 0 && piece.y >= 0
    && forall r, c :: Filled(piece.shape, r, c) ==> CellFree(board, piece.x + c, piece.y + r)
  }

  /** The first check a replacement state `s` fails, in the order the
      manager checks them, or None. The board is measured against the
      dimensions of the state being replaced. A present piece is always
      checked: a piece record is never falsy. */
  ghost function StateCheck(current: GameState, s: GameState): (e: Option<StateError>)
    ensures e == None <==>
      && BoardOk(s.board, current.boardWidth, current.boardHeight)
      && s.score >= 0 && s.level >= 1
      && (s.currentPiece.Some? ==> PieceOnBoard(s.currentPiece.value, s.board))
  {
    if !BoardOk(s.board, current.boardWidth, current.boardHeight) then Some(InvalidBoard)
    else if s.score < 0 then Some(NegativeScore)
    else if s.level < 1 then Some(LevelBelowOne)
    else if s.currentPiece.Some? && !PieceOnBoard(s.currentPiece.value, s.board) then
      Some(InvalidPiecePosition)
    else None
  }

  /** A fresh state of any status passes validation against itself. */
  lemma NewGameStateValid(status: GameStatus)
    ensures StateCheck(NewGameState(status), NewGameState(status)) == None
  {
    var s := NewGameState(status);
    assert forall i :: 0 <= i < |s.board| ==> s.board[i] == ZeroRow(10);
  }

  // ---------------------------------------------------------------------
  // Level and fall speed

  /** One level per ten cleared lines, starting at level 1; the score is
      passed in but not used. */
  function CalculateLevel(score: int, lines: int): (level: int)
    ensures level >= 1
    ensures lines >= 0 ==> 10 * (level - 1) <= lines < 10 * level
    ensures lines < 0 ==> level == 1
  {
    if lines / 10 + 1 > 1 then lines / 10 + 1 else 1
  }

  /** 500 ms per row at level 1, 50 ms faster per level, never below 50. */
  function CalculateFallSpeed(level: int): (speed: int)
    ensures speed >= 50
    ensures level >= 1 ==> speed <= 500
    ensures speed >= 500 - (level - 1) * 50
    ensures speed > 50 ==> speed == 500 - (level - 1) * 50
  {
    if 500 - (level - 1) * 50 > 50 then 500 - (level - 1) * 50 else 50
  }

  /** More cleared lines never mean a lower level, and a higher level
      never means a slower fall. */
  lemma LevelPaceMonotone(score: int, lines1: int, lines2: int)
    requires lines1 <= lines2
    ensures CalculateLevel(score, lines1) <= CalculateLevel(score, lines2)
    ensures CalculateFallSpeed(CalculateLevel(score, lines1)) >=
            CalculateFallSpeed(CalculateLevel(score, lines2))
  {
  }

  // ---------------------------------------------------------------------
  // The manager as a value

  datatype ManagerState = ManagerState(current: GameState, history: seq<GameState>)

  /** The history is nonempty, bounded and ends with the current state. */
  predicate HistoryOk(m: ManagerState) {
    1 <= |m.history| <= MaxHistorySize && m.history[|m.history| - 1] == m.current
  }

  /** The last `MaxHistorySize` states of `h`. */
  function Trimmed(h: seq<GameState>): (t: seq<GameState>)
    ensures |t| == if |h| > MaxHistorySize then MaxHistorySize else |h|
    ensures t == h[|h| - |t|..]
  {
    if |h| > MaxHistorySize then h[|h| - MaxHistorySize..] else h
  }

  /** Replace the current state by `s` if it validates, appending it to the
      trimmed history; a rejected state leaves the manager as it was. */
  ghost function Update(m: ManagerState, s: GameState): Result<ManagerState, StateError> {
    match StateCheck(m.current, s)
    case Some(e) => Err(e)
    case None => Ok(ManagerState(s, Trimmed(m.history + [s])))
  }

  /** A manager whose history is in order keeps it in order through any
      accepted update, and the accepted state has passed every check. */
  lemma UpdateKeepsHistory(m: ManagerState, s: GameState)
    requires HistoryOk(m)
    requires Update(m, s).Ok?
    ensures HistoryOk(Update(m, s).value)
    ensures Update(m, s).value.current == s
    ensures BoardOk(s.board, m.current.boardWidth, m.current.boardHeight)
    ensures s.score >= 0 && s.level >= 1
  {
  }

  ghost function BoardUpdate(m: ManagerState, board: Grid): Result<ManagerState, StateError> {
    if !BoardOk(board, m.current.boardWidth, m.current.boardHeight) then Err(InvalidBoard)
    else Update(m, m.current.(board := board))
  }

  /** Replace one of the three piece slots, chosen by name. */
  ghost function PieceUpdate(m: ManagerState, piece: TetrominoState, kind: string): Result<ManagerState, StateError> {
    if kind == "current" then Update(m, m.current.(currentPiece := Some(piece)))
    else if kind == "next" then Update(m, m.current.(nextPiece := Some(piece)))
    else if kind == "ghost" then Update(m, m.current.(ghostPiece := Some(piece)))
    else Err(UnknownPieceType(kind))
  }

  /** Add points and recompute level and fall speed (from the lines). */
  ghost function ScoreIncrement(m: ManagerState, points: int): Result<ManagerState, StateError> {
    var s := m.current;
    var level := CalculateLevel(s.score + points, s.linesCleared);
    Update(m, s.(score := s.score + points, level := level, fallSpeed := CalculateFallSpeed(level)))
  }

  /** Add cleared lines and recompute level and fall speed. */
  ghost function LinesUpdate(m: ManagerState, lines: int): Result<ManagerState, StateError> {
    var s := m.current;
    var level := CalculateLevel(s.score, s.linesCleared + lines);
    Update(m, s.(linesCleared := s.linesCleared + lines, level := level, fallSpeed := CalculateFallSpeed(level)))
  }

  /** A new playing state with nothing behind it; the old history is
      dropped unvalidated. */
  function FreshManager(): ManagerState {
    ManagerState(NewGameState(Playing), [NewGameState(Playing)])
  }

  /** The state `steps` updates back, if the history reaches that far. */
  function PreviousState(m: ManagerState, steps: int): Option<GameState> {
    if steps >= |m.history| || steps < 1 then None
    else Some(m.history[|m.history| - steps - 1])
  }

  predicate Undoable(m: ManagerState) {
    |m.history| > 1
  }

  /** After an accepted update the state before it is one step back. */
  lemma UpdateThenPrevious(m: ManagerState, s: GameState)
    requires HistoryOk(m)
    requires Update(m, s).Ok?
    ensures Undoable(Update(m, s).value)
    ensures PreviousState(Update(m, s).value, 1) == Some(m.current)
  {
    var h := m.history + [s];
    var t := Trimmed(h);
    assert t[|t| - 2] == h[|h| - 2];
  }

  /** The history reaches exactly `|history| - 1` steps back, and k steps
      back is the k-th state before the current one. */
  lemma PreviousStateRange(m: ManagerState, steps: int)
    requires HistoryOk(m)
    ensures PreviousState(m, steps).Some? <==> 1 <= steps < |m.history|
    ensures PreviousState(m, steps).Some? ==> PreviousState(m, steps).value == m.history[|m.history| - 1 - steps]
    ensures PreviousState(m, 0) == None
  {
  }

  /** A reset gives a fresh validated playing state with no undo. */
  lemma ResetIsFresh()
    ensures HistoryOk(FreshManager()) && !Undoable(FreshManager())
    ensures FreshManager().current.status == Playing
    ensures FreshManager().current.score == 0 && FreshManager().current.level == 1
    ensures FreshManager().current.linesCleared == 0 && FreshManager().current.board == ZeroRows(10, 20)
    ensures FreshManager().current.currentPiece.None? && FreshManager().current.nextPiece.None?
    ensures StateCheck(FreshManager().current, FreshManager().current) == None
  {
    NewGameStateValid(Playing);
  }

  /** Scoring alone never changes the level: the level is a function of the
      lines, so a state whose level agrees with its lines keeps it. */
  lemma ScoreKeepsLevel(m: ManagerState, points: int)
    requires m.current.level == CalculateLevel(m.current.score, m.current.linesCleared)
    requires ScoreIncrement(m, points).Ok?
    ensures ScoreIncrement(m, points).value.current.level == m.current.level
    ensures ScoreIncrement(m, points).value.current.score == m.current.score + points
  {
  }

  /** Clearing lines adds to the total and the level follows the total. */
  lemma ClearLinesTotals(m: ManagerState, lines: nat)
    requires LinesUpdate(m, lines).Ok?
    ensures LinesUpdate(m, lines).value.current.linesCleared == m.current.linesCleared + lines
    ensures LinesUpdate(m, lines).value.current.level ==
            CalculateLevel(0, m.current.linesCleared + lines)
    ensures m.current.level == CalculateLevel(0, m.current.linesCleared) ==>
            LinesUpdate(m, lines).value.current.level >= m.current.level
  {
    LevelPaceMonotone(0, m.current.linesCleared, m.current.linesCleared + lines);
  }

  // ---------------------------------------------------------------------
  // The manager object

  class GameStateManager {
    var current: GameState
    var history: seq<GameState>

    function View(): ManagerState
      reads this
    {
      ManagerState(current, history)
    }

    ghost predicate Valid()
      reads this
    {
      HistoryOk(View())
    }

    /** The given initial state (a state record is never falsy) or a
        default one, as the only entry of the history. */
    constructor(initial: Option<GameState>)
      ensures Valid()
      ensures current == (if initial.Some? then initial.value else NewGameState(Menu))
      ensures history == [current]
    {
      current := if initial.Some? then initial.value else NewGameState(Menu);
      history := [if initial.Some? then initial.value else NewGameState(Menu)];
    }

    /** The board check, a scan of rows and cells that stops at the first
        fault; against the current state's dimensions. */
    method ValidateBoard(board: Grid) returns (ok: bool)
      ensures ok == BoardOk(board, current.boardWidth, current.boardHeight)
    {
      if |board| == 0 || |board| != current.boardHeight {
        return false;
      }
      var i := 0;
      while i < |board|
        invariant 0 <= i <= |board|
        invariant forall k :: 0 <= k < i ==>
          |board[k]| == current.boardWidth && forall j :: 0 <= j < current.boardWidth ==> board[k][j] >= 0
      {
        if |board[i]| != current.boardWidth {
          return false;
        }
        var j := 0;
        while j < |board[i]|
          invariant 0 <= j <= |board[i]|
          invariant forall jj :: 0 <= jj < j ==> board[i][jj] >= 0
        {
          if board[i][j] < 0 {
            return false;
          }
          j := j + 1;
        }
        i := i + 1;
      }
      return true;
    }

    /** The placement check, one occupied cell at a time. The board has
        already passed `ValidateBoard`, so it is a nonempty rectangle. */
    method ValidatePiecePosition(piece: TetrominoState, board: Grid) returns (ok: bool)
      requires |board| > 0 && IsRect(board, |board[0]|, |board|)
      ensures ok == PieceOnBoard(piece, board)
    {
      if piece.x < 0 || piece.y < 0 {
        return false;
      }
      var shape := piece.shape;
      var r := 0;
      while r < |shape|
        invariant 0 <= r <= |shape|
        invariant forall rr, cc :: Filled(shape, rr, cc) && rr < r ==>
          CellFree(board, piece.x + cc, piece.y + rr)
      {
        var c := 0;
        while c < |shape[r]|
          invariant 0 <= c <= |shape[r]|
          invariant forall rr, cc :: Filled(shape, rr, cc) && (rr < r || (rr == r && cc < c)) ==>
            CellFree(board, piece.x + cc, piece.y + rr)
        {
          if shape[r][c] != 0 {
            var boardX, boardY := piece.x + c, piece.y + r;
            if boardX >= |board[0]| || boardY >= |board| || board[boardY][boardX] != 0 {
              assert Filled(shape, r, c) && !CellFree(board, boardX, boardY);
              return false;
            }
          }
          c := c + 1;
        }
        r := r + 1;
      }
      return true;
    }

    /** The checks in order: board, score, level, current piece. */
    method ValidateState(s: GameState) returns (e: Option<StateError>)
      ensures e == StateCheck(current, s)
    {
      var boardOk := ValidateBoard(s.board);
      if !boardOk {
        return Some(InvalidBoard);
      }
      if s.score < 0 {
        return Some(NegativeScore);
      }
      if s.level < 1 {
        return Some(LevelBelowOne);
      }
      if s.currentPiece.Some? {
        var pieceOk := ValidatePiecePosition(s.currentPiece.value, s.board);
        if !pieceOk {
          return Some(InvalidPiecePosition);
        }
      }
      return None;
    }

    /** Install `s` if it validates; the new state is returned. */
    method UpdateState(s: GameState) returns (r: Result<GameState, StateError>)
      requires Valid()
      modifies this
      ensures Valid()
      ensures Update(old(View()), s).Ok? ==> View() == Update(old(View()), s).value && r == Ok(s)
      ensures Update(old(View()), s).Err? ==> View() == old(View()) && r == Err(Update(old(View()), s).error)
    {
      var e := ValidateState(s);
      if e.Some? {
        return Err(e.value);
      }
      UpdateKeepsHistory(View(), s);
      current := s;
      history := Trimmed(history + [s]);
      return Ok(s);
    }

    method UpdateBoard(board: Grid) returns (r: Result<GameState, StateError>)
      requires Valid()
      modifies this
      ensures Valid()
      ensures BoardUpdate(old(View()), board).Ok? ==> View() == BoardUpdate(old(View()), board).value
      ensures r.Ok? <==> BoardUpdate(old(View()), board).Ok?
      ensures BoardUpdate(old(View()), board).Err? ==> View() == old(View())
    {
      var ok := ValidateBoard(board);
      if !ok {
        return Err(InvalidBoard);
      }
      r := UpdateState(current.(board := board));
    }

    method UpdatePiece(piece: TetrominoState, kind: string) returns (r: Result<GameState, StateError>)
      requires Valid()
      modifies this
      ensures Valid()
      ensures PieceUpdate(old(View()), piece, kind).Ok? ==> View() == PieceUpdate(old(View()), piece, kind).value
      ensures r.Ok? <==> PieceUpdate(old(View()), piece, kind).Ok?
      ensures PieceUpdate(old(View()), piece, kind).Err? ==> View() == old(View())
    {
      if kind == "current" {
        r := UpdateState(current.(currentPiece := Some(piece)));
      } else if kind == "next" {
        r := UpdateState(current.(nextPiece := Some(piece)));
      } else if kind == "ghost" {
        r := UpdateState(current.(ghostPiece := Some(piece)));
      } else {
        r := Err(UnknownPieceType(kind));
      }
    }

    method IncrementScore(points: int) returns (r: Result<GameState, StateError>)
      requires Valid()
      modifies this
      ensures Valid()
      ensures ScoreIncrement(old(View()), points).Ok? ==> View() == ScoreIncrement(old(View()), points).value
      ensures r.Ok? <==> ScoreIncrement(old(View()), points).Ok?
      ensures ScoreIncrement(old(View()), points).Err? ==> View() == old(View())
    {
      var newScore := current.score + points;
      var newLevel := CalculateLevel(newScore, current.linesCleared);
      r := UpdateState(current.(score := newScore, level := newLevel, fallSpeed := CalculateFallSpeed(newLevel)));
    }

    method ClearLines(lines: int) returns (r: Result<GameState, StateError>)
      requires Valid()
      modifies this
      ensures Valid()
      ensures LinesUpdate(old(View()), lines).Ok? ==> View() == LinesUpdate(old(View()), lines).value
      ensures r.Ok? <==> LinesUpdate(old(View()), lines).Ok?
      ensures LinesUpdate(old(View()), lines).Err? ==> View() == old(View())
    {
      var total := current.linesCleared + lines;
      var newLevel := CalculateLevel(current.score, total);
      r := UpdateState(current.(linesCleared := total, level := newLevel, fallSpeed := CalculateFallSpeed(newLevel)));
    }

    method ResetGame() returns (s: GameState)
      modifies this
      ensures Valid()
      ensures View() == FreshManager() && s == current
    {
      current := NewGameState(Playing);
      history := [current];
      s := current;
    }

    method GetPreviousState(steps: int) returns (r: Option<GameState>)
      requires Valid()
      ensures r == PreviousState(View(), steps)
      ensures r.Some? <==> 1 <= steps < |history|
    {
      if steps >= |history| || steps < 1 {
        return None;
      }
      return Some(history[|history| - steps - 1]);
    }

    method CanUndo() returns (b: bool)
      ensures b == Undoable(View())
      ensures b <==> |history| > 1
    {
      return |history| > 1;
    }
  }
}
