# Terminal Tetris in Dafny

This project models the gameplay core of a terminal Tetris written in
Python, and proves properties of that model. The repository holds two
generations of the game, and both are modelled.

**The refactored game** (`components/`, `core/`) is built from injected services:
- a board with validity checks, placement, line clearing and a ghost search (`Board`);
- a piece factory over a configurable catalogue (`Factory`);
- an immutable game state and a manager that validates every update and keeps a bounded history (`State`);
- a score calculator (`Scoring`);
- an engine that drives the state machine over menu, playing, paused and game over (`Engine`, `EngineFacts`);
- the renderer's pure helpers that draw the piece and its ghost into a copy of the board and crop the next piece's preview (`Overlay`).

**The original game** (`tetris_game.py`, `simple_tetris.py`) uses:
- literal rotation tables of `'#'`/`'.'` strings (`ClassicTetromino`);
- a board that places pieces without checking them (`ClassicBoard`);
- two game loops: one with a lock delay and move resets (`ClassicGame`) and a simpler one driven by single keys (`SimpleGame`).

Shared grid geometry lives in `Cells`:
- painting a shape into a grid;
- clearing complete rows;
- finding and cropping a shape's bounding box.

The configuration defaults live in `Config`. `Wrappers` holds `Option` and `Result`.

**How the objects are modelled.** Every object whose fields the source updates in place is a `class`:
- the boards;
- the state manager;
- the factory;
- the engine;
- the two game objects.

Each class exposes a `View()` of its state. Each method is proved to produce exactly a pure step function of the old view, for example `View() == LockStep(old(View()), drawn)`. The lemmas that state what the game promises are proved about those step functions:
- what a lock clears and scores;
- when a spawn ends the game;
- how the lock delay and its move resets behave;
- that pausing and resuming restore the game;
- the ghost piece and the renderer's overlay.

Every step is also proved to keep an invariant:
- the board keeps its size;
- the pieces are well formed or droppable;
- the counters agree in the original games.

**Exceptions** in the refactored engine are a `raised` flag on the step's result. Effects made before the exception are kept, as they are in the source's `try`/`except` chain.

**Parameters for the outside world.**
- Wall-clock readings are the parameter `now`, an integer number of milliseconds. One tick reads the clock once.
- A random draw is a parameter:
  - `roll` picks the type at index `roll % |types|`;
  - a `drawn` piece is one that satisfies `Drawn`, which `RandomDrawn` proves of every draw.

**Behaviour of the code a reader might not expect:**
- The refactored engine awards no points for a soft drop. `calculate_soft_drop_score` is never called.
- The refactored engine's lock timer holds the wall-clock time the piece landed, not an accumulated duration. The lock is due when `now - lock_timer >= lock_delay` and `lock_timer > 0`.
- The original board's `place_tetromino` writes a piece without checking its position.
- The original games cap the level at 10. The refactored level has no cap.
- Rotating right as often as a piece has states gives back the same piece from any rotation index in range, not only from index 0.

## Model

| member | source | states |
|---|---|---|
| State.NewGameState | 01_tetris/core/game_state.py:29-72 | a state with the given status and every other field at its default: an empty 10 x 20 board, no pieces, score 0, level 1, no lines or pieces counted, fall and lock delay 500 ms, lock timer 0, not grounded, no move resets out of 15, input time 0 and repeat delay 100 ms |
| State.StateCheck | 01_tetris/core/game_state.py:209-225 | the first failing check of a replacement state, in the source's order: board, score not negative, level at least 1, current piece placed |
| State.NewGameStateValid | 01_tetris/core/game_state.py:29-72 | a fresh state of any status passes every validation check against itself |
| State.CalculateLevel | 01_tetris/core/game_state.py:268-270 | the level is at least 1 and, for a non-negative line count, is the decade the count lies in (10 * (level - 1) <= lines < 10 * level); the score is ignored |
| State.CalculateFallSpeed | 01_tetris/core/game_state.py:272-274 | the larger of 50 ms and 500 ms less 50 ms per level above 1: never below either, at most 500 ms from level 1 on, and equal to the second whenever it is above 50 ms |
| State.LevelPaceMonotone | 01_tetris/core/game_state.py:268-274 | more cleared lines never give a lower level, and so never a slower fall |
| State.Trimmed | 01_tetris/core/game_state.py:276-282 | the trimmed history is the last `min(|h|, 100)` entries of `h` |
| State.UpdateKeepsHistory | 01_tetris/core/game_state.py:88-99 | an accepted update makes the new state current, keeps the history nonempty, bounded by 100 and ending in the current state, and only installs a state that passed every check |
| State.UpdateThenPrevious | 01_tetris/core/game_state.py:88-99 | after an accepted update there is something to undo, and one step back is the state before the update |
| State.PreviousStateRange | 01_tetris/core/game_state.py:152-156 | `get_previous_state(k)` answers exactly for 1 <= k < len(history), with the k-th state before the current one, and never for k = 0 |
| State.ResetIsFresh | 01_tetris/core/game_state.py:145-150 | the reset state is playing, has score 0, level 1, no cleared lines, an empty 10 x 20 board and no pieces, passes validation, and leaves nothing to undo |
| State.ScoreKeepsLevel | 01_tetris/core/game_state.py:121-131 | scoring adds the points and leaves a level that agrees with the line count unchanged, because the level depends on lines only |
| State.ClearLinesTotals | 01_tetris/core/game_state.py:133-143 | clearing lines adds them to the total, recomputes the level from the new total, and never lowers a consistent level |
| State.GameStateManager.constructor | 01_tetris/core/game_state.py:78-81 | the given initial state, or a default menu state, is current and the only history entry |
| State.GameStateManager.ValidateBoard | 01_tetris/core/game_state.py:227-246 | the scan accepts exactly a nonempty board of the expected height whose rows all have the expected width and no negative cell |
| State.GameStateManager.ValidatePiecePosition | 01_tetris/core/game_state.py:248-266 | the scan accepts exactly a piece with a non-negative origin whose occupied cells are all inside the board and empty |
| State.GameStateManager.ValidateState | 01_tetris/core/game_state.py:209-225 | the check reports exactly the first failing condition of `StateCheck` |
| State.GameStateManager.UpdateState | 01_tetris/core/game_state.py:88-99 | a state that validates becomes current and is appended to the trimmed history; a rejected one leaves the manager unchanged and returns the error |
| State.GameStateManager.UpdateBoard | 01_tetris/core/game_state.py:101-108 | an invalid board is refused with no change; otherwise the board is installed through `update_state` |
| State.GameStateManager.UpdatePiece | 01_tetris/core/game_state.py:110-119 | the slot named "current", "next" or "ghost" gets the piece through `update_state`; any other name is an error with no change |
| State.GameStateManager.IncrementScore | 01_tetris/core/game_state.py:121-131 | the score grows by the points and level and fall speed are recomputed, through `update_state` |
| State.GameStateManager.ClearLines | 01_tetris/core/game_state.py:133-143 | the line total grows and level and fall speed are recomputed, through `update_state` |
| State.GameStateManager.ResetGame | 01_tetris/core/game_state.py:145-150 | the manager holds a fresh playing state whose history is that state alone |
| State.GameStateManager.GetPreviousState | 01_tetris/core/game_state.py:152-156 | the k-th state back, present exactly when 1 <= k < len(history) |
| State.GameStateManager.CanUndo | 01_tetris/core/game_state.py:158-160 | true exactly when the history holds more than one state |
| Cells.ZeroRows | 01_tetris/components/game_board.py:49 | `height` rows of `width` zeros |
| Cells.Painted | 01_tetris/components/game_board.py:241-249 | painting keeps the grid's dimensions |
| Cells.PaintedAt | 01_tetris/components/game_board.py:241-249 | cell by cell: the colour where the shape covers (and, for the ghost, the cell was empty), else the old value |
| Cells.Paint | 01_tetris/components/renderer.py:377-386 | the nested copy loop yields exactly `Painted`: the colour in every covered cell inside the grid |
| Cells.Survivors | 01_tetris/components/game_board.py:134-144 | the rows kept are never more than the rows given |
| Cells.SurvivorsCount | 01_tetris/components/game_board.py:134-144 | the rows removed are exactly the complete rows |
| Cells.SurvivorsFromInput | 01_tetris/components/game_board.py:134-144 | every kept row is an incomplete row of the board |
| Cells.SurvivorsAppend | 01_tetris/components/game_board.py:134-144 | kept rows keep their relative order |
| Cells.SurvivorsNoComplete | 01_tetris/components/game_board.py:134-144 | with no complete row every row is kept |
| Cells.ClearedRect | 01_tetris/components/game_board.py:127-166 | clearing keeps the board's dimensions |
| Cells.ClearedProperties | 01_tetris/components/game_board.py:127-166 | after clearing no row is complete, the kept rows lie at the bottom under empty rows, and the empty rows number the complete rows |
| Cells.ClearedNoComplete | 01_tetris/game_board.py:26-38 | a board with no complete row is left as it is |
| Cells.Crop | 01_tetris/components/tetromino_factory.py:276-281 | the copied box has one row per box row and the shape's cells at the box's offsets |
| Cells.ScanBoundsMinimal | 01_tetris/components/tetromino_factory.py:261-270 | when the start values lie beyond every occupied cell, the bounds scan finds the least box holding every occupied cell |
| Cells.MinimalBoxUnique | 01_tetris/components/tetromino_factory.py:275 | there is only one least bounding box |
| Cells.ScanBox | 01_tetris/components/tetromino_factory.py:261-273 | the maximum row stays -1 exactly when no cell is occupied; otherwise the scan's four bounds are the accumulated minima and maxima |
| Cells.CopyBox | 01_tetris/components/tetromino_factory.py:276-283 | the copy succeeds exactly when every box row is long enough, and then is the crop of the box |
| Cells.CropPreview | 01_tetris/components/renderer.py:429-451 | `[[0]]` for a shape with no occupied cell; otherwise the box the scan found, cropped, or a failure when a box row is too short |
| Board.FitsAboveFloor | 01_tetris/components/game_board.py:64-86 | a valid piece with an occupied cell stands above the floor, so the landing search is bounded |
| Board.Drop | 01_tetris/components/game_board.py:172-197 | the landing position differs from the piece only in its row, lies at or below it, cannot move one row further, and is valid whenever the piece was or it moved |
| Board.DropPath | 01_tetris/components/game_board.py:181-195 | every row between the start and the landing row is a valid position: the search never jumps over a blocked row |
| Board.DropIdempotent | 01_tetris/components/game_board.py:172-197 | searching again from the landing position stays there |
| Board.Column | 01_tetris/components/game_board.py:307-313 | the column read top to bottom, one entry per row |
| Board.FirstNonzero | 01_tetris/components/game_board.py:309-312 | the first row holding a block: everything above is empty, and the entry there is not |
| Board.ZerosAndNonzero | 01_tetris/components/game_board.py:336-337 | every entry is counted exactly once, as empty or as filled |
| Board.ColumnHeight | 01_tetris/components/game_board.py:303-315 | a column's height never exceeds the board's height |
| Board.ColumnBalance | 01_tetris/components/game_board.py:303-329 | below the top of a stack every cell is a block or a hole; height 0 exactly for an empty column; the top of a stack is a block |
| Board.CellsAddUp | 01_tetris/components/game_board.py:336-337 | filled and empty cells together are all width x height cells |
| Board.TopRowFullColumn | 01_tetris/components/game_board.py:203-207 | the game-over test (a block in the top row) holds exactly when some column is stacked to the full height |
| Board.Overlaid | 01_tetris/components/game_board.py:257-290 | the overlay has the board's dimensions |
| Board.OverlaidAt | 01_tetris/components/game_board.py:266-288 | cell by cell: the piece's colour where it covers, else the ghost colour on an empty cell it covers, else the board's cell |
| Board.GameBoard.constructor | 01_tetris/components/game_board.py:15-23 | a 10 x 20 board with no rows before initialization |
| Board.GameBoard.Initialize | 01_tetris/components/game_board.py:39-49 | positive dimensions give an empty board of that size; other dimensions are refused and nothing changes |
| Board.GameBoard.GetBoard | 01_tetris/components/game_board.py:60-62 | a copy equal to the board |
| Board.GameBoard.IsValidPosition | 01_tetris/components/game_board.py:64-90 | true exactly for a present piece with a nonempty shape whose occupied cells are inside the side walls, above the floor, and on empty cells or above the top |
| Board.GameBoard.PlacePiece | 01_tetris/components/game_board.py:92-108 | an invalid piece is refused with the board unchanged; otherwise its colour goes into every covered cell inside the board and nothing else changes |
| Board.GameBoard.ClearCompletedLines | 01_tetris/components/game_board.py:127-166 | the count returned is the number of complete rows, and the board becomes the incomplete rows in order under as many empty rows |
| Board.GameBoard.IsLineComplete | 01_tetris/components/game_board.py:296-301 | true exactly when the row index is on the board and every cell of that row holds a block |
| Board.GameBoard.IsGameOver | 01_tetris/components/game_board.py:203-211 | true exactly when some column is stacked to the full height of the board, which is when the top row holds a block |
| Board.GameBoard.GetGhostPiecePosition | 01_tetris/components/game_board.py:172-197 | no piece gives no ghost; otherwise the ghost is the landing position `Drop` |
| Board.GameBoard.Reset | 01_tetris/components/game_board.py:213-216 | the board is emptied at its size, and is then not in the game-over condition |
| Board.GameBoard.GetBoardWithPiece | 01_tetris/components/game_board.py:231-251 | without a piece the board; with one, the board with the piece's colour in its covered cells inside the board |
| Board.GameBoard.GetBoardWithGhost | 01_tetris/components/game_board.py:257-290 | without either piece the board; otherwise the ghost in empty cells, then the piece over everything |
| Board.GameBoard.GetLineHeights | 01_tetris/components/game_board.py:303-315 | one entry per column: the rows from its topmost block to the floor, 0 for an empty column |
| Board.GameBoard.GetHolesCount | 01_tetris/components/game_board.py:317-329 | the sum over columns of the empty cells below each column's topmost block |
| Board.GameBoard.CountColumnHoles | 01_tetris/components/game_board.py:321-327 | one column's holes: the empty cells met after its first block |
| Board.GameBoard.GetBoardStatistics | 01_tetris/components/game_board.py:331-340 | the dimensions, filled and empty counts adding up to width x height, the hole count, the column heights and the game-over test |
| Board.ScanStart | 01_tetris/components/game_board.py:134 | before the clearing scan nothing has been examined, deleted or counted |
| Board.ScanRow | 01_tetris/components/game_board.py:135-136 | the row the scan examines at index y is the next original row, or an inserted empty row that is never complete |
| Board.ClearStep | 01_tetris/components/game_board.py:136-144 | one step of the scan keeps its invariant, by deleting a complete row or keeping an incomplete one |
| Board.ClearDeletes | 01_tetris/components/game_board.py:136-142 | deleting a complete row and inserting an empty one on top counts it and keeps the scan's invariant |
| Board.ClearKeeps | 01_tetris/components/game_board.py:143-144 | moving past an incomplete row keeps it among the survivors and the count unchanged |
| Board.ScanDone | 01_tetris/components/game_board.py:135-166 | when the scan ends its board is the cleared board and its count is the number of complete rows |
| Factory.CreatePiece | 01_tetris/components/tetromino_factory.py:85-115 | an unknown type raises `ValueError` and a type without a nonempty shape list or a colour raises `RuntimeError`; otherwise the first shape at (3, 0), rotation 0, in the configured colour |
| Factory.CreateRandomPiece | 01_tetris/components/tetromino_factory.py:77-83 | an empty type list raises; otherwise the piece of the chosen listed type |
| Factory.RandomPieceReachesEveryType | 01_tetris/components/tetromino_factory.py:77-83 | every listed type is the outcome of some random choice |
| Factory.SpawnPosition | 01_tetris/components/tetromino_factory.py:178-181 | every type spawns in the top row, at a column that leaves a 4-wide piece inside a 10-wide board |
| Factory.MovePiece | 01_tetris/components/tetromino_factory.py:157-172 | the moved copy is shifted by exactly (dx, dy) and otherwise equal to the piece |
| Factory.MoveComposes | 01_tetris/components/tetromino_factory.py:157-172 | moves compose by adding offsets, and the opposite move restores the piece |
| Factory.NextRotation | 01_tetris/components/tetromino_factory.py:134-137 | with Python's `%` the new index is in range; from an index in range, right steps up wrapping to 0, left steps down wrapping to n-1 |
| Factory.RotatePiece | 01_tetris/components/tetromino_factory.py:121-155 | a direction other than left or right raises `ValueError`; a type without shapes raises `RuntimeError`; otherwise the next or previous shape, with type, position and colour kept |
| Factory.CreatedAndRotatedInCatalogue | 01_tetris/components/tetromino_factory.py:85-155 | every built or rotated piece has an in-range rotation index naming its shape |
| Factory.RotateRightTimes | 01_tetris/components/tetromino_factory.py:134-139 | k right rotations advance the index by k modulo the number of shapes |
| Factory.RotateRightCycle | 01_tetris/components/tetromino_factory.py:134-139 | one right rotation per shape in the list gives back the piece |
| Factory.RotateLeftRightInverse | 01_tetris/components/tetromino_factory.py:134-139 | left then right, and right then left, give back the piece |
| Factory.PieceSize | 01_tetris/components/tetromino_factory.py:183-198 | (4, 4) for an unknown type or one with no first shape; otherwise the first shape's width (its first row's length, 0 for an empty shape) and height (its row count); never negative |
| Factory.SizeOfCreatedPiece | 01_tetris/components/tetromino_factory.py:183-198 | the size reported for a buildable type is that of the piece it builds |
| Factory.ValidConfigBuilds | 01_tetris/components/tetromino_factory.py:200-234 | a configuration that passes the check builds a 4 x 4 piece of cells that are 0 or 1 |
| Factory.ValidShapePreviewMinimal | 01_tetris/components/tetromino_factory.py:251-283 | for a 4 x 4 shape of 0s and 1s the preview's start values work: the box found is the least one and lies inside the shape |
| Factory.MaxRowLength | 01_tetris/components/tetromino_factory.py:251-283 | no row is longer than the result |
| Factory.FallbackCatalogueValid | 01_tetris/components/tetromino_factory.py:45-75 | the built-in I, O and T pieces pass the configuration check, with 2, 1 and 4 rotation states |
| Factory.FallbackOPreview | 01_tetris/components/tetromino_factory.py:57-62 | the O piece's preview is its 2 x 2 block, rows 0-1 and columns 1-2 of its shape |
| Factory.TallShapePreview | 01_tetris/components/tetromino_factory.py:261-262 | for a six-row shape whose only block is in the last row, the scan reports row 4 as the top of the box, so the preview `[[0], [1]]` is not the minimal `[[1]]` |
| Factory.TetrominoFactory.constructor | 01_tetris/components/tetromino_factory.py:15-20 | no types and an empty cache |
| Factory.TetrominoFactory.LoadFallbackPieces | 01_tetris/components/tetromino_factory.py:45-75 | the built-in catalogue is installed |
| Factory.TetrominoFactory.LoadPieceConfigurations | 01_tetris/components/tetromino_factory.py:28-43 | when the type list is read and every type's entry exists, the list is installed and each entry cached over the old cache; any failure installs the built-in catalogue |
| Factory.TetrominoFactory.ValidatePieceConfiguration | 01_tetris/components/tetromino_factory.py:200-237 | accepts exactly a known type with both keys, a nonempty list of 4 x 4 shapes of 0s and 1s, and a colour in 1..9 |
| Factory.TetrominoFactory.GetPiecePreview | 01_tetris/components/tetromino_factory.py:251-286 | `[[0]]` for an unknown type or a shape with no block; `[[1]]` when a key is missing, the list is empty or the copy fails; otherwise the box the scan found from minima starting at 4, cropped |
| Factory.TetrominoFactory.GetMinimalPiecePreview | 01_tetris/components/tetromino_factory.py:251-286 | as the preview, but its box is the least box holding every block, for shapes of any size |
| Scoring.FloorDiv | 01_tetris/components/game_engine.py:50 | Python's `//`: the floor of the quotient, for either sign of the divisor |
| Scoring.LineScore | 01_tetris/components/game_engine.py:28-37 | one to four lines score the configured points times the level; any other count scores nothing |
| Scoring.DefaultLineScoreIncreasing | 01_tetris/components/game_engine.py:28-37 | with the default table, clearing more lines at once is worth more |
| Scoring.SoftDropScore | 01_tetris/components/game_engine.py:39-41 | one point per row |
| Scoring.HardDropScore | 01_tetris/components/game_engine.py:43-45 | a hard drop is worth twice the soft drop over the same rows |
| Scoring.Level | 01_tetris/components/game_engine.py:47-50 | a failure exactly for a zero `lines_per_level` (the division by zero); otherwise at least 1, and one level per `lines_per_level` lines |
| Scoring.FallSpeed | 01_tetris/components/game_engine.py:52-58 | the larger of the minimum and the initial speed less one increment per level above 1: never below either, and equal to one of them |
| Scoring.FallSpeedNonIncreasing | 01_tetris/components/game_engine.py:52-58 | with a non-negative increment a higher level never falls slower |
| Scoring.DefaultsAgreeWithStateRules | 01_tetris/components/game_engine.py:47-58 | with the default configuration the calculator's level and fall speed are the state manager's own rules |
| Overlay.RowWidth | 01_tetris/components/renderer.py:384-385 | the width the renderer reads off the first row is the width of every row |
| Overlay.BoardWithPiece | 01_tetris/components/renderer.py:373-388 | no piece gives a copy of the board unchanged; a piece gives a copy with the piece's colour in every covered cell inside it; the board itself is not changed |
| Overlay.BoardWithAllPieces | 01_tetris/components/renderer.py:390-422 | the ghost painted into empty cells first, then the current piece over everything; a missing piece is skipped, so neither gives the board unchanged |
| Overlay.PieceOverlayFacts | 01_tetris/components/renderer.py:373-388 | for a piece the board accepts, the overlay differs from the board exactly on the piece's cells, which show its colour |
| Overlay.OverlaidCell | 01_tetris/components/renderer.py:390-422 | one cell of the overlay: blocks stay, the piece shows on its cells, the ghost on its other cells, and the rest is the board |
| Overlay.GhostOverlayFacts | 01_tetris/components/renderer.py:390-422 | with both pieces on free cells, locked blocks stay visible, the piece shows on its own cells, the ghost on the cells the piece does not cover, and every other cell is the board's |
| Overlay.PiecePreview | 01_tetris/components/renderer.py:424-451 | `[[0]]` without a piece, for an empty shape or for one with no block; otherwise the box the scan found, cropped, or a failure for the IndexError of a short row |
| Overlay.PreviewIsMinimal | 01_tetris/components/renderer.py:430-431 | for a rectangular shape, the renderer's start values (row count, first-row length) make the box the least one, and the copy never fails |
| Engine.CreatedDroppable | 01_tetris/components/tetromino_factory.py:77-115 | a piece the factory draws has one of the catalogue's shapes, so the landing search ends on it |
| Engine.RotatedDroppable | 01_tetris/components/tetromino_factory.py:121-155 | a rotated piece has one of the catalogue's shapes too |
| Engine.UpdateInstalls | 01_tetris/core/game_state.py:88-99 | an accepted `update_state` makes exactly the given state current |
| Engine.UpdateReady | 01_tetris/core/game_state.py:88-99 | an accepted update whose pieces the landing search handles keeps the engine's invariant (board of the board's size, catalogue and pieces droppable) |
| Engine.EndGameReady | 01_tetris/components/game_engine.py:198-226 | ending the game keeps the invariant and the grid |
| Engine.SpawnReady | 01_tetris/components/game_engine.py:466-488 | the spawn after a lock keeps the invariant and the grid |
| Engine.ScoreLinesReady | 01_tetris/components/game_engine.py:452-457 | scoring cleared lines keeps the invariant, the grid and the next piece |
| Engine.LockReady | 01_tetris/components/game_engine.py:440-488 | a lock keeps the invariant |
| Engine.FallStepReady | 01_tetris/components/game_engine.py:319-345 | the natural fall keeps the invariant |
| Engine.ShiftReady | 01_tetris/components/game_engine.py:357-382 | the shared tail of a move or rotation keeps the invariant |
| Engine.MoveReady | 01_tetris/components/game_engine.py:347-382 | a move keeps the invariant |
| Engine.RotateReady | 01_tetris/components/game_engine.py:384-417 | a rotation keeps the invariant |
| Engine.ScoreReady | 01_tetris/core/game_state.py:121-131 | a score increment keeps the invariant |
| Engine.LandReady | 01_tetris/components/game_engine.py:426-433 | moving the piece to its landing position keeps the invariant |
| Engine.HardDropReady | 01_tetris/components/game_engine.py:419-438 | a hard drop keeps the invariant |
| Engine.TickReady | 01_tetris/components/game_engine.py:228-254 | a tick keeps the invariant |
| Engine.InputReady | 01_tetris/components/game_engine.py:256-295 | handling an input token keeps the invariant |
| Engine.StartReady | 01_tetris/components/game_engine.py:121-139 | installing the first two pieces keeps the invariant |
| Engine.TetrisGameEngine.constructor | 01_tetris/components/game_engine.py:64-85 | a stopped engine with zeroed timers over the given board, with a manager holding the default menu state |
| Engine.TetrisGameEngine.EndGame | 01_tetris/components/game_engine.py:198-226 | the engine's new view is `EndGameStep` of the old one and the invariant holds |
| Engine.TetrisGameEngine.PauseGame | 01_tetris/components/game_engine.py:155-172 | the new view is `PauseStep` of the old one |
| Engine.TetrisGameEngine.ResumeGame | 01_tetris/components/game_engine.py:174-196 | the new view is `ResumeStep` of the old one at `now` |
| Engine.TetrisGameEngine.LockCurrentPiece | 01_tetris/components/game_engine.py:440-488 | the new view and whether it raised are `LockStep` of the old view |
| Engine.TetrisGameEngine.StartGame | 01_tetris/components/game_engine.py:107-153 | the new view and whether it raised are `StartStep`: reset manager and board, then the two drawn pieces installed |
| Engine.TetrisGameEngine.InstallPieces | 01_tetris/components/game_engine.py:121-139 | the part of the start after the reset is `StartFrom` |
| Engine.TetrisGameEngine.HandleNaturalFall | 01_tetris/components/game_engine.py:319-345 | the new view and whether it raised are `FallStep` |
| Engine.TetrisGameEngine.Shift | 01_tetris/components/game_engine.py:357-382 | the shared tail of a move or rotation is `ShiftStep` |
| Engine.TetrisGameEngine.ShiftPiece | 01_tetris/components/game_engine.py:364-380 | a shift that is taken is `ShiftTo` |
| Engine.TetrisGameEngine.Move | 01_tetris/components/game_engine.py:347-382 | a move is `MoveStep` |
| Engine.TetrisGameEngine.Rotate | 01_tetris/components/game_engine.py:384-417 | a rotation is `RotateStep` |
| Engine.TetrisGameEngine.Land | 01_tetris/components/game_engine.py:426-433 | the landing update is `LandStep` and the returned drop distance is `DropRows` |
| Engine.TetrisGameEngine.AddScore | 01_tetris/core/game_state.py:121-131 | a score increment is applied, or raises with nothing changed |
| Engine.TetrisGameEngine.HardDropPiece | 01_tetris/components/game_engine.py:419-438 | a hard drop is `HardDropStep` |
| Engine.TetrisGameEngine.Update | 01_tetris/components/game_engine.py:228-254 | a tick at `now` is `TickStep` |
| Engine.TetrisGameEngine.HandleInput | 01_tetris/components/game_engine.py:256-295 | an input token is `InputStep` |
| Engine.TetrisGameEngine.ScoreClearedLines | 01_tetris/components/game_engine.py:452-457 | the scoring of cleared lines is `ScoreLines` |
| Engine.TetrisGameEngine.SpawnNext | 01_tetris/components/game_engine.py:466-488 | the spawn after a lock is `SpawnStep` |
| EngineFacts.StatusChangeAccepted | 01_tetris/core/game_state.py:88-99 | the manager always accepts a status change of a state that passes its own checks, and installs it |
| EngineFacts.AcceptedStaysSelfValid | 01_tetris/core/game_state.py:209-225 | a state the manager accepted with unchanged dimensions passes its own checks |
| EngineFacts.EndGameFacts | 01_tetris/components/game_engine.py:198-226 | ending the game keeps the grid, score and lines, and from a valid state reaches game over with the engine stopped |
| EngineFacts.SpawnFacts | 01_tetris/components/game_engine.py:462-488 | a failed draw raises with nothing changed; a fitting next piece becomes current with its ghost, the drawn piece becomes next and the lock-delay fields reset; a missing or blocked one ends the game; grid and totals are kept |
| EngineFacts.ScoreLinesFacts | 01_tetris/components/game_engine.py:452-457 | the score grows by the line points at the given level and the line total by the lines cleared |
| EngineFacts.LockFacts | 01_tetris/components/game_engine.py:440-460 | the grid after a lock is the placed board with its complete rows cleared and holds no complete row; the score grows by the line points at the level from before the clear; a zero lines-per-level raises |
| EngineFacts.LockRefusals | 01_tetris/components/game_engine.py:442-448 | with no piece a lock does nothing; a piece that does not fit raises with nothing changed |
| EngineFacts.LockPromotesNext | 01_tetris/components/game_engine.py:462-488 | the piece that was next before the lock becomes current when it fits, with the grid committed to the state and the lock-delay fields reset |
| EngineFacts.ShiftFacts | 01_tetris/components/game_engine.py:357-382 | a candidate that does not fit changes nothing; an airborne one replaces the piece and its ghost and nothing else, unless the manager refuses it |
| EngineFacts.GroundedShiftFacts | 01_tetris/components/game_engine.py:364-376 | while grounded, a fitting candidate spends one move reset and restarts the lock timer; the one past the cap locks the piece instead |
| EngineFacts.MoveFacts | 01_tetris/components/game_engine.py:347-357 | without a piece a move does nothing; otherwise it shifts to the piece offset by (dx, dy) |
| EngineFacts.RotateFacts | 01_tetris/components/game_engine.py:384-417 | a refused rotation raises with nothing changed, a direction other than right or left is refused, and an accepted one changes only rotation and shape |
| EngineFacts.FallFacts | 01_tetris/components/game_engine.py:319-345 | one row down when that fits, with fresh lock-delay fields and ghost; otherwise the first blocked tick starts the lock delay at `now` and later ones change nothing |
| EngineFacts.HardDropLands | 01_tetris/components/game_engine.py:419-427 | the landing position is the piece moved straight down, cannot fall further, fits whenever the piece did, and the drop distance is not negative |
| EngineFacts.HardDropFacts | 01_tetris/components/game_engine.py:429-438 | the hard drop installs the landed piece, adds two points per row and locks it there |
| EngineFacts.InputFacts | 01_tetris/components/game_engine.py:256-295 | `quit` only stops the engine, `pause` toggles playing and paused, game keys act only while playing as their step, and every other token is ignored |
| EngineFacts.PauseResumeRoundTrip | 01_tetris/components/game_engine.py:155-196 | pausing then resuming restores the playing state, with both timers at the resume time |
| EngineFacts.TickFacts | 01_tetris/components/game_engine.py:228-254 | a tick does nothing unless playing, and one with neither fall nor lock due only records the time |
| EngineFacts.StartFacts | 01_tetris/components/game_engine.py:107-139 | a start that does not raise leaves a running engine playing on an empty grid from score 0, level 1, with both timers at `now` |
| EngineFacts.StartPieces | 01_tetris/components/game_engine.py:121-131 | the two pieces of a start are drawn from the catalogue, the first with its landing position, in a state that passes its own checks |
| ClassicTetromino.Shapes | 01_tetris/tetromino.py:6-42 | each kind has 1, 2 or 4 rotation states |
| ClassicTetromino.Color | 01_tetris/tetromino.py:44-52 | each kind's colour is one of the codes 1 to 7 |
| ClassicTetromino.NewTetromino | 01_tetris/tetromino.py:54-63 | a new piece of a kind has the kind's states and colour, rotation 0, and stands at column 3, row 0 |
| ClassicTetromino.RandomTetromino | 01_tetris/tetromino.py:54-63 | a piece drawn without a type is of the kind the roll picks from the table's seven kinds, with that kind's states and colour, rotation 0, at column 3, row 0 |
| ClassicTetromino.CurrentShape | 01_tetris/tetromino.py:65-66 | the state shown is one of the piece's states, the one the index names when it is in range |
| ClassicTetromino.RotateRight | 01_tetris/tetromino.py:68-73 | only the rotation index changes: it stays in range, advances by one, and wraps from the last state to the first |
| ClassicTetromino.RotateLeft | 01_tetris/tetromino.py:75-80 | only the rotation index changes: it stays in range, goes back by one, and wraps from the first state to the last |
| ClassicTetromino.Move | 01_tetris/tetromino.py:82-87 | only the position changes, by exactly (dx, dy) |
| ClassicTetromino.Wrap | 01_tetris/tetromino.py:65-66 | Python's `r % n`: for a positive count the index lies in [0, n) and is r itself when r is already in range, 0 for r = n and n - 1 for r = -1; for a single state it is 0 |
| ClassicTetromino.NewWellFormed | 01_tetris/tetromino.py:6-63 | every piece built from the tables has 1, 2 or 4 states, each four blocks within a 4 x 4 box |
| ClassicTetromino.CurrentStateOk | 01_tetris/tetromino.py:65-66 | the state a well-formed piece shows is one of its table states |
| ClassicTetromino.RandomDrawn | 01_tetris/tetromino.py:54-63 | a piece drawn without a type is well formed, in rotation 0 at column 3, row 0 |
| ClassicTetromino.WrapSucc | 01_tetris/tetromino.py:68-73 | reducing an index, adding one and reducing again is reducing the index plus one |
| ClassicTetromino.RotateRightTimesIndex | 01_tetris/tetromino.py:68-73 | k right rotations change only the rotation index, to the old index plus k modulo the state count |
| ClassicTetromino.FullTurn | 01_tetris/tetromino.py:68-73 | rotating right as many times as there are states gives back the same piece |
| ClassicTetromino.RotationsCancel | 01_tetris/tetromino.py:68-80 | rotating left undoes rotating right and the other way round |
| ClassicTetromino.StepsKeepWellFormed | 01_tetris/tetromino.py:68-87 | moving and rotating keep a piece well formed |
| ClassicTetromino.GetBlocks | 01_tetris/tetromino.py:89-96 | the loop lists exactly the blocks of the current rotation state, offset by the piece's position, in row-major order |
| ClassicTetromino.ShapeBlocks | 01_tetris/tetromino.py:91-95 | the nested loop over rows and characters lists every character other than `'.'` and `' '` at its offset |
| ClassicTetromino.RowCellsCount | 01_tetris/tetromino.py:93-95 | a row lists one block per block character |
| ClassicTetromino.ShapeCellsCount | 01_tetris/tetromino.py:91-95 | a shape lists one block per block character |
| ClassicTetromino.StatesHaveFourBlocks | 01_tetris/tetromino.py:6-42 | every rotation state of every kind has exactly four blocks |
| ClassicTetromino.IHasFourBlocks | 01_tetris/tetromino.py:7-12 | each I state has four blocks |
| ClassicTetromino.OHasFourBlocks | 01_tetris/tetromino.py:13-15 | the O state has four blocks |
| ClassicTetromino.THasFourBlocks | 01_tetris/tetromino.py:16-21 | each T state has four blocks |
| ClassicTetromino.SHasFourBlocks | 01_tetris/tetromino.py:22-25 | each S state has four blocks |
| ClassicTetromino.ZHasFourBlocks | 01_tetris/tetromino.py:26-29 | each Z state has four blocks |
| ClassicTetromino.JHasFourBlocks | 01_tetris/tetromino.py:30-35 | each J state has four blocks |
| ClassicTetromino.LHasFourBlocks | 01_tetris/tetromino.py:36-41 | each L state has four blocks |
| ClassicTetromino.FourBlocks | 01_tetris/tetromino.py:89-96 | `get_blocks` of a well-formed piece lists four positions |
| ClassicTetromino.Shifted | 01_tetris/tetromino.py:82-87 | the shifted list has the same length with every position offset by (dx, dy) |
| ClassicTetromino.ShiftedConcat | 01_tetris/tetromino.py:89-96 | shifting distributes over concatenation |
| ClassicTetromino.RowCellsShift | 01_tetris/tetromino.py:93-95 | a row drawn at an offset origin lists its blocks shifted by that offset |
| ClassicTetromino.ShapeCellsShift | 01_tetris/tetromino.py:91-95 | a shape drawn at an offset origin lists its blocks shifted by that offset |
| ClassicTetromino.MoveShiftsBlocks | 01_tetris/tetromino.py:82-96 | a moved piece keeps kind, states and rotation, and its blocks are the old blocks shifted by (dx, dy) |
| ClassicTetromino.MoveKeepsShape | 01_tetris/tetromino.py:82-87 | a move keeps the rotation state and offsets the position by exactly (dx, dy) |
| ClassicTetromino.RowCellsOnRow | 01_tetris/tetromino.py:93-95 | every block of a row lies on that row |
| ClassicTetromino.ShapeCellsBelow | 01_tetris/tetromino.py:91-95 | every block from row r on lies at or below row y + r |
| ClassicTetromino.RowCellsColumns | 01_tetris/tetromino.py:93-95 | every block of a row lies between the start column and the row's end |
| ClassicTetromino.ShapeCellsArea | 01_tetris/tetromino.py:91-95 | rows at most w long put every block in the w columns from x |
| ClassicTetromino.StatesInBox | 01_tetris/tetromino.py:6-42 | every rotation state fits a 4 x 4 box |
| ClassicTetromino.BlocksInBox | 01_tetris/tetromino.py:89-96 | a well-formed piece's blocks lie in the four columns and rows from its position |
| ClassicTetromino.SomeBlockBelowTop | 01_tetris/tetromino.py:89-96 | a well-formed piece occupies some cell at or below its row |
| ClassicBoard.FitsAboveFloor | 01_tetris/game_board.py:11-18 | a shape with a block that the board accepts has its top row above the floor |
| ClassicBoard.EmptyAcceptsInside | 01_tetris/game_board.py:11-18 | an empty board accepts any positions inside it |
| ClassicBoard.EmptyBoardAccepts | 01_tetris/game_board.py:11-18 | an empty board accepts any well-formed piece whose 4 x 4 box lies inside it |
| ClassicBoard.Placed | 01_tetris/game_board.py:20-24 | placing keeps the board's dimensions |
| ClassicBoard.PlacedAt | 01_tetris/game_board.py:20-24 | placing writes the colour into the listed cells inside the board and leaves every other cell unchanged |
| ClassicBoard.DropRowFacts | 01_tetris/game_board.py:43-50 | the landing row is at or below the start, every row on the way is accepted, and the next one is not |
| ClassicBoard.ValidMoved | 01_tetris/game_board.py:43-50 | whether a piece moved down is accepted depends only on its shape and new row |
| ClassicBoard.DropLands | 01_tetris/game_board.py:43-50 | dropping an accepted piece reaches an accepted position at or below it from which it can fall no further |
| ClassicBoard.GameBoard.constructor | 01_tetris/game_board.py:6-9 | the board is `height` rows of `width` empty cells |
| ClassicBoard.GameBoard.IsValidPosition | 01_tetris/game_board.py:11-18 | the answer is true exactly when every block is inside the walls, above the floor, and on an empty cell or above the top |
| ClassicBoard.GameBoard.CheckPositions | 01_tetris/game_board.py:13-18 | the early-exit scan accepts exactly a block list whose every position is acceptable |
| ClassicBoard.GameBoard.PlaceTetromino | 01_tetris/game_board.py:20-24 | the new board is the old one with the piece's colour written into its in-range blocks, unchecked |
| ClassicBoard.GameBoard.ClearLines | 01_tetris/game_board.py:26-38 | the scan that re-examines a row after deleting leaves exactly the cleared board (no complete row, incomplete rows in order at the bottom) and returns the number of complete rows |
| ClassicBoard.GameBoard.IsGameOver | 01_tetris/game_board.py:40-41 | true exactly when some column is stacked to the full height of the board, which is when the top row holds a block |
| ClassicBoard.GameBoard.GetDropPosition | 01_tetris/game_board.py:43-50 | the loop ends for every well-formed piece and returns the landing row |
| ClassicBoard.GameBoard.GetBoardCopy | 01_tetris/game_board.py:52-53 | a copy equal to the board, with its dimensions; the original board's `get_board_copy` means the same as the refactored board's `get_board` (`Board.GameBoard.GetBoard`), and the two classes are kept apart as the source keeps them |
| ClassicGame.ClassicLevel | 01_tetris/tetris_game.py:120 | the level is at most 10 and, for a non-negative line count, at least 1 and the refactored level formula capped at 10 |
| ClassicGame.ClassicScore | 01_tetris/tetris_game.py:40-42 | 40, 100, 300 or 1200 times the level for one to four lines, and 0 for any other count |
| ClassicGame.Settled | 01_tetris/tetris_game.py:114-115 | placing and clearing keeps the 10 x 20 board |
| ClassicGame.Landed | 01_tetris/tetris_game.py:87-89 | moving the piece to its landing row keeps the board |
| ClassicGame.CandidateWellFormed | 01_tetris/tetris_game.py:69-104 | the piece a move or rotation action proposes is well formed |
| ClassicGame.InitialInv | 01_tetris/tetris_game.py:10-35 | the new game satisfies the invariant: counters consistent (level from lines, fall speed from level, resets within the cap) and well-formed pieces |
| ClassicGame.SpawnKeepsInv | 01_tetris/tetris_game.py:44-56 | a spawn keeps the invariant and, in a running game, ends it exactly when the board refuses the promoted piece at column 3, row 0 |
| ClassicGame.LockKeepsInv | 01_tetris/tetris_game.py:113-123 | a lock keeps the invariant |
| ClassicGame.ResetKeepsInv | 01_tetris/tetris_game.py:108-111 | a lock-delay reset keeps the invariant |
| ClassicGame.TryKeepsInv | 01_tetris/tetris_game.py:69-104 | a tried move keeps the invariant |
| ClassicGame.HardDropKeepsInv | 01_tetris/tetris_game.py:87-90 | a hard drop keeps the invariant |
| ClassicGame.InputKeepsInv | 01_tetris/tetris_game.py:58-106 | every action keeps the invariant |
| ClassicGame.FallKeepsInv | 01_tetris/tetris_game.py:156-162 | the normal fall keeps the invariant |
| ClassicGame.TimerKeepsInv | 01_tetris/tetris_game.py:136-150 | running the lock timer keeps the invariant |
| ClassicGame.TickKeepsInv | 01_tetris/tetris_game.py:125-162 | a tick keeps the invariant |
| ClassicGame.LevelCap | 01_tetris/tetris_game.py:120 | from 90 lines on the level stays at 10; below it equals the refactored formula, which reaches 11 at 100 lines; the fall speed is 50 ms per level below 500 |
| ClassicGame.LockGridFacts | 01_tetris/tetris_game.py:113-115 | the board after a lock is the placed board with its complete rows cleared, holding no complete row, and the placed board itself when no row is complete |
| ClassicGame.LockCountFacts | 01_tetris/tetris_game.py:113-121 | a lock adds the cleared rows to the line total and their points at the level the piece fell at, and recomputes level and fall speed only when a row went |
| ClassicGame.LockSpawnFacts | 01_tetris/tetris_game.py:44-56 | after a lock the next piece is current at column 3, row 0, the drawn piece is next, the lock delay is fresh, and the game is over exactly when it was or the cleared board refuses the new piece |
| ClassicGame.ResetFacts | 01_tetris/tetris_game.py:108-111 | a reset restarts the timer and spends one reset only for a grounded piece with resets left; at the cap a move is still taken but the timer runs on |
| ClassicGame.TryFacts | 01_tetris/tetris_game.py:69-104 | a move is taken exactly when the board accepts it, never touches the board, and only a taken resetting move can restart the timer |
| ClassicGame.InputFacts | 01_tetris/tetris_game.py:58-106 | quit ends the loop with nothing changed; pause toggles even after the game is over; paused or over ignores every other action; only a hard drop changes the board |
| ClassicGame.TickFreeFacts | 01_tetris/tetris_game.py:125-162 | a tick does nothing while paused or over; a piece with room below is ungrounded, never locked, and falls a row once the fall time reaches the fall speed |
| ClassicGame.TickIsTimer | 01_tetris/tetris_game.py:130-150 | a running tick of a piece with no room below is the lock timer step |
| ClassicGame.TickLocksWhenDue | 01_tetris/tetris_game.py:134-150 | a piece with no room below is grounded (fresh resets if it just landed), its timer counted from when it landed, and it locks once that timer reaches the delay |
| ClassicGame.TickWaitsUntilDue | 01_tetris/tetris_game.py:134-162 | before the delay is reached the piece stays put, grounded, with the timer run on and the fall time reset once the fall is due |
| ClassicGame.TetrisGame.constructor | 01_tetris/tetris_game.py:10-35 | the new game's view is `Initial`: empty board, two drawn pieces, score 0, level 1, fall speed 500, lock delay 500, cap 15 |
| ClassicGame.TetrisGame.SpawnNewTetromino | 01_tetris/tetris_game.py:44-56 | the new view is `SpawnStep` of the old one and the invariant holds |
| ClassicGame.TetrisGame.ResetLockDelay | 01_tetris/tetris_game.py:108-111 | the new view is `ResetStep` of the old one |
| ClassicGame.TetrisGame.LockTetromino | 01_tetris/tetris_game.py:113-123 | the new view is `LockStep` of the old one |
| ClassicGame.TetrisGame.Settle | 01_tetris/tetris_game.py:114-115 | placing then clearing gives `Settled` |
| ClassicGame.TetrisGame.AddLines | 01_tetris/tetris_game.py:117-121 | the scoring of cleared rows gives `Scored` |
| ClassicGame.TetrisGame.TryMove | 01_tetris/tetris_game.py:69-104 | a tried move gives `TryStep` |
| ClassicGame.TetrisGame.HardDrop | 01_tetris/tetris_game.py:87-90 | a hard drop gives `HardDropStep` |
| ClassicGame.TetrisGame.HandleInput | 01_tetris/tetris_game.py:58-106 | the new view and whether to continue are `InputStep` of the old view and the action |
| ClassicGame.TetrisGame.UpdateGameState | 01_tetris/tetris_game.py:125-162 | a tick at `now` gives `TickStep` |
| ClassicGame.TetrisGame.UpdateGrounding | 01_tetris/tetris_game.py:134-155 | the grounding check after the clock update gives `GroundStep` |
| ClassicGame.TetrisGame.RunLockTimer | 01_tetris/tetris_game.py:136-150 | the lock-timer branch gives `TimerStep` |
| ClassicGame.TetrisGame.UpdateFalling | 01_tetris/tetris_game.py:156-162 | the normal fall gives `FallStep` |
| SimpleGame.Settled | 01_tetris/simple_tetris.py:117-118 | placing and clearing keeps the 10 x 20 board |
| SimpleGame.CountersLevel | 01_tetris/simple_tetris.py:124 | a game whose counters agree has a level between 1 and 10 |
| SimpleGame.InitialInv | 01_tetris/simple_tetris.py:26-34 | the new game satisfies the invariant: level from lines, well-formed pieces |
| SimpleGame.SpawnKeepsInv | 01_tetris/simple_tetris.py:107-114 | a spawn keeps the invariant |
| SimpleGame.LockKeepsInv | 01_tetris/simple_tetris.py:116-126 | a lock keeps the invariant |
| SimpleGame.TryKeepsInv | 01_tetris/simple_tetris.py:136-156 | a tried move keeps the invariant |
| SimpleGame.DropKeepsInv | 01_tetris/simple_tetris.py:146-151 | a soft drop keeps the invariant |
| SimpleGame.KeyKeepsInv | 01_tetris/simple_tetris.py:128-156 | every key keeps the invariant |
| SimpleGame.GravityKeepsInv | 01_tetris/simple_tetris.py:175-182 | the main loop's fall keeps the invariant |
| SimpleGame.QuitFacts | 01_tetris/simple_tetris.py:128-134 | `q` stops the loop even after the game is over and changes nothing else; no other key stops it; a finished game ignores every other key |
| SimpleGame.MoveKeyFacts | 01_tetris/simple_tetris.py:136-156 | `a`, `d` and `w` take the move left, move right or right rotation exactly when the board accepts it, and change nothing else |
| SimpleGame.SoftDropFacts | 01_tetris/simple_tetris.py:146-151 | `s` moves the piece one row down when the board accepts that, and otherwise locks it |
| SimpleGame.KeyKeepsGrid | 01_tetris/simple_tetris.py:128-156 | every key other than `s` leaves the board as it is |
| SimpleGame.GravityIsSoftDrop | 01_tetris/simple_tetris.py:175-182 | the main loop's fall is the `s` key of a running game, and nothing once the game is over |
| SimpleGame.LockGridFacts | 01_tetris/simple_tetris.py:116-118 | the board after a lock is the placed board with its complete rows cleared and holds no complete row |
| SimpleGame.LockCountFacts | 01_tetris/simple_tetris.py:116-124 | a lock adds the cleared rows to the total, scores them by the table at the level the piece fell at, and recomputes the level only when a row went |
| SimpleGame.LockSpawnFacts | 01_tetris/simple_tetris.py:107-126 | after a lock the next piece is current at column 3, row 0, the drawn piece is next, the loop keeps running, and the game is over exactly when it was or the cleared board refuses the new piece |
| SimpleGame.Project | 01_tetris/simple_tetris.py:26-34 | the simple game's fields of a classic game's state keep a well-shaped board |
| SimpleGame.LockAgreesWithClassic | 01_tetris/simple_tetris.py:116-126 | the simple lock is the classic lock seen through the shared fields: same board, pieces, score, lines, level and game-over flag |
| SimpleGame.SimpleTetris.constructor | 01_tetris/simple_tetris.py:26-34 | the new game's view is `Initial`: empty board, two drawn pieces, score 0, level 1, running |
| SimpleGame.SimpleTetris.SpawnNewTetromino | 01_tetris/simple_tetris.py:107-114 | the new view is `SpawnStep` of the old one and the invariant holds |
| SimpleGame.SimpleTetris.LockTetromino | 01_tetris/simple_tetris.py:116-126 | the new view is `LockStep` of the old one |
| SimpleGame.SimpleTetris.Settle | 01_tetris/simple_tetris.py:117-118 | placing then clearing gives `Settled` |
| SimpleGame.SimpleTetris.AddLines | 01_tetris/simple_tetris.py:120-124 | the scoring of cleared rows gives `Scored` |
| SimpleGame.SimpleTetris.TryMove | 01_tetris/simple_tetris.py:136-156 | a tried move gives `TryStep` |
| SimpleGame.SimpleTetris.SoftDrop | 01_tetris/simple_tetris.py:146-151 | a soft drop gives `DropStep` |
| SimpleGame.SimpleTetris.HandleInput | 01_tetris/simple_tetris.py:128-156 | a key gives `KeyStep` |
| Findings.StaleSnapshotLock | 01_tetris/components/game_engine.py:239-246 | when the fall is due and succeeds but the state read before it was grounded with an expired timer, the tick locks the piece at its new, ungrounded position |
| Findings.TickCatalogueOk | 01_tetris/components/game_engine.py:228-254 | the example's one-cell catalogue, ledge board and 4 x 4 engine satisfy the engine's invariant |
| Findings.TickMovedFits | 01_tetris/core/game_state.py:248-266 | on the example board the piece moved one row down is accepted by both the board's and the manager's placement rules |
| Findings.TickFallTaken | 01_tetris/components/game_engine.py:319-338 | on the example state the natural fall succeeds: the manager accepts the piece one row down |
| Findings.StaleSnapshotExample | 01_tetris/components/game_engine.py:239-246 | a concrete engine state meets every premise of `StaleSnapshotLock` while the piece still has room below |
| Findings.TickLockedGrid | 01_tetris/components/game_engine.py:239-246 | locking the moved piece into the example board fills row 1 of column 0 beside the ledge and clears no row |
| Findings.TickGridIsLockGrid | 01_tetris/components/game_engine.py:239-246 | on the example the tick's grid is the grid of the lock that follows the fall to row 1 |
| Findings.StaleSnapshotGrid | 01_tetris/components/game_engine.py:239-246 | after the example tick the piece is locked at row 1 of column 0 with the two rows below it empty: it is locked in mid-air |
| Findings.FreshTickNoLockAfterFall | 01_tetris/components/game_engine.py:228-254 | with the lock check reading the state after the fall, a piece that has just fallen is never locked in that tick, and a tick without a fall is the source's |
| Findings.FreshTickExample | 01_tetris/components/game_engine.py:228-254 | on the example state the corrected tick leaves the grid as it was, holding only the ledge |
| Findings.NegativeColumnRefused | 01_tetris/core/game_state.py:251-252 | a candidate the board accepts at a negative column is refused by the manager, so the move raises and nothing changes |
| Findings.OPieceLeftWall | 01_tetris/core/game_state.py:248-266 | the fallback O piece at column -1 fits the empty board but not the manager's rule, though it satisfies the corrected rule |
| Findings.PieceInsideAgreesWithBoard | 01_tetris/components/game_board.py:64-86 | the corrected rule (every occupied cell inside and empty) is exactly the board's acceptance for shapes not above the top, and the manager's rule implies it |

## Left out

- Dependency injection, the `initialize` overloads, the event bus, logging and the error handler are not modelled. An exception the source hands to `handle_error` is a `raised` result.
- The engine's call into the renderer during `update` is left out, because it draws to the terminal.
- The renderer's terminal output, colours and banners are left out. Only its three pure helpers are modelled.
- The run loops of all three games, the input handlers, `get_input`, termios set-up, screen clearing and `__del__` are I/O and are left out.
- `get_current_state`, `is_running` and `cleanup` of the engine are left out. They only read fields or release resources.
- Session identifiers, the `uuid` call and the game logger are left out.
- `reload_configurations`, `get_available_types` and the serialisation of states are left out. Nothing in the modelled core depends on them.
- The configuration file is not read. `Config` holds its default values.
- Time is an integer number of milliseconds, not a float. `update`'s `delta_time` argument is ignored, as in the source.
- The source reads the clock separately in `_handle_natural_fall`, `_move_piece` and `_rotate_piece`. The model gives a tick or an input one reading, `now`.
- Randomness is a parameter (`roll`, or a `drawn` piece), so the uniform distribution is not modelled.
- Engine.Ready: every catalogue shape is assumed to have an occupied cell, or to be empty. For any other shape, `get_ghost_piece_position` in the source never returns, so the model excludes that case.
- ClassicTetromino's pieces are well formed, so the `ZeroDivisionError` of a piece with no rotation states and the endless `get_drop_position` of a piece with no block cannot occur.
- ClassicBoard.GameBoard.constructor requires a positive width and height. On a zero-width board `clear_lines` never ends, and on a zero-height board `is_game_over` raises.
- A piece type is a string in the refactored model. In the original model it is one of seven kinds. The original source only ever indexes its tables with those seven keys.
- An original-game piece is a value. `rotate_right`, `rotate_left` and `move` build new objects, and the only in-place change, the spawn's position reset, acts on a piece nothing else refers to.
- The refactored state's `total_pieces` is carried in the state but never updated, as in the source.
- The simple game's main-loop fall is modelled as `GravityStep`, one fall per call. The one-second timer that decides when it runs is not modelled.
- Grids are modelled as rectangular where the source indexes them that way. The renderer's helpers read the width off the first row, and the model requires every row to have that width.

## Findings

| source | as written | input that shows it | evidently intended | confidence | as-written member | corrected member |
|---|---|---|---|---|---|---|
| 01_tetris/components/tetromino_factory.py:261-262 | the bounds scan starts its minima at 4, so a shape with more than four rows whose blocks lie below row 4 gets a preview box that starts at row 4 and includes empty rows | a six-row shape whose only block is at row 5, column 0: the preview is `[[0], [1]]` | the minimal bounding box of the occupied cells, `[[1]]` | not executed | Factory.TetrominoFactory.GetPiecePreview, Factory.TallShapePreview | Factory.TetrominoFactory.GetMinimalPiecePreview |
| 01_tetris/components/game_engine.py:239-246 | `update` decides on the lock from the state it read before the natural fall, so a piece that has just fallen, and is no longer grounded, is locked where it landed | a one-cell piece at row 0, column 0 of a 4 x 4 board whose only block is a ledge at row 1, column 1; the piece was grounded on the ledge and moved left off it, keeping the flag, and its lock timer has expired at the tick at 1000 ms, when the fall is due | the lock check reads the state after the fall, and a piece that has just moved down is not locked | not executed | Findings.StaleSnapshotLock, Findings.StaleSnapshotExample, Findings.StaleSnapshotGrid | Findings.FreshTickNoLockAfterFall, Findings.FreshTickExample |
| 01_tetris/core/game_state.py:251-252 | the manager refuses a piece whose origin has a negative column, even when the piece's occupied cells are all on the board, so every such move raises | the fallback O piece, whose first column is empty, at column -1 of an empty 10 x 20 board | a piece is accepted when its occupied cells are inside and empty, as `is_valid_position` of the board decides | not executed | Findings.NegativeColumnRefused, Findings.OPieceLeftWall | Findings.PieceInsideAgreesWithBoard |
