# Falling-block engine of the pygame Tetris game, in Dafny

The Tetris game in `pygame_tetris.py` is a single `Game` class. Inside its pygame plumbing is a small, fully discrete engine:

- a 20 x 10 field of cells, each empty or holding a colour;
- an active piece of four cells, whose cell 0 is the pivot;
- a preview piece with its colour;
- the per-frame blocks of `run()`:
  - held-key repetition;
  - the horizontal move with rollback;
  - the quarter-turn rotation with its clamp-and-nudge conflict resolver;
  - gravity, with lock, spawn and the game-over check;
  - full-row flagging in WHITE;
  - the delayed in-place row compaction;
  - score, best and level;
- the menu and session handlers (`new_game`, `key_*`, `drop`, `get_pause`, `get_info`, `resume`, `activate_menu_item`).

This project models that engine as the Dafny class `Engine.Game`. Its fields are the game's fields. Its methods are the handlers and the blocks of one pass of the frame loop. They change the field cell by cell and the piece one cell at a time, with the same rollbacks as the game.

Each method is proved against a pure specification function in one of four modules:

- `Shapes`: cells, templates, translation, rotation.
- `Board`: the field, Python-style lookups, flagging, compaction, painting.
- `Moves`: horizontal move and fall.
- `Resolver`: the rotation's conflict resolver.

`Levels` holds the level thresholds. The properties the game relies on are proved about those functions as lemmas.

Some conventions:

- Python's negative list indices are modelled explicitly with `Board.Wrap`. A piece may sit partly above the board after a rotation, and its cells in rows -2 and -1 then read and write the two bottom rows, as in the game.
- `anim_speed` grows by 0.5 per level. It is held as a count of half-units, and so is `anim_count`. The gravity test `anim_count >= anim_limit` becomes `animCount >= 2 * animLimit`.
- Random choices are method parameters: the next template index and the next colour.

Three behaviours of the code are reproduced as written:

- The rotation nudge takes the largest column and the largest row of the blocked cells independently.
- The vertical nudge reuses the blocked flags computed before the horizontal nudge.
- Compaction never clears the top rows it vacates.

## Model

| member | source | states |
|---|---|---|
| `Shapes.SpawnInPlay` | pygame_tetris.py:53-61 | every template placed at the spawn offset (+5 columns, +1 row) is a legal piece: within two cells of its pivot, in columns 0..9, in rows 0..2 |
| `Shapes.OnlyTheSquareIsSquare` | pygame_tetris.py:531-539 | the bounding-box test "extents exactly (1, 1)" holds of the spawned template 1 (the O piece) and of no other template |
| `Shapes.RotatedFourTimes` | pygame_tetris.py:540-546 | the pivot turn `x' = cx - (y - cy)`, `y' = cy + (x - cx)` applied four times gives back every cell; `Shapes.Rotated` keeps cell 0 fixed |
| `Shapes.MaxOf` | pygame_tetris.py:533-536 | Python's `max` of a non-empty list: an element of the list no smaller than any other |
| `Shapes.MinOf` | pygame_tetris.py:533-536 | Python's `min` of a non-empty list: an element of the list no larger than any other |
| `Shapes.Picked` | pygame_tetris.py:578-579 | the list of coordinates of flagged cells is non-empty exactly when some cell is flagged, so its `max` is defined exactly on the nudge path |
| `Shapes.PickedExactly` | pygame_tetris.py:578-579 | that list holds the coordinate of every flagged cell and nothing else |
| `Board.EmptyField` | pygame_tetris.py:69 | the fresh field is 20 rows of 10 empty cells |
| `Board.Filled` | pygame_tetris.py:653-656 | the per-row count of non-empty cells is at most 10, is 10 exactly when no cell is empty, and is 0 exactly when all are empty |
| `Board.CountFilled` | pygame_tetris.py:653-656 | the counting loop returns that count |
| `Board.FlaggedKeepsFullRows` | pygame_tetris.py:651-661 | whitening the full rows keeps a 20 x 10 field and keeps exactly the same rows full |
| `Board.FlaggedIdempotent` | pygame_tetris.py:651-661 | a second scan changes nothing further |
| `Board.NonFullAppend` | pygame_tetris.py:671-680 | the non-full rows and the full-row count of a split field are those of its parts, in order |
| `Board.CompactedShape` | pygame_tetris.py:671-680 | after compaction the bottom rows are exactly the non-full rows in their old top-to-bottom order, none of them full, and the rows above row `line` are untouched |
| `Board.ClearOneRow` | pygame_tetris.py:671-680 | with exactly one full row `r`, one line is counted and the field becomes row 0 on top of every row but `r`: for `r` ≥ 1 row `r` disappears, the rows above it move down by one and the top row stays in place (it is not cleared); for `r` = 0 the field comes back unchanged, the full row 0 included |
| `Board.PaintAt` | pygame_tetris.py:627-629 | after a lock, a cell holds the piece's colour exactly when some piece cell lands on it (through Python's row wrap), and every other cell is unchanged |
| `Board.PaintAddsCells` | pygame_tetris.py:627-629 | painting distinct empty on-board cells with a colour adds exactly that many blocks to the field |
| `Moves.MoveSafe` | pygame_tetris.py:517-524 | the move is atomic: the piece stays in play and is either unchanged or has all four cells moved by exactly `dx` onto empty cells of columns 0..9 |
| `Moves.MoveReversible` | pygame_tetris.py:519-524 | a move that succeeds from empty cells is undone by the opposite move |
| `Moves.EmptyBoardMove` | pygame_tetris.py:520-522 | on an empty field a move succeeds exactly when the moved piece stays within columns 0..9 |
| `Moves.FallInPlay` | pygame_tetris.py:624-626 | a piece that can fall is still in play one row lower |
| `Moves.EmptyBoardFall` | pygame_tetris.py:624-626 | on an empty field the piece falls exactly when its lowest cell is above row 19 |
| `Moves.LockAddsFour` | pygame_tetris.py:627-629 | locking four distinct on-board cells that were empty adds exactly four blocks |
| `Resolver.ClampedBounds` | pygame_tetris.py:549-564 | the three clamps keep the shape and bring every cell into columns 0..9 and on or above row 19, before the occupancy check |
| `Resolver.NudgesKeepShape` | pygame_tetris.py:575-603 | both nudges only translate the clamped piece |
| `Resolver.RotateSafe` | pygame_tetris.py:527-617 | the resolved rotation `Resolver.RotateOutcome` is all or nothing: the piece stays in play and is either unchanged or a translate of its quarter turn lying on no block |
| `Resolver.NudgedSafe` | pygame_tetris.py:605-615 | a piece accepted after the nudges is a translate of the turn, wholly on the board and on no block |
| `Resolver.SquareStays` | pygame_tetris.py:531-539 | a rotate never changes the square |
| `Resolver.EmptyBoardTurns` | pygame_tetris.py:566-573 | on an empty field every other piece takes the first path: the clamped turn, with cells above row 0 allowed |
| `Resolver.OffBoardRollsBack` | pygame_tetris.py:605-617 | on the nudged path, one cell off the board after the nudges restores the pre-rotation piece |
| `Resolver.PyFree` | pygame_tetris.py:596-600 | `not field[y][x]` as Python evaluates it is `True` exactly when the corrected lookup `Board.Free` holds; an index Python rejects gives no value |
| `Resolver.NudgeYAgrees` | pygame_tetris.py:590-603 | wherever the vertical nudge as written raises no IndexError, it equals the corrected nudge |
| `Resolver.AsWrittenAgrees` | pygame_tetris.py:527-617 | wherever the rotation as written raises no IndexError, it equals the corrected rotation |
| `Resolver.RotationCrash` | pygame_tetris.py:596-600 | for a concrete L piece and field, the rotation as written reaches `field[17][10]` and raises IndexError |
| `Resolver.RotationCrashRolledBack` | pygame_tetris.py:605-617 | on the same input, the corrected rotation rolls back to the pre-rotation piece |
| `Levels.NextLevel` | pygame_tetris.py:689-694 | the threshold loop with `break` sets `next_level` exactly when some multiple of 10 from 10 to 1000 lies in `(old_score, score]` |
| `Levels.CrossesClosedForm` | pygame_tetris.py:690-694 | such a threshold lies in `(old_score, score]` exactly when `min(score, 1000) div 10 > old_score div 10` |
| `Levels.FirstThreshold` | pygame_tetris.py:690-694 | going from 9 to 10 crosses a threshold; going from 10 to 19 does not |
| `Levels.NoThresholdPastThousand` | pygame_tetris.py:690 | from a score of 1000 on, the level never rises again |
| `Engine.PrevItem` | pygame_tetris.py:270-271 | the previous menu entry stays in 1..5 |
| `Engine.NextItem` | pygame_tetris.py:279-280 | the next menu entry stays in 1..5 |
| `Engine.MenuCycles` | pygame_tetris.py:268-284 | up then down, and down then up, return to the same entry; five steps down go round the menu |
| `Engine.ShiftCoords` | pygame_tetris.py:553-564 | the per-triple coordinate loops translate every cell by the same amount |
| `Engine.ClampCoords` | pygame_tetris.py:549-564 | the clamp block computes `Resolver.Clamped` |
| `Engine.ClampLeftCoords` | pygame_tetris.py:551-554 | the left clamp computes `Resolver.ClampLeft` |
| `Engine.ClampRightCoords` | pygame_tetris.py:556-559 | the right clamp computes `Resolver.ClampRight` |
| `Engine.ClampBottomCoords` | pygame_tetris.py:561-564 | the bottom clamp computes `Resolver.ClampBottom` |
| `Engine.BlockedFlags` | pygame_tetris.py:566-568 | a cell is flagged exactly when it is on the board and on a block |
| `Engine.NudgeHorizontal` | pygame_tetris.py:575-588 | the horizontal nudge computes `Resolver.NudgeX` |
| `Engine.NudgeVertical` | pygame_tetris.py:590-603 | the vertical nudge, with the stale flags, computes the corrected `Resolver.NudgeY` |
| `Engine.CompactionStep` | pygame_tetris.py:671-680 | one pass of the compaction loop keeps its invariant; `line` moves up exactly when the row read was not full |
| `Engine.CompactionDone` | pygame_tetris.py:671-680 | when the loop ends, the field is the compacted field and `lines` is the number of full rows |
| `Engine.Game.constructor` | pygame_tetris.py:61-80 | the new game state: an empty field, the two drawn pieces and colours, speed 1, limit FPS, best 0, score 0, level 1, first menu entry, music and sound on, no keys held |
| `Engine.Game.NewGame` | pygame_tetris.py:239-251 | empties the field; draws new pieces and colours; resets speed, limit, counters, score, level and flags; selects entry 2; leaves `best` unchanged |
| `Engine.Game.KeyLeft` | pygame_tetris.py:258-261 | asks for a move one column left and starts holding the key |
| `Engine.Game.KeyRight` | pygame_tetris.py:263-266 | asks for a move one column right and starts holding the key |
| `Engine.Game.KeyUp` | pygame_tetris.py:268-275 | in the menu, steps to the previous entry with wraparound; in play, asks for a rotation and starts holding the key |
| `Engine.Game.KeyDown` | pygame_tetris.py:277-285 | in the menu, steps to the next entry with wraparound; in play, asks for a one-row fall and starts holding the key |
| `Engine.Game.Drop` | pygame_tetris.py:287-288 | sets the gravity limit to 3 |
| `Engine.Game.SetMusic` | pygame_tetris.py:290-293 | toggles music |
| `Engine.Game.SetSound` | pygame_tetris.py:295-296 | toggles sound |
| `Engine.Game.GetPause` | pygame_tetris.py:298-305 | toggles the menu, closes the info screen, selects entry 1, cancels a drop; the menu and the info screen are never both open |
| `Engine.Game.GetInfo` | pygame_tetris.py:307-311 | toggles the info screen, closes the menu, cancels a drop |
| `Engine.Game.Resume` | pygame_tetris.py:313-315 | closes the menu and the info screen |
| `Engine.Game.ActivateMenuItem` | pygame_tetris.py:317-327 | entry 1 closes the menu and the info screen and changes nothing else; 2 starts a new game (empty field, the given pieces and colours, speed, limit and counters reset, score 0, level 1, menu on entry 2) keeping `best`, music and sound; 3 toggles music and 4 toggles sound, each changing nothing else; 5 asks to quit and changes nothing. No entry touches `best`, the key intents or the held keys |
| `Engine.Game.BeginFrame` | pygame_tetris.py:332-334 | the previous frame's move, fall and rotate requests are dropped |
| `Engine.Game.RepeatHeldKeys` | pygame_tetris.py:494-507 | with a key held, every tenth frame re-issues its request (right over left); otherwise only the frame counter moves; with no key held nothing changes |
| `Engine.Game.MoveX` | pygame_tetris.py:516-524 | the move block gives `Moves.MoveOutcome` when a move is asked for and the piece is live, and otherwise leaves the piece alone |
| `Engine.Game.ShiftCells` | pygame_tetris.py:519-524 | the cell-by-cell move loop with rollback computes `Moves.MoveOutcome` |
| `Engine.Game.TurnFigure` | pygame_tetris.py:540-546 | the in-place turn loop computes `Shapes.Rotated` |
| `Engine.Game.CommitCoords` | pygame_tetris.py:609-615 | copies the nudged cells in, or restores the old piece if any cell is off the board |
| `Engine.Game.Rotate` | pygame_tetris.py:526-617 | the rotation block gives `Resolver.RotateOutcome` when a turn is asked for and the piece is live, otherwise leaves the piece alone, and keeps the game invariant |
| `Engine.Game.TurnUnlessSquare` | pygame_tetris.py:531-539 | the square is left alone; any other piece is turned and settled as `Resolver.RotateOutcome` says |
| `Engine.Game.TurnAndSettle` | pygame_tetris.py:540-617 | turn, clamp, check, nudge, check again, then commit or undo, exactly as `Resolver.Settle` |
| `Engine.Game.GravityStep` | pygame_tetris.py:618-648 | when not due, only the accumulator grows. When due, it resets and one of two things happens. Either the piece falls one row with nothing else changed. Or exactly the old cells are painted, the preview piece and colour become current, a new preview is drawn, the limit returns to FPS, and the game is over exactly when the new piece is on a block |
| `Engine.Game.DropCells` | pygame_tetris.py:623-626 | the cell-by-cell fall reports a landing exactly when the piece cannot fall; otherwise it moves every cell one row down |
| `Engine.Game.Lock` | pygame_tetris.py:627-647 | the lock paints the old cells, spawns the preview piece, resets the limit, and ends the game exactly when the new piece overlaps a block |
| `Engine.Game.PaintCells` | pygame_tetris.py:627-629 | the painting loop computes `Board.Paint` |
| `Engine.Game.CheckGameOver` | pygame_tetris.py:636-647 | the game-over loop sets the flag exactly when some cell of the new piece is on a block |
| `Engine.Game.WhitenRow` | pygame_tetris.py:657-660 | turns one row WHITE and leaves every other row unchanged |
| `Engine.Game.ScanRows` | pygame_tetris.py:652-661 | whitens exactly the full rows; the animation flag is set exactly when it was set or some row was full |
| `Engine.Game.FlagFullRows` | pygame_tetris.py:650-661 | the scan runs only outside game over, menu and info screen, and then has the effect of `Engine.Game.ScanRows` |
| `Engine.Game.CopyRow` | pygame_tetris.py:672-676 | copies row `row` over row `line` cell by cell, leaves the other rows alone, and counts the copied row's blocks |
| `Engine.Game.CompactRows` | pygame_tetris.py:663-680 | the compaction loop yields `Board.Compacted` of the field, and `lines` is the number of full rows |
| `Engine.Game.TickClearAnimation` | pygame_tetris.py:663-680 | with no animation nothing changes. On ticks 1 to 9 only the counter moves. On the tenth tick the animation stops, the counter resets and the field is compacted |
| `Engine.Game.UpdateScore` | pygame_tetris.py:682-699 | the score grows by exactly `lines` and `best` follows it up. Level and speed (half a unit) rise by one together exactly when `lines > 0` and a threshold was crossed; nothing else changes when `lines = 0` |
| `Engine.Game.PlayPiece` | pygame_tetris.py:494-648 | held keys, move, rotation and gravity keep the game invariant, and a frozen piece (menu, info, game over) and its field stay as they are |
| `Engine.Game.SettleRows` | pygame_tetris.py:650-699 | flagging, animation and score keep the game invariant and raise the score by the lines cleared; when frozen and not animating, the field does not change |
| `Engine.Game.Step` | pygame_tetris.py:494-699 | one frame of the engine keeps the game invariant and raises the score by the lines cleared; when frozen, the piece does not move |

## Left out

- Rendering is not modelled: surfaces, the star background, grid, text, the menu and info screens, the next-piece preview drawing, and the flashing game-over board. It is drawing only.
- Audio is not modelled: every sound `.play()`, and the music pause and unpause in `set_music`. These are side effects that change no engine state.
- Event decoding is not modelled: the keyboard, joystick and mouse dispatch, touch swipes with their float thresholds, the key-release handlers that stop holding a key, and the touch `block` counter (lines 509-514). Only the handler methods those events call are modelled.
- Saving and loading the game with pickle is not modelled. This is file I/O, including the pause forced after a load.
- `random.choice` and `random_color` are not modelled. The new template index and colour are parameters. The colour ranges 128..255 are not constrained.
- The clock and FPS timing are not modelled. A pass of the loop is `Engine.Game.BeginFrame`, then the handler calls for that frame's events, then `Engine.Game.Step`; `Step` alone does neither the reset nor the event handling.
- `exit()` is not modelled. Entry 5 returns `quit = true` instead of saving and exiting the process.
- Engine.Game.ActivateMenuItem: entry 5 states only that the state is unchanged and `quit` is set; the save and exit are I/O.
- Engine.Game.GetPause: the returned `True` and the save it performs are not modelled.
- Engine.Game.Step: states only the game invariant, the score relation and that a frozen piece stays put. The effect of each phase is stated by `Engine.Game.PlayPiece`, `Engine.Game.SettleRows` and the methods they call.
- Engine.Game.PlayPiece: states only the game invariant and that nothing moves when frozen. The move, rotation and gravity contracts carry the rest.
- Engine.Game.SettleRows: states only the game invariant, the score relation and the frozen case. Flagging, animation and score are stated by their own methods.
- Compaction writes row `line` last from row 0, so when row 0 is full, row `line` ends up holding row 0's contents. `Board.Compacted` follows the code. Only the rows strictly above `line` keep their previous contents.
- The rotation's IndexError crash is modelled only in `Resolver.RotateAsWritten`. The engine's `Engine.Game.Rotate` uses the corrected behaviour (see Findings).

## Findings

| source | as written | input that shows it | evidently intended | confidence | as-written member | corrected member |
|---|---|---|---|---|---|---|
| pygame_tetris.py:596 | The vertical nudge recomputes `max_zx` from blocked flags computed before the horizontal nudge. After a shift right, `max_zx` can be 10 or 11, and `self.field[max_zy - 1][max_zx]` raises IndexError, ending the game loop. | The L piece `(9,18),(9,17),(9,19),(8,17)` is turned next to blocks at columns 7..8 of rows 18..19. The turn is clamped left to `(8,18),(9,18),(7,18),(9,17)`, and the cells at columns 8 and 7 are flagged. The cell left of `max_zx = 8` is taken, so the horizontal nudge shifts right by 2. The vertical nudge then reads `field[17][10]`. | A lookup off the board counts as not free, and the rotation rolls back like any other failed nudge. | not executed | `Resolver.RotationCrash` | `Resolver.RotationCrashRolledBack` |
