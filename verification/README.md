# tictactoe3 game model in Dafny

A model of the game engine of *tictactoe3*. The game is three-dimensional
tic-tac-toe on a 3×3×3 cube, played one level at a time from the bottom up.
Two players, RED (`X`) and BLUE (`O`), alternate. They fill the nine squares
of level 0, then level 1, then level 2.

A move's square becomes *special* when the move's offset within its level is
1, 2, 6 or 7. Completing a line of three through the square just taken scores
one point, or two when all three squares are special. After 27 moves the
higher score wins; equal scores are a tie.

The engine (`lib/model.py`) is modelled as pure functions over an immutable
`Game`. Each command returns the new game together with the signals it
sends, as a sequence of `Event`s. `move` returns an error value where the
program raises. The program raises before it changes anything, so a rejected
move carries no new game and the caller keeps the one it had. `Invariants.Play`
does exactly that.

Modules, one per file:

- `Geometry` (`geometry.dfy`): the size constants, positions, `invert`, and
  the `iter_xyz` enumeration.
- `Squares` (`squares.dfy`): square values, players, `Square.reset`,
  `Square.__repr__` and `other_player`.
- `Paths` (`paths.dfy`): the winning-path table of `_calc_winning_paths`.
  `PathIndex` reads a line's table index off its cells alone. That shows the
  table lists each of the 49 lines of the cube exactly once.
- `Scoring` (`scoring.dfy`): the scan `_handle_tictactoe` makes over the table.
- `Engine` (`engine.dfy`): `Game` and its derived properties, `winner`, `move`
  and `reset`.
- `Invariants` (`invariants.dfy`): the invariant every reachable game keeps,
  and what follows from it.
- `Wrappers` (`wrappers.dfy`): `Option` and `Result`.

Behaviour of the code worth noting:

- A move at the right level whose `x` or `y` is off the board raises
  `KeyError` from the board lookup. So does a move at level 3 once the game
  is done: the current level is then 3, so a move at levels 0 to 2 fails
  the level check first. The model returns `NoSuchSquare` for the `KeyError`
  cases.
- The move's status list is cleared only after both checks pass. A rejected
  move keeps the previous status.
- The scan skips a path whose top square lies *above* the move's level.
  Such a path cannot be complete yet.

## Model

| member | source | states |
|---|---|---|
| Geometry.InvertInvolution | lib/model.py:414-416 | `invert` undoes itself and maps 0..2 onto 0..2. `RANGE_SIZE_REVERSED` is `RANGE_SIZE` passed through it. |
| Geometry.IterXyz | lib/model.py:115-124 | The enumeration has 27 in-bounds squares. Square `(x, y, z)` is at index `9x + 3y + z`, and no square repeats. |
| Geometry.CubeCard | lib/model.py:19-21 | The board has `TOTAL_SQUARES` = 27 squares. |
| Geometry.LevelCard | lib/model.py:19-20 | Every level has `SQUARES_PER_LEVEL` = 9 squares. |
| Squares.Repr | lib/model.py:342-344 | A square renders as two characters. |
| Squares.ReprRoundTrip | lib/model.py:342-344 | The rendering parses back to the square it came from; only renderings of squares parse. |
| Squares.ReprInjective | lib/model.py:342-344 | Different squares render differently. |
| Squares.OtherPlayer | lib/model.py:204-208 | The result is BLUE exactly when the argument is RED, and otherwise RED. |
| Squares.OtherPlayerInvolution | lib/model.py:204-208 | On the two players, `other_player` swaps them and undoes itself. |
| Paths.WinningPathsListed | lib/model.py:279-317 | The table has 49 entries. Each is a straight line of three in-bounds squares with its highest square first, and its `PathIndex` is its position in the table. |
| Paths.WinningPathsAreLines | lib/model.py:283-286 | Every entry is three distinct squares on one line, highest first. |
| Paths.WinningPathsNoDuplicates | lib/model.py:289-317 | No two entries hold the same set of squares. |
| Paths.WinningPathsComplete | lib/model.py:289-317 | Every line of the cube has an entry with the same squares, so the table misses no way to win. |
| Paths.PathIndexCharacterisesCells | lib/model.py:289-317 | Two lines have the same squares exactly when they get the same table index. |
| Scoring.Hits | lib/model.py:259-265 | The count reaches the path length exactly when the player owns every square of the path. |
| Scoring.SpecialHits | lib/model.py:259-265 | The count never exceeds `hits`. It reaches the path length exactly when every square is the player's and special. |
| Scoring.PathPoints | lib/model.py:266-271 | A path is worth 2 when all its squares are the player's and special, 1 when all are the player's, else 0. |
| Scoring.Scan | lib/model.py:249-271 | Points are earned exactly when squares are highlighted. Every highlighted square lies on a path through the move that the player owns. Every such path whose top square is not above the move is fully highlighted. |
| Scoring.ScanThrough | lib/model.py:249-271 | A reference scan with no skip: it highlights exactly the squares of the owned paths through the move. |
| Scoring.PathPointsSplit | lib/model.py:266-271 | On a path through the move, the points are 1 for owning it plus 1 when all its squares are also special. |
| Scoring.ScanThroughPoints | lib/model.py:249-273 | The scan's points are the number of owned paths through the move plus the number of those that are all special. |
| Scoring.SkipIsSound | lib/model.py:252-255 | When nothing above the move's level is filled, skipping paths whose top square lies above the move changes neither points nor highlights. |
| Engine.Scores.Add | lib/model.py:273 | Adding points raises one player's score by that much and leaves the other's alone. |
| Engine.Done | lib/model.py:149-156 | Once the game is done, the current level is 3, past the top level. |
| Engine.CurrentLevel | lib/model.py:158-165 | The level is the one whose nine-move block contains `move_count`. |
| Engine.CurrentPlayer | lib/model.py:167-178 | The first player moves exactly on even counts. |
| Engine.TurnsAlternate | lib/model.py:167-178 | Each move hands the turn to the other player. |
| Engine.Winner | lib/model.py:189-202 | There is no winner exactly when the scores are equal; otherwise the winner's score is strictly higher. |
| Engine.TableScannable | lib/model.py:245-262 | On a full board every path of the table can be looked up square by square. |
| Engine.Plural | lib/model.py:276 | The plural suffix is "s" exactly when the points are not 1, and empty exactly when they are 1. |
| Engine.HandleTicTacToe | lib/model.py:245-277 | Scoring leaves the board and the move count alone. It adds the scan's points to the mover only. |
| Engine.Move | lib/model.py:210-230 | "Wrong level" exactly when `z` is not the current level. `NoSuchSquare` exactly when `z` is right but the square is off the board. "Square taken" exactly when the square is on the board and filled. On success: the square gets the pre-move current player and the move's special flag; every other square is unchanged; `move_count` grows by one; only the mover's score changes, and it does not drop. |
| Engine.MoveSignals | lib/model.py:228-243 | A move signals BOARD; then SCORE with the highlighted squares exactly when the mover scored; then PLAYER; then LEVEL exactly when the level advanced; then STATUS. |
| Engine.MoveStatus | lib/model.py:225-277 | The status after a move has these parts, in order. First the points earned, with "s" unless exactly one. Then "The only way is up!" when a level was filled and the game is not done. Finally, once done, the tie or the winner. |
| Engine.MoveEarned | lib/model.py:245-273 | A move earns exactly the points the scan finds on the board with the new mark. |
| Engine.Reset | lib/model.py:95-113 | Every square becomes blank and not special. The scores become 0, the count 0, the status empty. The given player is first and to move, on level 0. LEVEL, SCORE, BOARD, PLAYER and STATUS are signalled, in that order. |
| Engine.NewGame | lib/model.py:82-93 | A new game's board holds exactly the 27 squares of the cube. |
| Engine.ResetIdempotent | lib/model.py:95-113 | Resetting twice with the same first player is resetting once. |
| Invariants.ResetEstablishesValid | lib/model.py:95-113 | After `reset` the game satisfies the invariant. |
| Invariants.QuotaStep | lib/model.py:230-235 | One more move adds one filled square to the current level's quota and leaves the other levels' quotas alone. |
| Invariants.FillOne | lib/model.py:222-226 | Taking a blank square adds exactly one filled square. |
| Invariants.FillOneLevel | lib/model.py:222-226 | Taking a blank square adds one filled square to its level and none to the others. |
| Invariants.SpecialBelowStep | lib/model.py:180-187 | One more move on a level adds a special square exactly when its offset is 1, 2, 6 or 7. |
| Invariants.SpecialOneLevel | lib/model.py:226-227 | Filling a non-special square adds a special square to its level exactly when the new square is special. |
| Invariants.StepKeepsSpecials | lib/model.py:180-187 | After each move, every level holds one special square per move made on it at offset 1, 2, 6 or 7. |
| Invariants.StepPreservesValid | lib/model.py:220-230 | Filling a blank square of the current level and counting the move keeps the invariant. |
| Invariants.MovePreservesValid | lib/model.py:210-243 | A successful move keeps the invariant: filled squares = `move_count` ≤ 27; nothing above the current level is filled; blank squares are not special; each level has its quota of filled squares and its count of special squares. |
| Invariants.Play | lib/model.py:210-243 | Any sequence of attempted moves keeps the board's squares and the first player. The count grows by at most one per attempt. |
| Invariants.PlayPreservesValid | lib/model.py:210-243 | Any sequence of attempted moves on a valid game leaves it valid. |
| Invariants.ReachableValid | lib/model.py:82-113 | Every game reachable from a new game is valid. |
| Invariants.FullBoardIsCube | lib/model.py:89-91 | A full board's squares are exactly those of `iter_xyz`. |
| Invariants.DoneMeansFull | lib/model.py:149-156 | When `move_count` is 27, every square has been taken. |
| Invariants.MoveSucceedsIffLegal | lib/model.py:220-224 | A move succeeds exactly on a blank square of the current level. |
| Invariants.LegalMovesCount | lib/model.py:149-224 | A valid game that is not done has `9 - move_count % 9` legal moves, which is at least one. A done game has none. |
| Invariants.DoneRefusesMoves | lib/model.py:220-224 | Once the game is done, every move is refused. |
| Invariants.ScanExact | lib/model.py:245-271 | With nothing filled above the move, the scan highlights exactly the squares of the owned paths through the move. |
| Invariants.MoveBoard | lib/model.py:222-229 | A successful move took a blank square on the board. Its board is the pre-move board with that square claimed. |
| Invariants.MovePoints | lib/model.py:245-273 | On a valid game, a move earns 1 point per winning path through it that the mover now owns, plus 1 per such path whose squares are all special. |
| Invariants.FullLevelsHaveFourSpecials | lib/model.py:180-187 | A filled level holds exactly four special squares. |
| Invariants.MoveHighlights | lib/model.py:245-277 | On a valid game, a move highlights exactly the squares of the winning paths through it that the mover now owns. None of those paths was complete before the move. |
| Invariants.MoveCompletesExactly | lib/model.py:256-258 | On a valid game, a winning path that the mover owns after the move but did not own before is exactly one that runs through the move and that the mover now owns. So skipping the paths that miss the move loses no completed path. |

Some functions that model source members have no row of their own. Each is covered by the rows of the lemmas about it:
- `Engine.CurrentMoveSpecial` (lib/model.py:180-187): `Invariants.SpecialBelowStep`, `Invariants.StepKeepsSpecials` and `Invariants.FullLevelsHaveFourSpecials`.
- `Geometry.Invert` (lib/model.py:414-416): `Geometry.InvertInvolution`.
- `Paths.WinningPaths` (lib/model.py:279-317): the `Paths.*` rows.
- `Squares.ResetSquare` (lib/model.py:346-349): `Engine.Reset`, which resets every square.

## Left out

- `TextGame` and `main` (the console loop, prompting and printing) are I/O around the engine.
- `Game.__repr__` (the text rendering of the whole board, with `%02d` scores) is presentation only.
- The random choice of the first player in `reset` is left out: the first player is a parameter.
- The pydispatch signals become the `Event` sequence each command returns. Delivery to listeners is not modelled.
- The lazy, class-wide caching of the winning-path table is left out: the table is a constant function.
- `Square.xyz` is left out: a square's position is its key in the board map.
- The `STATUS_*` format strings and their `%` rendering into text are not modelled. That rendering happens in the views. A status message is kept as its kind plus its format's arguments (`Status`).
- `reset` sends SCORE CHANGED with no highlighted squares. The view's receiver then uses its default, an empty list, so the model sends `ScoreChanged([])`.
- The views, the scheduler and the data-file lookup (`view.py`, `scheduler.py`, `data.py`) are not part of this model.
- `KeyError` and `ValueError` are not distinguished beyond the three `MoveError` values. The exception objects and their messages are not modelled.
