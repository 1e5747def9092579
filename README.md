# Tic-tac-toe controller, modelled in Dafny

This project models the game logic of `script.js`, a browser tic-tac-toe
game on a 3x3 board. Two people play against each other (mode `'player'`), or
one person plays X against a computer that plays O (mode `'ai'`).

- `rules.dfy`, module `Rules`. The pure part: cells (`''`, `'X'`, `'O'`), the
  nine-cell board, the eight winning lines in the source's order (rows,
  columns, diagonals), `checkWinner`, the line search done by
  `highlightWinningCells`, and the list of empty cells built by `makeAIMove`.
  Lemmas state what each of these computes.
- `controller.dfy`, module `Controller`. The class `Game`. Its fields are the
  four closure variables `currentPlayer`, `gameBoard`, `gameActive` and
  `gameMode`. Its methods are `initGame`, the mode-button handler,
  `makeMove`, `handleCellClick` and `makeAIMove`. The object invariant
  `Valid()` says that an active game has no result yet. So an active game
  always has an empty cell, and `Rules.OngoingHasEmptyCell` proves this.
- `scenarios.dfy`, module `Scenarios`. Two fixed boards and two games played
  only through the methods' contracts. `PlayAgainstComputer` plays X@0, O@4,
  X@1, O@5, X@2. After it, X has won on the top row and the game refuses
  every move until a restart. `PlayTwoPlayers` plays a two-player game.

The model follows the code as written:

- In two-player mode the turn never goes back to X. Line 58 of script.js
  assigns `'O'` in both branches of its conditional, so after the first move
  every later mark is an O. Only the computer's move (line 138) sets the turn
  back to X. `HandleCellClick` states this, and `PlayTwoPlayers` shows it.
- The computer does not take the "first available cell" that the comment on
  line 112 promises. It takes the entry `emptyCells[k]`, where `k` stands
  for the random value.
- The computer writes whatever `currentPlayer` holds and does not check whose
  turn it is. It checks only `gameActive`.
- A clicked index outside 0..8 reads as `undefined`, which is not `''`. So
  such a click is refused in the same way as a click on a taken cell.

The nine-move sequence X@0, O@1, X@2, O@3, X@4, O@6, X@5, O@7, X@8 is a win for
X, not a draw. Its last move completes the right-hand column 2-5-8, and
`checkWinner` finds that column before the 0-4-8 diagonal.
`Scenarios.FullBoardWithLineIsWin` states this for the final board.

## Model

| member | source | states |
|---|---|---|
| `Rules.FirstCompletedIsFirst` | script.js:76-83 | the early-return loop over `winCombinations`, started at any line, stops at the first line whose first cell is non-empty and equal to the other two; if it finds none, no later line is complete |
| `Rules.WinningLineIsFirst` | script.js:14-18 | the line `checkWinner` stops at exists exactly when some line is complete, and it is the first complete one in the order rows, columns, diagonals |
| `Rules.CheckWinnerOutcome` | script.js:74-91 | `checkWinner` returns the mark of the first complete line; with no complete line it returns 'draw' exactly when no cell is `''`, and null exactly when some cell is `''`; so a full board that completes a line is a win |
| `Rules.FirstFilledByIsFirst` | script.js:95-105 | the loop of `highlightWinningCells`, started at any line, stops at the first line whose three cells all equal `winner` (the `break`), or finds none |
| `Rules.HighlightIsFirst` | script.js:94-106 | the highlighted line exists exactly when some line is all `winner`, and it is the first such line |
| `Rules.HighlightFromAgrees` | script.js:95-103 | from any starting line, when the first complete line holds `winner`, the highlight search stops at that same line |
| `Rules.HighlightMatchesWinner` | script.js:51 | when `checkWinner` reports a winner, `highlightWinningCells(winner)` marks exactly the line `checkWinner` matched |
| `Rules.EmptyIndicesBelowExact` | script.js:114-116 | after the `forEach` has visited the first `n` cells, `emptyCells` holds, strictly ascending, exactly the empty positions below `n` |
| `Rules.EmptyIndicesExact` | script.js:113-116 | the finished `emptyCells` holds exactly the empty positions of the board, strictly ascending |
| `Rules.OngoingHasEmptyCell` | script.js:86-90 | a board for which `checkWinner` returns null has at least one empty cell, so `emptyCells` is non-empty |
| `Rules.EmptyBoardIsOngoing` | script.js:22 | the board `initGame` installs has no winner and is not a draw |
| `Rules.LoneLineIsReported` | script.js:14-18 | for each of the eight lines and each mark, a board with only that line filled is a win for that mark on that line and on no other |
| `Controller.CollectEmptyCells` | script.js:113-116 | the `forEach` with `push` returns the list of empty indices (by the lemmas above, exactly the empty positions, ascending) |
| `Controller.Game.constructor` | script.js:8-11 | the page starts with an empty board, X to move, the game active and mode `'player'`; the invariant holds |
| `Controller.Game.InitGame` | script.js:21-24 | from any prior state: all nine cells `''`, `gameActive` true, `currentPlayer` X; the mode is kept |
| `Controller.Game.SelectMode` | script.js:154-155 | the new mode is recorded and the game is reset as by `initGame` |
| `Controller.Game.MakeMove` | script.js:68-69 | exactly cell `index` receives the current player's mark; all other state is unchanged |
| `Controller.Game.HandleCellClick` | script.js:34-65 | a click is accepted exactly when the game is active, the index is 0..8 and that cell is `''`; a refused click changes nothing; an accepted one writes only that cell with the current mark; a result ends the game with the mover still current and the matched line highlighted; otherwise `currentPlayer` becomes O whoever moved, and the computer's move is scheduled exactly in mode `'ai'`; the invariant is kept |
| `Controller.Game.MakeAIMove` | script.js:109-141 | when inactive, nothing changes; otherwise the cell chosen is `emptyCells[k]`, which was empty, and only it is written with the current mark; a result ends the game with the mover still current and the matched line highlighted; otherwise X is to move; the invariant is kept |
| `Scenarios.FullBoardWithLineIsWin` | script.js:76-88 | the full board X O X / O X X / O O X is a win for X on the column 2-5-8, not a draw |
| `Scenarios.FullBoardWithoutLineIsDraw` | script.js:85-88 | the full board X O X / X O O / O X X completes no line and is a draw |

## Left out

- DOM output: the status text, `cell.textContent` and the `winner` class (script.js:25-30, 48-50, 59, 70, 100-102, 121, 129-131, 139). These only update the page. The line that would be highlighted is returned as the result `highlighted`.
- Event wiring: the listener registrations and the `active` class on the mode buttons (script.js:144-153). The `data-mode` value becomes the `string` argument of `SelectMode`. The `data-index` value becomes the `int` argument of `HandleCellClick`, so `parseInt` (script.js:36) is not modelled. A `NaN` from `parseInt` reads as `undefined`, like any index outside 0..8.
- Timer: `setTimeout(makeAIMove, 500)` (script.js:63) is the result `aiScheduled`. The event loop's interleavings are not modelled. `MakeAIMove` can be called in any state that satisfies the invariant, for example after a reset; in that case it places whatever mark is current.
- Randomness: `Math.floor(Math.random() * emptyCells.length)` (script.js:119) is the parameter `k`. When the game is active, `k` must be below the number of empty cells, which is the range that expression takes.
- Controller.Game.MakeMove: requires an index in 0..8. The JavaScript would grow the array for any other index, but neither caller passes one.
- The page markup (the cell elements and the mode buttons' `data-mode` values) is not part of this model.
