# Tic-tac-toe game engine

A Dafny model of the game logic of a single-screen tic-tac-toe web app
(`tic_tac_toe_frontend/src/App.js`). Two players alternate marking a 3×3
board; the engine decides whether a player has won, the round is drawn or
the round goes on, and keeps a running score across rounds.

The model has two modules:

- `TicTacToe` (`tictactoe.dfy`) is the pure board analysis. It holds the
  board (`Board`, three rows of three `Mark = Empty | X | O`) and
  `CreateEmptyBoard`. `CheckGameStatus` maps a board to `Win(p)`, `Draw` or
  `Pending`, which stand for the source's `'X'`/`'O'`, `'draw'` and
  `null`. `GetWinningCells` maps a board to the coordinates of the
  winning line, or `[]`. Both functions test the lines in the source's own
  order. The loop tests row i and then column i for i = 0, 1, 2, and the
  main diagonal and the anti-diagonal come after it. Each loop is written
  as a recursive function over the loop index (`ScanStatus`, `ScanCells`).
  Both are proved equal to one reference definition: `FirstComplete`, the
  first complete line of the list `ScanOrder`.
- `App` (`app.dfy`) is the state of the screen. It is the class `Game`
  with the fields `board`, `currentPlayer`, `winner`, `draw`, `score` and
  `gameActive`, and the methods `HandleCellClick`, `StartNewGame` and
  `ResetScore`. The source records a finished round in an effect that
  runs after every change of the board. Here that is the method
  `BoardChanged`, run synchronously at the end of every operation that
  replaces the board. `Game.Valid()` is the invariant that the
  constructor establishes and `HandleCellClick`, `StartNewGame` and
  `ResetScore` keep (`BoardChanged` is the step inside them that restores
  it after the board has changed). The status fields always record
  `CheckGameStatus(board)`. The marks alternate X first: there are as many X as O when X is to move,
  and one X more when O is to move.

Two details of the code shape the contracts:

- The turn passes to the other player on every accepted move, including
  the move that wins or draws the round (App.js line 59). So after X
  wins, `currentPlayer` is O until a new game starts.
- The loop tests row i, then column i, for i = 0, 1, 2, and then the two
  diagonals (row 0, column 0, row 1, column 1, ...). This order decides
  which line is highlighted when one move completes two lines.
  `ColumnZeroBeforeRowOne` shows such a board.

## Model

| member | source | states |
|---|---|---|
| `TicTacToe.CreateEmptyBoard` | tic_tac_toe_frontend/src/App.js:14-16 | The new board has exactly 3 rows of 3 cells, and every cell is empty. |
| `TicTacToe.Other` | tic_tac_toe_frontend/src/App.js:59 | The turn always passes to the other player. |
| `TicTacToe.Place` | tic_tac_toe_frontend/src/App.js:55-57 | The updated board holds the given mark at (row, col), and every other cell keeps its old content. |
| `TicTacToe.ScanStatus` | tic_tac_toe_frontend/src/App.js:168-173 | The win checks of `checkGameStatus` written branch for branch from loop index i; any mark it returns is X or O. `ScanFindsFirstLine` proves it returns the mark of the first complete line of `FirstComplete`. |
| `TicTacToe.ScanCells` | tic_tac_toe_frontend/src/App.js:185-194 | The same scan in `getWinningCells`, returning coordinates; any non-empty result is a complete line (three on-board cells with the same non-empty mark). `ScanFindsFirstLine` proves it returns the first complete line of `FirstComplete`. |
| `TicTacToe.FirstComplete` | tic_tac_toe_frontend/src/App.js:168-173 | Returns no index exactly when no line of the list is complete. Otherwise it returns the index of a complete line, and every line before it is incomplete. This is the "first match wins" rule of the source's early returns. |
| `TicTacToe.ScanFindsFirstLine` | tic_tac_toe_frontend/src/App.js:168-194 | From any loop index i, the status scan returns the mark of the first complete line among the lines still to be tested, and the cells scan returns that same line. When no such line is complete, they return `null` and `[]`. |
| `TicTacToe.ScanStep` | tic_tac_toe_frontend/src/App.js:168-171 | One loop iteration tests row i, then column i, then hands over to iteration i + 1, matching scan-order entries 2i and 2i+1. |
| `TicTacToe.ScanDiagonals` | tic_tac_toe_frontend/src/App.js:172-173 | After the loop, the code tests the main diagonal and then the anti-diagonal, the last two lines of the scan order. |
| `TicTacToe.CheckGameStatus` | tic_tac_toe_frontend/src/App.js:166-178 | The result is a win for the mark on the first complete line in scan order. With no complete line it is a draw when the board is full, and `Pending` (`null`) otherwise. |
| `TicTacToe.StatusClassifies` | tic_tac_toe_frontend/src/App.js:166-178 | A winner is reported exactly when some row, column or diagonal holds three equal non-empty marks, and the winner's mark fills such a line. A draw is reported exactly when no line is complete and every cell is filled. `Pending` is reported exactly when no line is complete and some cell is empty. |
| `TicTacToe.WinTakesPrecedence` | tic_tac_toe_frontend/src/App.js:168-176 | A full board that also has a complete line is a win, never a draw. |
| `TicTacToe.GetWinningCells` | tic_tac_toe_frontend/src/App.js:183-196 | Returns the coordinates of the first complete line in scan order, or `[]` when no line is complete. |
| `TicTacToe.StatusAgreesWithCells` | tic_tac_toe_frontend/src/App.js:166-196 | There are winning cells exactly when the status is a win. Then they are exactly three on-board coordinates. All three hold the winner's mark. They form one of the eight lines, and every line earlier in the scan order is incomplete, so both functions pick the same first line. |
| `TicTacToe.EmptyBoardIsPending` | tic_tac_toe_frontend/src/App.js:14-16 | The empty board has no result, no winning cells, and no X or O marks. |
| `TicTacToe.PlaceCounts` | tic_tac_toe_frontend/src/App.js:55-57 | Playing on an empty cell adds exactly one mark of the mover and leaves the other player's count unchanged. |
| `TicTacToe.WinnerIsMover` | tic_tac_toe_frontend/src/App.js:39-41 | On a board with no complete line, a move can only produce a win for the player who made it. |
| `TicTacToe.RowWinExample` | tic_tac_toe_frontend/src/App.js:168-169 | X on the whole top row (O at centre and bottom-right) is a win for X, and the highlighted cells are row 0. |
| `TicTacToe.RowWinLastMove` | tic_tac_toe_frontend/src/App.js:55-57 | The position before X's winning move in that round is undecided, and X playing (0, 2) on it gives the winning board. |
| `TicTacToe.DrawExample` | tic_tac_toe_frontend/src/App.js:175-176 | The full board X O X / X O O / O X X has no complete line and is a draw with no highlighted cells. |
| `TicTacToe.ColumnZeroBeforeRowOne` | tic_tac_toe_frontend/src/App.js:168-171 | When column 0 and row 1 are both complete, column 0 is reported, because the loop tests it in the first iteration. |
| `App.Score.Bump` | tic_tac_toe_frontend/src/App.js:43 | A win adds exactly one point to the winner and leaves the other player's score as it was. |
| `App.Game.constructor` | tic_tac_toe_frontend/src/App.js:23-28 | The initial state is an empty board, X to move, no winner, no draw, score 0–0, round active, and the invariant holds. |
| `App.Game.BoardChanged` | tic_tac_toe_frontend/src/App.js:38-48 | A winning board records the winner, ends the round and adds one point for the winner. A drawn board sets the draw flag and ends the round with the score unchanged. An undecided board changes nothing. The board and the turn are never touched. |
| `App.Game.HandleCellClick` | tic_tac_toe_frontend/src/App.js:51-60 | A click while the round is inactive, won or drawn, or on a filled cell, changes nothing. An accepted click sets exactly that cell to the current player and passes the turn. A win is then recorded for the mover with exactly one point more for them. A draw ends the round with the score unchanged. Filled cells never change. The invariant (status fields match the board, alternating mark counts) is kept. |
| `App.Game.StartNewGame` | tic_tac_toe_frontend/src/App.js:63-69 | Restores the empty board, X to move, no winner, no draw and an active round. The score is left as it was. |
| `App.Game.ResetScore` | tic_tac_toe_frontend/src/App.js:72-75 | Sets both scores to 0 and then does the same reset as a new game. |
| `App.TopRowWinRound` | tic_tac_toe_frontend/src/App.js:38-60 | On a valid game with X to move and X holding two top-row cells, clicking (0, 2) makes X the winner, ends the round, gives X exactly one more point, passes the turn to O and highlights row 0. |

## Left out

- Rendering: the JSX markup, the `Board` component and its `isWinning` highlight (lines 77-159) are presentation only. The model gives the view what it reads: `board`, `GetWinningCells(board)` and the state fields.
- The colour palette, the body-background effect and the footer year (lines 5-9, 31-33, 126) are styling and calls into the browser and the clock.
- React's scheduling: setter batching, effect timing and a development-mode double run of the effect. The effect at lines 38-48 is modelled as one synchronous step (`BoardChanged`) that runs after each board change: in the constructor, after an accepted click, and after a new game.
- The `disabled` attributes on the buttons and cells (lines 90, 148) are UI guards that repeat the engine's own checks at lines 52-53; the model keeps the engine's checks.
- Out-of-range coordinates: `HandleCellClick` requires `row < 3 && col < 3`. The source does no range check. An out-of-range row would throw at line 53. An out-of-range column would pass the guard, copy the board unchanged and still pass the turn. The view only ever passes indices 0-2.
