# Connect Four game engine in Dafny

A model of the game-state logic of a browser Connect Four game
(`connectFour.js`): a 6-row by 7-column board, two players numbered 1
and 2 who take turns dropping pieces into columns, a scan for four in a
row, and a full-board test for a tie. The drawing, animation and dialog
code of the page is not part of the model.

The project has three modules.

- `Rules` (`rules.dfy`) describes the game on values. A board is a
  `Grid`, a sequence of rows of `Cell`s, where a cell is either the
  string `"null"` that a new board is filled with (`NullString`) or the
  number of a player (`Mark(n)`). As in the code, a cell counts as taken
  only when it holds exactly 1 or 2. `DropRow` is the landing row of a
  column. `Run` and `Win` are the cell lists and the "all mine" test of
  the win scan. `HasWin` says that some origin and forward direction give
  four of a player's pieces. `IsFull` is the tie test. `Step` is one
  click on a column, and `Play` is a sequence of clicks. `Count` and
  `Balanced` relate the two players' piece counts to whose turn it is.
- `Properties` (`properties.dfy`) proves what these definitions promise.
  Pieces stay stacked from the bottom of each column. The forward scan
  finds every line of four in all eight directions. Only the mover can
  win. Nothing stops play after a win, so the next click in an open
  column is reported as the same win. After a tie every click is
  ignored. Piece counts stay matched to the turn while no click wins or
  ties.
- `Game` (`game.dfy`) is the imperative side. It has `MakeBoard`, with
  the nested loops of `makeBoard` filling a two-dimensional array, and
  the class `ConnectFour`, which holds the `board` array and
  `currPlayer`. `FindSpotForCol` and `CheckForWin` are loops, proved
  against `DropRow` and `HasWin`. `Move` is the board-and-turn part of
  the click handler, and `StartNewGame` rebuilds the board. A ghost
  field `cells` mirrors the array as a `Grid`; `Valid()` ties it to the
  array and keeps the player number at 1 or 2 and the columns stacked.

The model keeps these quirks of the code:

- The code has no game status. Clicks after a win or a tie still reach
  the board. After a win the winner keeps the turn, and the next click
  in an open column is reported as the same win (`WinIsSticky`).
- A column index outside the board is never checked by the code, so
  `0 <= x < WIDTH` is a precondition. There is no `InvalidColumn` error.
- Restarting rebuilds only the board, and the player to move stays as
  it was. So a new game can start with player 2 to move (`ResetBalance`).
- The counts match whose turn it is only while no click has won or
  tied (`PlayKeepsBalance`). The click that ends a game keeps player 1
  at as many pieces as player 2 or one more (`GameEndKeepsDifference`),
  but the turn no longer matches the counts (`GameEndBreaksBalance`).
  From a balanced state, a further click in an open column after a win
  gives the winner two pieces in a row, and the difference leaves 0 or 1
  (`WinnerMovesTwice`).
- A click that finds no win and no full board passes the turn. It
  returns nothing, so `Continue` carries no player; the next player is
  the new `currPlayer`.

## Model

| member | source | states |
|---|---|---|
| Game.MakeBoard | connectFour.js:20-30 | a fresh h-by-w array in which every cell holds the empty "null" string, equal cell by cell to `EmptyGrid(h, w)` |
| Game.ConnectFour.constructor | connectFour.js:13-14 | the loaded game has an empty 6x7 board and player 1 to move, and satisfies the invariant |
| Game.ConnectFour.FindSpotForCol | connectFour.js:66-74 | the bottom-up scan of column x returns exactly `DropRow(cells, x)` and changes nothing |
| Game.ConnectFour.AllCurrent | connectFour.js:159-172 | the closure's "every cell on the board and equal to currPlayer" test agrees with `Win` on the mirrored grid |
| Game.ConnectFour.WinsFrom | connectFour.js:179-184 | if one of the four runs from an on-board origin is all the mover's, the mover has a win; if none is, no run from that origin in any scan direction is |
| Game.ConnectFour.CheckForWin | connectFour.js:158-189 | the nested scan returns true exactly when `HasWin(cells, currPlayer)`; falling off the end is false |
| Game.ConnectFour.IsBoardFull | connectFour.js:192-198 | true exactly when every cell of the mirrored grid holds 1 or 2 |
| Game.ConnectFour.StartNewGame | connectFour.js:109-113 | the board is replaced by a fresh empty one and `currPlayer` is left unchanged |
| Game.ConnectFour.Move | connectFour.js:132-152 | the new board, the new `currPlayer` and the outcome are exactly `Step` of the old board and player, and the invariant (sizes, player 1 or 2, stacked columns) is kept |
| Rules.EmptyGrid | connectFour.js:20-30 | h rows of w cells each, and no cell is taken |
| Rules.Occupied | connectFour.js:69 | the definition of a taken cell: it holds the number 1 or 2; the "null" string and any other number count as empty |
| Rules.Other | connectFour.js:152 | the player switch turns 1 or 2 into the other of the two |
| Rules.IsFull | connectFour.js:192-198 | every cell of every row is 1 or 2; on a board of the game's size, exactly when every column is full |
| Rules.Win | connectFour.js:164-171 | the definition of `_win` on a grid: every listed cell is on the board and holds p's piece |
| Properties.RunHasOneOwner | connectFour.js:164-171 | a non-empty run that is all p's and all q's has p equal to q, so a run belongs to one player only |
| Rules.HasWin | connectFour.js:176-188 | a player with no piece on the board has no four in a row |
| Rules.Place | connectFour.js:139 | the written cell holds the new value and every other cell is unchanged |
| Rules.LowestEmpty | connectFour.js:68-73 | None exactly when all scanned rows are taken; otherwise an empty row with every scanned row below it taken |
| Rules.DropRow | connectFour.js:64-74 | None exactly when the column is full; otherwise the empty row with the largest number, all rows below it taken |
| Rules.Run | connectFour.js:179-182 | the four listed cells start at the origin and step by the direction's unit vector |
| Rules.Step | connectFour.js:132-152 | a click in a full column is ignored and changes nothing; otherwise exactly the landing cell gets the mover's piece; a win is the mover's and only the mover's; a tie is a full board with no win; the turn passes only on `Continue`, and the player stays 1 or 2 |
| Properties.EmptyColumnLandsAtBottom | connectFour.js:66-74 | on a new board every column's landing row is the bottom row, `HEIGHT - 1` |
| Properties.DropRowIsTopOfStack | connectFour.js:66-74 | on a stacked board the landing row and every row above it are empty |
| Properties.EmptyGridSettled | connectFour.js:20-30 | a new board is stacked |
| Properties.PlaceKeepsSettled | connectFour.js:132-139 | a piece written into the landing row keeps every column stacked |
| Properties.StepKeepsSettled | connectFour.js:132-152 | a click keeps every column stacked |
| Properties.PlayKeepsSettled | connectFour.js:126-154 | after any clicks from a stacked board the board is stacked and the player to move is 1 or 2 |
| Properties.FullMeansNoColumnOpen | connectFour.js:192-198 | the board is full exactly when no column has a landing row |
| Properties.RunIsLine | connectFour.js:176-188 | a run the scan finds is a line of four |
| Properties.ForwardLineIsFound | connectFour.js:176-188 | a line of four going right or down is found from its first cell |
| Properties.BackwardLineIsFound | connectFour.js:176-188 | a line of four going left or up is found from its last cell |
| Properties.LineIsFound | connectFour.js:176-188 | a line of four in any of the eight directions is found, from one end or the other |
| Properties.ScanFindsEveryLine | connectFour.js:176-188 | the forward scan reports a win exactly when there is a line of four in any direction |
| Properties.OnlyOwnPiecesCount | connectFour.js:164-171 | whether a player has won depends only on the cells holding that player's pieces |
| Properties.PlaceCannotWinForOpponent | connectFour.js:139-144 | a piece of one player never creates a win for another player |
| Properties.PlaceKeepsWin | connectFour.js:139 | filling an empty cell never removes an existing win |
| Properties.PlaceKeepsRun | connectFour.js:139 | filling an empty cell keeps every run of a player's pieces |
| Properties.RunRoundTrip | connectFour.js:158-189 | a new board holding only one run of four of p's pieces is a win for p and for no other player |
| Properties.WinIsSticky | connectFour.js:142-144 | after a winning click the winner keeps the turn and the next click in an open column is reported as the same win |
| Properties.TieIsFinal | connectFour.js:147-149 | after a tie every click is ignored and changes nothing |
| Properties.ResetBalance | connectFour.js:109-113 | a new board is balanced exactly when player 1 is to move |
| Properties.StepCounts | connectFour.js:139 | a click in an open column adds one piece of the mover and none of the other player |
| Properties.StepKeepsBalance | connectFour.js:132-152 | a click that neither wins nor ties keeps the piece counts in step with whose turn it is |
| Properties.GameEndKeepsDifference | connectFour.js:142-149 | from a balanced state, the click that wins or ties leaves player 1 with as many pieces as player 2 or one more |
| Properties.WinnerMovesTwice | connectFour.js:142-144 | from a balanced state, after a win, a click in an open column adds a second piece of the winner, none of the other player, and the difference leaves 0 or 1 |
| Properties.GameEndBreaksBalance | connectFour.js:142-149 | a click that wins or ties does not pass the turn, so the counts fall out of step |
| Properties.PlayKeepsBalance | connectFour.js:126-154 | along clicks none of which wins or ties, player 1 has as many pieces as player 2 or one more, matching the turn |

## Left out

- Drawing the board and pieces (`makeHtmlBoard`, `placeInTable`, `setColor`, the `innerHTML` reset) has no game logic; it is not modelled.
- The drop animation and its pixel arithmetic (`getPosition`, `animate`, bounding rectangles) is layout code over the browser API; it is not modelled.
- `endGame` shows its message after a timer and asks to play again; the model reports the end of a game only as the `Won` or `Tie` outcome of `Move`, and `StartNewGame` stands for the restart.
- Reading the column number from the clicked element's id is event plumbing; `Move` takes the column as an integer.
- Game.ConnectFour.Move: requires `0 <= x < WIDTH`, because the code never checks the column. Out of range, `findSpotForCol` would report the bottom row as free. `handleClick` would then throw in `placeInTable`, which finds no table cell for that column, before it writes the board. The model does not include that page failure, so it requires the column to be in range.
- Game.MakeBoard: the JavaScript board is an array of separate row arrays; the model uses one two-dimensional array, so the rows cannot alias. Nothing in the code shares rows.
- A cell can hold only the string "null" or a number in the model; other JavaScript values are not represented. Numbers other than 1 and 2 count as empty, as in the code.
- A concrete game played to a full 42-cell tie is not modelled; the tie rule is covered by `Step`, `FullMeansNoColumnOpen` and `TieIsFinal`.
