# Tic-tac-toe game core in Dafny

This project models the rules of a browser tic-tac-toe game, from its script
`script.js`. Two parts are modelled:

- The **Gameboard** (`gameboard.dfy`, module `Gameboard`) holds nine cells in
  row-major order. Each cell is empty or holds `X` or `O`.
  - `setMark` writes a mark into an empty cell and reports whether it did.
  - `reset` replaces the board with an empty one.
  - `checkWin` tries the three rows, three columns and two diagonals in a fixed
    order. It returns the mark of the first line whose cells all hold one mark.
  - `checkTie` holds when every cell is taken and nobody has a line.
- The **GameController** (`gamecontroller.dfy`, module `GameController`) holds
  two players, the current-player pointer and the game-over flag.
  - `start` gives player 1 mark `X` and player 2 mark `O`, lets player 1 move
    first, clears the flag and resets the board.
  - `playTurn` does nothing once the game is over. Otherwise it places the
    current player's mark. After a successful placement it ends the game on a
    win or a tie, and passes the turn otherwise.

The board is a class `Board` whose `cells: seq<Cell>` field is reassigned by
`SetMark` and `Reset`. The two queries are pure functions over a cell
sequence: `CheckWin` (a recursive `Scan` of the line list, stopping at the
first match, like the source's loop) and `CheckTie`. The controller is a
class `Controller` with fields `player1`, `player2` (absent until the first
start), `currentIsP1` and `gameOver`. It also has a ghost counter of
successful placements. Its object invariant `Valid` includes
`PlayInvariant`, which states what holds on every board reached by play:

- X is never behind O and at most one mark ahead.
- While the game runs, the current player is the one due to move, and nobody
  holds a line.
- Once the game is over, the current player made the last move. Either that
  player alone holds a line, or the board is full with no line.

The `Player` factory is the datatype `Player(name, mark)`.
`ColumnWinScenario` is a client of the controller. It plays moves 0, 1, 3,
4, 6 and shows that X wins down the left column, that X stays current, and
that a further move changes nothing. Its helpers `OpeningMoves` and
`TwoEarlyMoves` show that the first four moves keep the game running and
hand the turn back and forth.

Two behaviours of the script are worth spelling out:

- **Index off the board.** `setMark` has no bounds check. It reads the
  missing cell as `undefined`, which is not the empty string, so it returns
  false and changes nothing (`script.js:10,14`). `SetMark` does the same.
- **Winner on an arbitrary board.** Both marks can hold lines on an arbitrary
  board, and `checkWin` then returns the mark of the first such line in scan
  order. So `CheckWin` promises in general that:
  - a returned mark holds a line, and it is the mark of the first uniform
    line in scan order;
  - it returns nothing exactly when neither mark holds one.

  The exact statement, "returns m iff m holds a line", is proved for boards
  reached by play (`WinnerOfPlayedBoard`).

## Model

| member | source | states |
|---|---|---|
| Gameboard.Scan | script.js:22-32 | the scan of the line list returns the mark of the first line whose three cells hold one mark (every earlier line is uniform in neither mark), and returns nothing exactly when neither mark fills a line of the list |
| Gameboard.CheckWin | script.js:16-33 | checkWin over the 3 rows, 3 columns and 2 diagonals returns a mark only if it fills one of those lines (the first such line in the order rows, columns, diagonals), and null exactly when neither X nor O fills one |
| Gameboard.CheckTie | script.js:34-36 | checkTie holds iff every cell is non-empty and no mark fills a line; so a tie is never reported together with a winner |
| Gameboard.Board.constructor | script.js:3 | the board starts as nine empty cells |
| Gameboard.Board.GetBoard | script.js:5 | getBoard yields the nine cells |
| Gameboard.Board.Reset | script.js:6-8 | reset leaves nine empty cells |
| Gameboard.Board.SetMark | script.js:9-15 | setMark succeeds iff the index is in 0..8 and that cell is empty; on success only that cell changes, to the mark; on failure (occupied cell or index off the board) nothing changes; a taken cell is never overwritten |
| GameController.StartInvariant | script.js:49-54 | the state after start (empty board, player 1 to move, not over) satisfies the play invariant, with no X and no O placed |
| GameController.PlaceKeepsInvariant | script.js:64-75 | a successful placement by the current player of a running game keeps the play invariant when the flag becomes "win or tie" and the turn passes only otherwise; a winner after the move is the mover; exactly one more cell is taken |
| GameController.WinnerOfPlayedBoard | script.js:64-70 | on a board reached by play, checkWin returns m iff m fills a line; a winner exists only when the game is over, and it is the current player's mark |
| GameController.TieAfterNineMoves | script.js:71-74 | a tie on a board reached by play means the game is over after five X moves and four O moves, with player 1 (the last mover) current |
| GameController.NoLineBeforeThreeMarks | script.js:22-30 | a mark placed fewer than three times fills no line, so no game is won before its fifth move |
| GameController.DrawnBoard | script.js:34-36 | the full board X O X / X O O / O X X is a tie with no winner |
| GameController.Controller.constructor | script.js:47 | before any start there are no players and the game is not over |
| GameController.Controller.Start | script.js:49-57 | start sets player 1 to (name1, X) and player 2 to (name2, O), makes player 1 current, clears the game-over flag and empties the board, and the play invariant holds |
| GameController.Controller.PlayTurn | script.js:59-79 | when over, nothing changes and the flag stays set; on a refused cell nothing changes; otherwise the current player's mark is written at the index, the flag is set iff the board now shows a win or a tie, the current player stays on a game-ending move and swaps otherwise, and the count of marks equals the number of successful moves since start |
| GameController.Controller.GetCurrentPlayer | script.js:81 | absent before start; afterwards player 1 or player 2, carrying the mark due to move while the game runs, and the winner's mark once someone has won |
| GameController.Controller.IsGameOver | script.js:82 | the flag is never set before start, and after start it is set iff the board shows a winner or a tie |

## Left out

- The display controller (`script.js:87-187`) is left out. It covers rendering the grid, the turn and result texts, click handling, and enabling the name inputs. It is DOM work with no rules of its own. Its own guard against clicks on taken cells or after the end repeats checks that `PlayTurn` already makes.
- The victor's name shown to the user, and the "Player 1"/"Player 2" fallbacks for empty name inputs, are left out. Both are applied in the display code. JavaScript default parameters apply only to missing arguments, so `Start` takes the two names as given.
- Calling `playTurn` before the first `start` fails in the source, because it reads the mark of an undefined `currentPlayer`. `PlayTurn` therefore requires `Started()`. Before the first `start`, `getCurrentPlayer` returns `undefined`, which `GetCurrentPlayer` models as `None`.
- Gameboard.Board.SetMark: indices are integers. JavaScript would also accept a numeric string such as `"3"` as an index; such values are not modelled.
- Gameboard.Board.GetBoard: the source returns the live array, which later writes change. The model returns the cell sequence at the time of the call.
- Before the first `start`, `isGameOver` returns `undefined` in the source. The model returns `false`, which `undefined` stands for in every test the script makes.
- The two module singletons are modelled as one `Board` object and one `Controller` object that holds a reference to it. Nothing else is assumed to write to that board while a game runs.
- The commented-out console logging is not modelled.
- The full drawn game of nine moves through `PlayTurn` is not played out. The drawn final board is checked as a value (`DrawnBoard`), and `TieAfterNineMoves` covers ties on every board reached by play.
