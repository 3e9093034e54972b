# Tic-tac-toe component: game state and handlers

This project models the game logic of the single React component of the
tic-tac-toe web app (`src/App.jsx`), and proves properties of it in Dafny.

The component holds a 3x3 board of nine cells, whose turn it is, a winner, a
registered flag and the two player names. Four handlers change that state:

- registration, which needs both names;
- a click on a cell, which places the current player's mark when the cell is
  empty and no winner is set, checks for a winner and passes the turn;
- the winner check, which scans the eight winning triples in a fixed order;
- reset, which empties the board, gives the turn to X and clears the winner.

`board.dfy` (module `Board`) holds the values: marks, cells (a mark and its
picture), the empty starting board, the table of eight winning triples, the
geometric description of rows, columns and diagonals, and the counting facts
behind the turn invariant. `app.dfy` (module `App`) holds the class `Game`,
one field per piece of component state and one method per handler, and the
function `WinnerAfter` that specifies the winner check.

Each handler is one atomic step. The winner check is given the new board
directly (`src/App.jsx:48`), so React's batching of state updates does not
change the result. The winner is kept as the component keeps it: `None` for
no winner, a player's name, or the label `"draw"`. JavaScript truthiness is
written out: a string is truthy when it is not empty (`Truthy`), and the
click guard `!winner` is `!Decided(winner)`.

The class invariant `Game.Valid` says:

- the board has nine cells;
- every cell shows the picture of its own mark, and an empty cell shows none;
- X has as many marks as O or one more, and X is to move exactly when the
  counts are equal (`Balanced`);
- the winner is never the empty string;
- a winner is only set once the board shows a triple or is full.

Every handler keeps it. An accepted click adds exactly one mark, so at most nine clicks
are accepted per game. On a full board X has five marks and O four. No
triple can appear before the fifth mark.

What the component does, and so what the model does:

- The component has no computer opponent: every move is a click.
- Reset always gives X the first move (`src/App.jsx:95`).
- Registration needs both names (`src/App.jsx:20`).
- A triple sets no winner unless both names are non-empty (`src/App.jsx:68`).

Because the winner is stored as a plain string, a player named `"draw"` who
wins leaves the same `winner` value as a drawn game. `WinnerAfterCases`
shows this: its first case gives `Some(player1Name)`, and its third gives
`Some("draw")`.

## Model

| member | source | states |
|---|---|---|
| `Board.Other` | src/App.jsx:49 | the turn always passes to the other mark |
| `Board.MarkCell` | src/App.jsx:44-45 | the cell written by a move holds the mover's mark and that mark's picture |
| `Board.Place` | src/App.jsx:43-45 | writing a move changes exactly cell `index`, to the mover's mark and picture; every other cell and the board size stay the same |
| `Board.WinningLinesInRange` | src/App.jsx:55-59 | the table has eight triples, each of three distinct valid cell indices |
| `Board.WinningLinesAreRowsColumnsDiagonals` | src/App.jsx:55-58 | a board has a triple of the table entirely in `m` iff `m` fills a row, a column or a diagonal of the 3x3 grid |
| `Board.CountEmpty` | src/App.jsx:7 | a board of empty cells holds no mark of either kind |
| `Board.CountPlace` | src/App.jsx:43-45 | placing `m` in an empty cell adds one `m` and leaves the other mark's count unchanged |
| `Board.CountClear` | src/App.jsx:61-67 | proof step for `LineNeedsThreeMarks`: emptying a cell that holds `m` removes exactly one `m` |
| `Board.LineNeedsThreeMarks` | src/App.jsx:61-67 | a matched triple of `m` means at least three marks of `m` on the board |
| `Board.FullIffAllMarked` | src/App.jsx:75 | every cell is marked iff the X and O counts add up to the board size; the two counts never exceed it |
| `Board.InitialBoardBalanced` | src/App.jsx:7 | the initial board has nine empty cells, is not full, holds no marks, and satisfies the turn invariant with X to move |
| `Board.PlacePreservesBalance` | src/App.jsx:42-49 | a move by the player whose turn it is onto an empty cell keeps the invariant (X count minus O count is 0 or 1, with X to move iff they are equal) with the turn passed, and adds one mark in total |
| `Board.NoLineBeforeFifthMark` | src/App.jsx:42-67 | on a balanced board a triple needs at least five marks in total, and an O triple at least six |
| `Board.FullBoardCounts` | src/App.jsx:42-75 | on a balanced full board X has five marks, O has four and it is O's turn |
| `App.WinnerAfterCases` | src/App.jsx:61-77 | a row, column or diagonal of the mover with both names set gives the mover's player's name (X gives player one, O gives player two), even on a full board; with a name missing it leaves the winner as it was; without a triple, nine marks give `"draw"` and fewer leave the winner as it was |
| `App.FullBoardSettles` | src/App.jsx:61-77 | with both names set, a check on a full board always decides the game, either for the mover's player or as a draw |
| `App.QuietMove` | src/App.jsx:42-77 | a move by a mark with at most one mark on the board, onto a board with at most seven marks, leaves an unset winner unset |
| `App.Game.constructor` | src/App.jsx:7-17 | the component starts unregistered, with empty names, the empty board, X to move and no winner, and satisfies the invariant |
| `App.Game.SetPlayer1Name` | src/App.jsx:111-112 | the first name field stores the typed text and changes nothing else |
| `App.Game.SetPlayer2Name` | src/App.jsx:121-122 | the second name field stores the typed text and changes nothing else |
| `App.Game.HandleRegistration` | src/App.jsx:19-25 | with both names non-empty the game becomes registered; otherwise nothing changes; board, turn, winner and names never change |
| `App.Game.HandleClick` | src/App.jsx:41-51 | a click on an empty cell with no winner places the mover's mark in that cell only, sets the winner as the winner check decides for the new board, flips the turn even on a winning or filling move, and adds exactly one mark; any other click changes nothing; names and registration never change; the invariant is kept |
| `App.Game.CheckWinner` | src/App.jsx:54-78 | scanning the eight triples in order with an early return sets `winner` exactly as `WinnerAfter` says, for the given board and mover |
| `App.Game.ResetGame` | src/App.jsx:93-97 | reset restores the nine empty cells, gives the turn to X and clears the winner; names and registration stay; the invariant is kept |
| `App.PlayOpening` | src/App.jsx:41-78 | from a fresh game the clicks 0, 3, 1, 4 are all taken, set no winner, leave X to move with cells 0 and 1 marked X and cell 2 empty, and leave the names alone |
| `App.TopRowGame` | src/App.jsx:19-78 | after registering "Ana" and "Beto" and playing 0, 3, 1, 4, 2, the winner is "Ana" and O is to move |

## Left out

- Background music: the `isPlaying` state, the play/pause handler and the `<audio>` element (`src/App.jsx:10`, `28-38`, `144`) are browser media I/O, not game logic.
- Rendering: `renderCell`, the CSS class choice and the JSX tree (`src/App.jsx:82-155`) are UI only. The name setters are modelled; the input elements that call them are not.
- The `alert` on a failed registration (`src/App.jsx:23`) is a UI side effect. It is modelled as "no state change".
- Image assets (`src/App.jsx:3-5`): a cell's picture is the enumeration `Image`, chosen from the mark by `ImageOf`, not a URL string.
- Sharing of the initial board: `Array(9).fill(...)` puts one cell object in all nine slots. The component never mutates a cell object: a click copies the array and writes a new object. So the model treats cells and boards as values.
- React's asynchronous `setState`: each handler is one atomic step, as described above.
- App.Game.HandleClick: requires `index < 9`. The component only calls it with the indices 0 to 8 of the rendered cells. A larger index would throw in JavaScript.
- App.Game.HandleClick: does not require registration, and neither does the handler. Only the UI hides the board until registration is done.
- App.Game.SetPlayer1Name, App.Game.SetPlayer2Name, App.Game.ResetGame: callable in any state. The component shows the name inputs only before registration (`src/App.jsx:102-126`) and the reset button only while `winner` is truthy (`src/App.jsx:137-141`). The model allows more call orders than the UI does, so every property proved for it also holds for the component.
