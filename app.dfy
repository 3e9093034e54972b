/**
 * The state and event handlers of the tic-tac-toe component (src/App.jsx).
 *
 * Each handler is one atomic transition of a `Game` object. The winner is
 * kept as the component keeps it: no winner, a player's name, or the label
 * "draw".
 */
module App {
  import opened Board

  /** The value stored in `winner` when the board fills with no triple. */
  const DrawLabel: string := "draw"

  /** A string is truthy in the component exactly when it is not empty. */
  predicate Truthy(s: string) {
    s != ""
  }

  /** The winner guard: `winner` is set to a truthy string. */
  predicate Decided(w: Option<string>) {
    w.Some? && Truthy(w.value)
  }

  /** X belongs to the first player and O to the second. */
  function NameOf(m: Mark, player1Name: string, player2Name: string): (name: string) {
    if m == X then player1Name else player2Name
  }

  /**
   * The value of `winner` after the mark `mover` has just produced board `b`,
   * with the winner before the check being `w`.
   */
  function WinnerAfter(b: seq<Cell>, mover: Mark, player1Name: string, player2Name: string,
                       w: Option<string>): (r: Option<string>)
    requires |b| == Size
  {
    if HasLine(b, mover) then
      if Truthy(player1Name) && Truthy(player2Name) then Some(NameOf(mover, player1Name, player2Name)) else w
    else if Full(b) then Some(DrawLabel)
    else w
  }

  /**
   * What the check decides, stated with the geometric description of a line
   * and with "full" counted as nine marks: a triple of the mover names the
   * mover's player when both names are set and changes nothing otherwise
   * (even on a full board); only without a triple does a full board give a
   * draw; otherwise the winner is left as it was.
   */
  lemma WinnerAfterCases(b: seq<Cell>, mover: Mark, player1Name: string, player2Name: string,
                         w: Option<string>)
    requires |b| == Size
    ensures ThreeInARow(b, mover) && player1Name != "" && player2Name != "" ==>
              WinnerAfter(b, mover, player1Name, player2Name, w) == Some(NameOf(mover, player1Name, player2Name))
    ensures ThreeInARow(b, mover) && (player1Name == "" || player2Name == "") ==>
              WinnerAfter(b, mover, player1Name, player2Name, w) == w
    ensures !ThreeInARow(b, mover) && Count(b, X) + Count(b, O) == Size ==>
              WinnerAfter(b, mover, player1Name, player2Name, w) == Some(DrawLabel)
    ensures !ThreeInARow(b, mover) && Count(b, X) + Count(b, O) < Size ==>
              WinnerAfter(b, mover, player1Name, player2Name, w) == w
  {
    WinningLinesAreRowsColumnsDiagonals(b, mover);
    FullIffAllMarked(b);
  }

  /**
   * With both names set, the move that leaves the board full always settles
   * the game: the mover's player wins or it is a draw.
   */
  lemma FullBoardSettles(b: seq<Cell>, mover: Mark, player1Name: string, player2Name: string,
                         w: Option<string>)
    requires |b| == Size && Count(b, X) + Count(b, O) == Size
    requires player1Name != "" && player2Name != ""
    ensures Decided(WinnerAfter(b, mover, player1Name, player2Name, w))
    ensures WinnerAfter(b, mover, player1Name, player2Name, w)
              in {Some(NameOf(mover, player1Name, player2Name)), Some(DrawLabel)}
  {
    FullIffAllMarked(b);
  }

  /**
   * A move by a mark that had at most one mark on the board, onto a board
   * with at most seven marks, neither wins nor fills the board, so an unset
   * winner stays unset.
   */
  lemma QuietMove(b: seq<Cell>, i: nat, m: Mark, player1Name: string, player2Name: string)
    requires |b| == Size && i < Size && b[i].player == None
    requires Count(b, m) <= 1 && Count(b, X) + Count(b, O) <= 7
    ensures Count(Place(b, i, m), m) <= 2
    ensures WinnerAfter(Place(b, i, m), m, player1Name, player2Name, None) == None
  {
    var b' := Place(b, i, m);
    CountPlace(b, i, m, X);
    CountPlace(b, i, m, O);
    LineNeedsThreeMarks(b', m);
    FullIffAllMarked(b');
  }

  class Game {
    var isRegistered: bool
    var player1Name: string
    var player2Name: string
    var board: seq<Cell>
    var currentPlayer: Mark
    var winner: Option<string>

    /**
     * The game invariant: nine cells, each showing the picture of its mark;
     * marks alternate from X (see Balanced); a winner is never the empty
     * string, and it is only set once the board shows a triple or is full.
     */
    ghost predicate Valid()
      reads this
    {
      && |board| == Size
      && (forall i :: 0 <= i < Size ==> WellFormed(board[i]))
      && Balanced(board, currentPlayer)
      && winner != Some("")
      && (winner.Some? ==> HasLine(board, X) || HasLine(board, O) || Full(board))
    }

    /** The initial state of the component. */
    constructor ()
      ensures Valid()
      ensures !isRegistered && player1Name == "" && player2Name == ""
      ensures board == InitialBoard && currentPlayer == X && winner == None
    {
      isRegistered := false;
      player1Name := "";
      player2Name := "";
      board := InitialBoard;
      currentPlayer := X;
      winner := None;
      InitialBoardBalanced();
    }

    /** The first name field's change handler. */
    method SetPlayer1Name(name: string)
      requires Valid()
      modifies this`player1Name
      ensures Valid() && player1Name == name
    {
      player1Name := name;
    }

    /** The second name field's change handler. */
    method SetPlayer2Name(name: string)
      requires Valid()
      modifies this`player2Name
      ensures Valid() && player2Name == name
    {
      player2Name := name;
    }

    /**
     * Registration succeeds when both names are set; otherwise the component
     * only shows an alert, which changes no state.
     */
    method HandleRegistration()
      requires Valid()
      modifies this`isRegistered
      ensures Valid()
      ensures player1Name != "" && player2Name != "" ==> isRegistered
      ensures !(player1Name != "" && player2Name != "") ==> isRegistered == old(isRegistered)
    {
      if Truthy(player1Name) && Truthy(player2Name) {
        isRegistered := true;
      }
    }

    /** A click on cell `index` is taken when the cell is empty and no winner is set. */
    ghost predicate Accepts(index: nat)
      requires Valid() && index < Size
      reads this
    {
      board[index].player == None && !Decided(winner)
    }

    /**
     * A taken click writes the mover's mark and picture into cell `index`
     * only, checks the new board for the mover, and passes the turn (also on
     * a winning or board-filling move). Any other click changes nothing.
     */
    method HandleClick(index: nat)
      requires Valid() && index < Size
      modifies this`board, this`currentPlayer, this`winner
      ensures Valid()
      ensures old(Accepts(index)) ==>
                && board == Place(old(board), index, old(currentPlayer))
                && currentPlayer == Other(old(currentPlayer))
                && winner == WinnerAfter(board, old(currentPlayer), player1Name, player2Name, old(winner))
                && Count(board, X) + Count(board, O) == old(Count(board, X) + Count(board, O)) + 1
      ensures !old(Accepts(index)) ==>
                board == old(board) && currentPlayer == old(currentPlayer) && winner == old(winner)
    {
      if board[index].player == None && !Decided(winner) {
        var image := ImageOf(currentPlayer);
        var newBoard := board[index := Cell(Some(currentPlayer), Some(image))];
        PlacePreservesBalance(board, index, currentPlayer);
        board := newBoard;
        CheckWinner(newBoard, currentPlayer);
        currentPlayer := Other(currentPlayer);
      }
    }

    /**
     * Scans the eight triples in order and stops at the first one that is
     * entirely `player`'s: then the winner is that player's name when both
     * names are set. When no triple matches and every cell is marked, the
     * winner becomes the draw label. Otherwise the winner stays as it was.
     */
    method CheckWinner(b: seq<Cell>, player: Mark)
      requires |b| == Size
      modifies this`winner
      ensures winner == WinnerAfter(b, player, player1Name, player2Name, old(winner))
    {
      WinningLinesInRange();
      var i := 0;
      while i < |WinningLines|
        invariant 0 <= i <= |WinningLines|
        invariant forall k :: 0 <= k < i ==> !OnLine(b, WinningLines[k], player)
        invariant winner == old(winner)
      {
        var line := WinningLines[i];
        if b[line.0].player == Some(player) && b[line.1].player == Some(player)
           && b[line.2].player == Some(player)
        {
          assert OnLine(b, WinningLines[i], player);
          if Truthy(player1Name) && Truthy(player2Name) {
            winner := Some(NameOf(player, player1Name, player2Name));
          }
          return;
        }
        i := i + 1;
      }
      if Full(b) {
        winner := Some(DrawLabel);
      }
    }

    /** Restores the empty board and X's turn and clears the winner; names and registration stay. */
    method ResetGame()
      requires Valid()
      modifies this`board, this`currentPlayer, this`winner
      ensures Valid()
      ensures board == InitialBoard && currentPlayer == X && winner == None
    {
      board := InitialBoard;
      currentPlayer := X;
      winner := None;
      InitialBoardBalanced();
    }
  }

  /**
   * A client of the handlers, in two parts. The opening: X takes 0, O takes
   * 3, X takes 1, O takes 4; every click is taken, nobody wins, and X is to
   * move with cells 0 and 1 marked X and cell 2 still empty.
   */
  method PlayOpening(g: Game)
    requires g.Valid() && g.board == InitialBoard && g.currentPlayer == X && g.winner == None
    modifies g`board, g`currentPlayer, g`winner
    ensures g.Valid() && g.winner == None && g.currentPlayer == X
    ensures g.player1Name == old(g.player1Name) && g.player2Name == old(g.player2Name)
    ensures g.board[0].player == Some(X) && g.board[1].player == Some(X) && g.board[2].player == None
  {
    InitialBoardBalanced();
    QuietMove(g.board, 0, X, g.player1Name, g.player2Name);
    g.HandleClick(0);
    assert g.winner == None && Count(g.board, O) == 0 && Count(g.board, X) + Count(g.board, O) == 1;
    QuietMove(g.board, 3, O, g.player1Name, g.player2Name);
    g.HandleClick(3);
    assert g.winner == None && Count(g.board, X) == 1 && Count(g.board, X) + Count(g.board, O) == 2;
    QuietMove(g.board, 1, X, g.player1Name, g.player2Name);
    g.HandleClick(1);
    assert g.winner == None && Count(g.board, O) == 1 && Count(g.board, X) + Count(g.board, O) == 3;
    QuietMove(g.board, 4, O, g.player1Name, g.player2Name);
    g.HandleClick(4);
  }

  /**
   * Both players register, play the opening, and X completes the top row
   * with cell 2. The handlers' contracts alone show that the first player is
   * then the winner and that the turn has passed to O.
   */
  method TopRowGame() returns (w: Option<string>, next: Mark)
    ensures w == Some("Ana") && next == O
  {
    var g := new Game();
    g.SetPlayer1Name("Ana");
    g.SetPlayer2Name("Beto");
    g.HandleRegistration();
    PlayOpening(g);
    g.HandleClick(2);
    assert OnLine(g.board, WinningLines[0], X);
    w, next := g.winner, g.currentPlayer;
  }
}
