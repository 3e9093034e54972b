/**
 * The 3x3 board of the tic-tac-toe component: marks, cells, the empty
 * starting board, the eight winning triples and the counting facts that the
 * game's turn invariant rests on.
 *
 * Cells are indexed 0..8 in row-major order: cell 3 * row + col.
 */
module Board {

  datatype Option<T> = None | Some(value: T)

  /** The two marks a player can place. */
  datatype Mark = X | O

  /** The picture shown in a cell: the X asset or the O asset. */
  datatype Image = XImage | OImage

  /** A cell holds the mark placed in it (None when empty) and its picture. */
  datatype Cell = Cell(player: Option<Mark>, image: Option<Image>)

  const Size: nat := 9

  const EmptyCell: Cell := Cell(None, None)

  /** Nine empty cells; a new game and every reset start from it. */
  const InitialBoard: seq<Cell> := seq(Size, _ => EmptyCell)

  /** The eight winning triples: three rows, three columns, two diagonals. */
  const WinningLines: seq<(nat, nat, nat)> :=
    [(0, 1, 2), (3, 4, 5), (6, 7, 8),
     (0, 3, 6), (1, 4, 7), (2, 5, 8),
     (0, 4, 8), (2, 4, 6)]

  /** The mark that moves after `m`. */
  function Other(m: Mark): (r: Mark)
    ensures r != m
  {
    if m == X then O else X
  }

  /** The picture chosen for a mark. */
  function ImageOf(m: Mark): (image: Image) {
    if m == X then XImage else OImage
  }

  /** A cell's picture is the picture of its mark, and an empty cell has none. */
  predicate WellFormed(c: Cell) {
    match c.player
    case None => c.image == None
    case Some(m) => c.image == Some(ImageOf(m))
  }

  /** The cell written by a move of `m`. */
  function MarkCell(m: Mark): (c: Cell)
    ensures c.player == Some(m) && WellFormed(c)
  {
    Cell(Some(m), Some(ImageOf(m)))
  }

  /** The board after `m` is written into cell `i`. */
  function Place(b: seq<Cell>, i: nat, m: Mark): (r: seq<Cell>)
    requires i < |b|
    ensures |r| == |b| && r[i] == MarkCell(m)
    ensures forall j :: 0 <= j < |b| && j != i ==> r[j] == b[j]
  {
    b[i := MarkCell(m)]
  }

  /** Every cell holds a mark. */
  predicate Full(b: seq<Cell>) {
    forall i :: 0 <= i < |b| ==> b[i].player != None
  }

  predicate InRange(line: (nat, nat, nat)) {
    line.0 < Size && line.1 < Size && line.2 < Size
  }

  /** All three cells of `line` hold `m`. */
  predicate OnLine(b: seq<Cell>, line: (nat, nat, nat), m: Mark)
    requires |b| == Size && InRange(line)
  {
    b[line.0].player == Some(m) && b[line.1].player == Some(m) && b[line.2].player == Some(m)
  }

  lemma WinningLinesInRange()
    ensures |WinningLines| == 8
    ensures forall k :: 0 <= k < |WinningLines| ==> InRange(WinningLines[k])
    ensures forall k :: 0 <= k < |WinningLines| ==>
              WinningLines[k].0 < WinningLines[k].1 < WinningLines[k].2
  {
  }

  /** Some triple of the table is entirely `m`. */
  predicate HasLine(b: seq<Cell>, m: Mark)
    requires |b| == Size
  {
    WinningLinesInRange();
    exists k :: 0 <= k < |WinningLines| && OnLine(b, WinningLines[k], m)
  }

  // An independent, geometric description of three in a row.

  predicate Owns(b: seq<Cell>, m: Mark, row: nat, col: nat)
    requires |b| == Size && row < 3 && col < 3
  {
    b[3 * row + col].player == Some(m)
  }

  predicate RowFilled(b: seq<Cell>, m: Mark, row: nat)
    requires |b| == Size && row < 3
  {
    forall col :: 0 <= col < 3 ==> Owns(b, m, row, col)
  }

  predicate ColumnFilled(b: seq<Cell>, m: Mark, col: nat)
    requires |b| == Size && col < 3
  {
    forall row :: 0 <= row < 3 ==> Owns(b, m, row, col)
  }

  predicate AntiDiagonalCell(b: seq<Cell>, m: Mark, k: nat)
    requires |b| == Size && k < 3
  {
    Owns(b, m, k, 2 - k)
  }

  /** `m` fills a whole row, a whole column, or one of the two diagonals. */
  predicate ThreeInARow(b: seq<Cell>, m: Mark)
    requires |b| == Size
  {
    || (exists row :: 0 <= row < 3 && RowFilled(b, m, row))
    || (exists col :: 0 <= col < 3 && ColumnFilled(b, m, col))
    || (forall k :: 0 <= k < 3 ==> Owns(b, m, k, k))
    || (forall k :: 0 <= k < 3 ==> AntiDiagonalCell(b, m, k))
  }

  /** The table of eight triples is exactly the rows, columns and diagonals. */
  lemma WinningLinesAreRowsColumnsDiagonals(b: seq<Cell>, m: Mark)
    requires |b| == Size
    ensures HasLine(b, m) <==> ThreeInARow(b, m)
  {
    WinningLinesInRange();
    var L := WinningLines;
    if HasLine(b, m) {
      var k :| 0 <= k < |L| && OnLine(b, L[k], m);
      if k < 3 {
        assert RowFilled(b, m, k);
      } else if k < 6 {
        assert ColumnFilled(b, m, k - 3);
      } else if k == 6 {
        assert forall j :: 0 <= j < 3 ==> Owns(b, m, j, j);
      } else {
        assert k == 7;
        assert forall j :: 0 <= j < 3 ==> AntiDiagonalCell(b, m, j);
      }
    }
    if ThreeInARow(b, m) {
      if exists row :: 0 <= row < 3 && RowFilled(b, m, row) {
        var row :| 0 <= row < 3 && RowFilled(b, m, row);
        assert Owns(b, m, row, 0) && Owns(b, m, row, 1) && Owns(b, m, row, 2);
        assert OnLine(b, L[row], m);
      } else if exists col :: 0 <= col < 3 && ColumnFilled(b, m, col) {
        var col :| 0 <= col < 3 && ColumnFilled(b, m, col);
        assert Owns(b, m, 0, col) && Owns(b, m, 1, col) && Owns(b, m, 2, col);
        assert OnLine(b, L[3 + col], m);
      } else if forall j :: 0 <= j < 3 ==> Owns(b, m, j, j) {
        assert Owns(b, m, 0, 0) && Owns(b, m, 1, 1) && Owns(b, m, 2, 2);
        assert OnLine(b, L[6], m);
      } else {
        assert AntiDiagonalCell(b, m, 0) && AntiDiagonalCell(b, m, 1) && AntiDiagonalCell(b, m, 2);
        assert OnLine(b, L[7], m);
      }
    }
  }

  /** The number of cells holding `m`. */
  function Count(b: seq<Cell>, m: Mark): (n: nat)
    ensures n <= |b|
  {
    if b == [] then 0 else (if b[0].player == Some(m) then 1 else 0) + Count(b[1..], m)
  }

  lemma {:induction false} CountEmpty(b: seq<Cell>, m: Mark)
    requires forall i :: 0 <= i < |b| ==> b[i].player == None
    ensures Count(b, m) == 0
  {
    if b != [] {
      CountEmpty(b[1..], m);
    }
  }

  /** Writing `m` into an empty cell adds one `m` and leaves the other count alone. */
  lemma {:induction false} CountPlace(b: seq<Cell>, i: nat, m: Mark, n: Mark)
    requires i < |b| && b[i].player == None
    ensures Count(Place(b, i, m), n) == Count(b, n) + (if n == m then 1 else 0)
  {
    if i > 0 {
      assert Place(b, i, m)[1..] == Place(b[1..], i - 1, m);
      CountPlace(b[1..], i - 1, m, n);
    }
  }

  /** Emptying a cell that holds `m` removes exactly one `m`. */
  lemma {:induction false} CountClear(b: seq<Cell>, i: nat, m: Mark)
    requires i < |b| && b[i].player == Some(m)
    ensures Count(b, m) == Count(b[i := EmptyCell], m) + 1
  {
    if i > 0 {
      assert b[i := EmptyCell][1..] == b[1..][i - 1 := EmptyCell];
      CountClear(b[1..], i - 1, m);
    }
  }

  /** A triple of `m` takes three marks of `m`. */
  lemma LineNeedsThreeMarks(b: seq<Cell>, m: Mark)
    requires |b| == Size
    ensures HasLine(b, m) ==> Count(b, m) >= 3
  {
    if !HasLine(b, m) {
      return;
    }
    WinningLinesInRange();
    var k :| 0 <= k < |WinningLines| && OnLine(b, WinningLines[k], m);
    var line := WinningLines[k];
    var b1 := b[line.0 := EmptyCell];
    var b2 := b1[line.1 := EmptyCell];
    CountClear(b, line.0, m);
    CountClear(b1, line.1, m);
    CountClear(b2, line.2, m);
  }

  /** No cell is counted twice, and the board is full exactly when its X and O counts add up to its size. */
  lemma {:induction false} FullIffAllMarked(b: seq<Cell>)
    ensures Count(b, X) + Count(b, O) <= |b|
    ensures Full(b) <==> Count(b, X) + Count(b, O) == |b|
  {
    if b != [] {
      FullIffAllMarked(b[1..]);
      if Full(b) {
        assert b[0].player == Some(b[0].player.value);
        assert b[0].player.value == X || b[0].player.value == O;
        assert Full(b[1..]) by {
          forall i | 0 <= i < |b| - 1 ensures b[1..][i].player != None {
            assert b[1..][i] == b[i + 1];
          }
        }
      } else if b[0].player != None {
        var i :| 0 <= i < |b| && b[i].player == None;
        assert b[1..][i - 1] == b[i];
      }
    }
  }

  /**
   * The turn invariant: X has placed as many marks as O or one more, and it
   * is X's turn exactly when the counts are equal.
   */
  predicate Balanced(b: seq<Cell>, turn: Mark) {
    var xs, os := Count(b, X), Count(b, O);
    (xs == os || xs == os + 1) && (turn == X <==> xs == os)
  }

  lemma InitialBoardBalanced()
    ensures |InitialBoard| == Size && Full(InitialBoard) == false
    ensures forall i :: 0 <= i < Size ==> InitialBoard[i] == EmptyCell
    ensures Count(InitialBoard, X) == 0 && Count(InitialBoard, O) == 0
    ensures Balanced(InitialBoard, X)
  {
    assert InitialBoard[0].player == None;
    CountEmpty(InitialBoard, X);
    CountEmpty(InitialBoard, O);
  }

  /** A move by the player whose turn it is keeps the invariant and passes the turn. */
  lemma PlacePreservesBalance(b: seq<Cell>, i: nat, turn: Mark)
    requires Balanced(b, turn) && i < |b| && b[i].player == None
    ensures Balanced(Place(b, i, turn), Other(turn))
    ensures Count(Place(b, i, turn), X) + Count(Place(b, i, turn), O) == Count(b, X) + Count(b, O) + 1
  {
    CountPlace(b, i, turn, X);
    CountPlace(b, i, turn, O);
  }

  /** Nobody can have a triple before five marks are on the board. */
  lemma NoLineBeforeFifthMark(b: seq<Cell>, turn: Mark, m: Mark)
    requires |b| == Size && Balanced(b, turn) && HasLine(b, m)
    ensures Count(b, X) + Count(b, O) >= 5
    ensures m == O ==> Count(b, X) + Count(b, O) >= 6
  {
    LineNeedsThreeMarks(b, m);
  }

  /** On a balanced full board X has five marks, O four, and it is O's turn. */
  lemma FullBoardCounts(b: seq<Cell>, turn: Mark)
    requires |b| == Size && Full(b) && Balanced(b, turn)
    ensures Count(b, X) == 5 && Count(b, O) == 4 && turn == O
  {
    FullIffAllMarked(b);
  }
}
