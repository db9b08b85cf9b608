/** Tic-tac-toe board rules: whose turn it is, the legal moves, playing one, the winner and the end of a game. */
module TicTacToe {

  /** A square's content: a player's mark, or Empty (the source's EMPTY, which is None). */
  datatype Mark = X | O | Empty

  type Board = seq<seq<Mark>>

  /** A (row, column) position. */
  type Action = (int, int)

  /** Playing on an occupied or off-board square raises "Invalid Action". */
  datatype Outcome = Moved(board: Board) | InvalidAction

  predicate Is3x3(b: Board)
  {
    |b| == 3 && forall i :: 0 <= i < 3 ==> |b[i]| == 3
  }

  /** The empty 3 x 3 board. */
  function InitialState(): (b: Board)
    ensures Is3x3(b)
    ensures forall i, j :: 0 <= i < 3 && 0 <= j < 3 ==> b[i][j] == Empty
  {
    [[Empty, Empty, Empty], [Empty, Empty, Empty], [Empty, Empty, Empty]]
  }

  // ---------------------------------------------------------------------------------------------
  // Whose turn

  /** How many squares of `row` hold `m`. */
  function RowCount(row: seq<Mark>, m: Mark): nat
  {
    if row == [] then 0 else RowCount(row[..|row| - 1], m) + (if row[|row| - 1] == m then 1 else 0)
  }

  /** How many squares of `b` hold `m`. */
  function Count(b: Board, m: Mark): nat
  {
    if b == [] then 0 else Count(b[..|b| - 1], m) + RowCount(b[|b| - 1], m)
  }

  /** X moves first and whenever O has caught up; otherwise O moves. */
  function NextPlayer(b: Board): Mark
  {
    if Count(b, O) >= Count(b, X) then X else O
  }

  /** Counts both players' marks square by square and picks the player to move. */
  method Player(board: Board) returns (p: Mark)
    ensures p == NextPlayer(board)
    ensures p != Empty
  {
    var xCount, oCount := 0, 0;
    var i := 0;
    while i < |board|
      invariant 0 <= i <= |board|
      invariant xCount == Count(board[..i], X) && oCount == Count(board[..i], O)
    {
      var row := board[i];
      var j := 0;
      while j < |row|
        invariant 0 <= j <= |row|
        invariant xCount == Count(board[..i], X) + RowCount(row[..j], X)
        invariant oCount == Count(board[..i], O) + RowCount(row[..j], O)
      {
        assert row[..j + 1][..j] == row[..j];
        if row[j] == X {
          xCount := xCount + 1;
        } else if row[j] == O {
          oCount := oCount + 1;
        }
        j := j + 1;
      }
      assert row[..j] == row;
      assert board[..i + 1][..i] == board[..i];
      i := i + 1;
    }
    assert board[..i] == board;
    p := if oCount >= xCount then X else O;
  }

  // ---------------------------------------------------------------------------------------------
  // Moves

  /** The positions whose square is empty. */
  function EmptyCells(b: Board): (r: set<Action>)
    ensures forall a :: a in r <==> 0 <= a.0 < |b| && 0 <= a.1 < |b[a.0]| && b[a.0][a.1] == Empty
  {
    set i, j | 0 <= i < |b| && 0 <= j < |b[i]| && b[i][j] == Empty :: (i, j)
  }

  /** Collects the empty squares row by row. */
  method Actions(board: Board) returns (act: set<Action>)
    ensures act == EmptyCells(board)
  {
    act := {};
    var i := 0;
    while i < |board|
      invariant 0 <= i <= |board|
      invariant forall a :: a in act <==> a in EmptyCells(board) && a.0 < i
    {
      var j := 0;
      while j < |board[i]|
        invariant 0 <= j <= |board[i]|
        invariant forall a :: a in act <==> a in EmptyCells(board) && (a.0 < i || (a.0 == i && a.1 < j))
      {
        if board[i][j] == Empty {
          act := act + {(i, j)};
        }
        j := j + 1;
      }
      i := i + 1;
    }
  }

  /** The board after the player to move marks the empty square `a`. */
  function Apply(b: Board, a: Action): (r: Board)
    requires a in EmptyCells(b)
  {
    b[a.0 := b[a.0][a.1 := NextPlayer(b)]]
  }

  /** Rejects a move to a square that is not empty; otherwise returns a new board differing only at `action`,
      which now holds the mark of the player to move. The given board is not changed. */
  method Result(board: Board, action: Action) returns (r: Outcome)
    ensures r.InvalidAction? <==> action !in EmptyCells(board)
    ensures r.Moved? ==> r.board == Apply(board, action)
    ensures r.Moved? ==> |r.board| == |board| && forall i :: 0 <= i < |board| ==> |r.board[i]| == |board[i]|
    ensures r.Moved? ==> forall i, j :: 0 <= i < |board| && 0 <= j < |board[i]| ==>
              r.board[i][j] == if (i, j) == action then NextPlayer(board) else board[i][j]
  {
    var act := Actions(board);
    if action !in act {
      return InvalidAction;
    }
    var p := Player(board);
    var newBoard := board[action.0 := board[action.0][action.1 := p]];
    return Moved(newBoard);
  }

  // ---------------------------------------------------------------------------------------------
  // Winner and end of game

  predicate RowWin(b: Board, i: nat)
    requires Is3x3(b) && i < 3
  {
    b[i][0] == b[i][1] && b[i][1] == b[i][2] && b[i][0] != Empty
  }

  predicate ColumnWin(b: Board, j: nat)
    requires Is3x3(b) && j < 3
  {
    b[0][j] == b[1][j] && b[1][j] == b[2][j] && b[0][j] != Empty
  }

  /** The diagonal test, which, unlike the row and column tests, does not exclude an empty centre. */
  predicate DiagonalEqual(b: Board)
    requires Is3x3(b)
  {
    (b[0][0] == b[1][1] && b[1][1] == b[2][2]) || (b[2][0] == b[1][1] && b[1][1] == b[0][2])
  }

  /** The eight lines of three. */
  const Lines: seq<seq<Action>> := [
    [(0, 0), (0, 1), (0, 2)], [(1, 0), (1, 1), (1, 2)], [(2, 0), (2, 1), (2, 2)],
    [(0, 0), (1, 0), (2, 0)], [(0, 1), (1, 1), (2, 1)], [(0, 2), (1, 2), (2, 2)],
    [(0, 0), (1, 1), (2, 2)], [(2, 0), (1, 1), (0, 2)]]

  /** Line number `l` holds three `m` marks. */
  predicate Three(b: Board, l: nat, m: Mark)
    requires Is3x3(b) && l < 8
  {
    forall k :: 0 <= k < 3 ==> b[Lines[l][k].0][Lines[l][k].1] == m
  }

  function ScanDiagonals(b: Board): (w: Mark)
    requires Is3x3(b)
    ensures w != Empty ==> Three(b, 6, w) || Three(b, 7, w)
  {
    if DiagonalEqual(b) then b[1][1] else Empty
  }

  /** The column loop from column j on, falling through to the diagonals. */
  function ScanColumns(b: Board, j: nat): (w: Mark)
    requires Is3x3(b) && j <= 3
    ensures w != Empty ==> exists l :: 3 <= l < 8 && Three(b, l, w)
    decreases 3 - j
  {
    if j == 3 then ScanDiagonals(b)
    else if ColumnWin(b, j) then assert Three(b, 3 + j, b[0][j]); b[0][j]
    else ScanColumns(b, j + 1)
  }

  /** The row loop from row i on, falling through to the columns. */
  function ScanRows(b: Board, i: nat): (w: Mark)
    requires Is3x3(b) && i <= 3
    ensures w != Empty ==> exists l :: 0 <= l < 8 && Three(b, l, w)
    decreases 3 - i
  {
    if i == 3 then ScanColumns(b, 0)
    else if RowWin(b, i) then assert Three(b, i, b[i][0]); b[i][0]
    else ScanRows(b, i + 1)
  }

  /** The winner: Empty stands for the source's None. A non-empty result always owns a full line. */
  function Winner(b: Board): (w: Mark)
    requires Is3x3(b)
    ensures w != Empty ==> exists l :: 0 <= l < 8 && Three(b, l, w)
  {
    ScanRows(b, 0)
  }

  /** True when no square in rows i.. holds Empty. */
  function FullFrom(b: Board, i: nat): (r: bool)
    requires Is3x3(b) && i <= 3
    ensures r <==> forall a :: a in EmptyCells(b) ==> a.0 < i
    decreases 3 - i
  {
    if i == 3 then true
    else if b[i][0] == Empty || b[i][1] == Empty || b[i][2] == Empty then
      assert (i, 0) in EmptyCells(b) || (i, 1) in EmptyCells(b) || (i, 2) in EmptyCells(b);
      false
    else FullFrom(b, i + 1)
  }

  /** The game is over once somebody has won or no square is empty. */
  function Terminal(b: Board): (r: bool)
    requires Is3x3(b)
    ensures r <==> Winner(b) != Empty || EmptyCells(b) == {}
  {
    if Winner(b) != Empty then true else FullFrom(b, 0)
  }

  // ---------------------------------------------------------------------------------------------
  // Properties

  /** On the empty board X moves, every one of the nine squares is a legal move, and the game is not over. */
  lemma InitialStateFacts()
    ensures NextPlayer(InitialState()) == X
    ensures EmptyCells(InitialState()) == set i, j | 0 <= i < 3 && 0 <= j < 3 :: (i, j)
    ensures !Terminal(InitialState())
  {
    var b := InitialState();
    NoMarks(b, X);
    NoMarks(b, O);
    assert (0, 0) in EmptyCells(b);
    assert Winner(b) == Empty;
  }

  /** A board with no square holding `m` counts none of it. */
  lemma {:induction false} NoMarks(b: Board, m: Mark)
    requires forall i, j :: 0 <= i < |b| && 0 <= j < |b[i]| ==> b[i][j] != m
    ensures Count(b, m) == 0
    decreases |b|
  {
    if b != [] {
      NoMarks(b[..|b| - 1], m);
      NoMarksInRow(b[|b| - 1], m);
    }
  }

  lemma {:induction false} NoMarksInRow(row: seq<Mark>, m: Mark)
    requires forall j :: 0 <= j < |row| ==> row[j] != m
    ensures RowCount(row, m) == 0
    decreases |row|
  {
    if row != [] {
      NoMarksInRow(row[..|row| - 1], m);
    }
  }

  /** Replacing the square (i, j) changes each count by what left and what arrived there. */
  lemma {:induction false} CountAfterSet(b: Board, i: nat, j: nat, m: Mark, k: Mark)
    requires i < |b| && j < |b[i]|
    ensures Count(b[i := b[i][j := m]], k) ==
            Count(b, k) - (if b[i][j] == k then 1 else 0) + (if m == k then 1 else 0)
    decreases |b|
  {
    var b' := b[i := b[i][j := m]];
    if i == |b| - 1 {
      assert b'[..|b'| - 1] == b[..|b| - 1];
      RowCountAfterSet(b[i], j, m, k);
    } else {
      assert b'[..|b'| - 1] == b[..|b| - 1][i := b[i][j := m]];
      CountAfterSet(b[..|b| - 1], i, j, m, k);
    }
  }

  lemma {:induction false} RowCountAfterSet(row: seq<Mark>, j: nat, m: Mark, k: Mark)
    requires j < |row|
    ensures RowCount(row[j := m], k) == RowCount(row, k) - (if row[j] == k then 1 else 0) + (if m == k then 1 else 0)
    decreases |row|
  {
    var row' := row[j := m];
    if j == |row| - 1 {
      assert row'[..|row'| - 1] == row[..|row| - 1];
    } else {
      assert row'[..|row'| - 1] == row[..|row| - 1][j := m];
      RowCountAfterSet(row[..|row| - 1], j, m, k);
    }
  }

  /** A legal move empties exactly its own square: the legal moves afterwards are the ones before, less it. */
  lemma ResultActions(b: Board, a: Action)
    requires a in EmptyCells(b)
    ensures EmptyCells(Apply(b, a)) == EmptyCells(b) - {a}
  {
  }

  /** X has as many marks as O, or one more: the balance of every game that starts from the empty board. */
  predicate Balanced(b: Board)
  {
    Count(b, X) == Count(b, O) || Count(b, X) == Count(b, O) + 1
  }

  /** From a balanced board a legal move keeps the balance and hands the turn to the other player. */
  lemma {:induction false} TurnAlternates(b: Board, a: Action)
    requires Balanced(b) && a in EmptyCells(b)
    ensures Balanced(Apply(b, a))
    ensures NextPlayer(Apply(b, a)) == if NextPlayer(b) == X then O else X
    ensures Count(Apply(b, a), NextPlayer(b)) == Count(b, NextPlayer(b)) + 1
  {
    var p := NextPlayer(b);
    CountAfterSet(b, a.0, a.1, p, X);
    CountAfterSet(b, a.0, a.1, p, O);
  }

  /** Whenever some line holds three equal marks, there is a winner. */
  lemma WinnerComplete(b: Board, l: nat, m: Mark)
    requires Is3x3(b) && l < 8 && m != Empty && Three(b, l, m)
    ensures Winner(b) != Empty
  {
    assert b[Lines[l][0].0][Lines[l][0].1] == m;
    assert b[Lines[l][1].0][Lines[l][1].1] == m;
    assert b[Lines[l][2].0][Lines[l][2].1] == m;
    if l < 3 {
      assert Lines[l] == [(l, 0), (l, 1), (l, 2)];
      RowsFindWin(b, 0, l);
    } else if l < 6 {
      assert Lines[l] == [(0, l - 3), (1, l - 3), (2, l - 3)];
      if i :| 0 <= i < 3 && RowWin(b, i) {
        RowsFindWin(b, 0, i);
      } else {
        RowsFallThrough(b, 0);
        ColumnsFindWin(b, 0, l - 3);
      }
    } else {
      assert Lines[l][1] == (1, 1);
      if i :| 0 <= i < 3 && RowWin(b, i) {
        RowsFindWin(b, 0, i);
      } else {
        RowsFallThrough(b, 0);
        if j :| 0 <= j < 3 && ColumnWin(b, j) {
          ColumnsFindWin(b, 0, j);
        } else {
          ColumnsFallThrough(b, 0);
        }
      }
    }
  }

  lemma {:induction false} ColumnsFallThrough(b: Board, j: nat)
    requires Is3x3(b) && j <= 3 && forall j' :: 0 <= j' < 3 ==> !ColumnWin(b, j')
    ensures ScanColumns(b, j) == ScanDiagonals(b)
    decreases 3 - j
  {
    if j < 3 {
      ColumnsFallThrough(b, j + 1);
    }
  }

  lemma {:induction false} RowsFindWin(b: Board, i: nat, w: nat)
    requires Is3x3(b) && i <= w < 3 && RowWin(b, w)
    ensures ScanRows(b, i) != Empty
    decreases 3 - i
  {
    if i < w && !RowWin(b, i) {
      RowsFindWin(b, i + 1, w);
    }
  }

  lemma {:induction false} ColumnsFindWin(b: Board, j: nat, w: nat)
    requires Is3x3(b) && j <= w < 3 && ColumnWin(b, w)
    ensures ScanColumns(b, j) != Empty
    decreases 3 - j
  {
    if j < w && !ColumnWin(b, j) {
      ColumnsFindWin(b, j + 1, w);
    }
  }

  lemma {:induction false} RowsFallThrough(b: Board, i: nat)
    requires Is3x3(b) && i <= 3 && forall i' :: 0 <= i' < 3 ==> !RowWin(b, i')
    ensures ScanRows(b, i) == ScanColumns(b, 0)
    decreases 3 - i
  {
    if i < 3 {
      RowsFallThrough(b, i + 1);
    }
  }

  /** The order of the checks: the first full row wins; failing that the first full column; failing that a
      diagonal of three equal squares yields the centre (Empty when the centre is empty); otherwise no winner. */
  lemma WinnerOrder(b: Board)
    requires Is3x3(b)
    ensures forall i :: 0 <= i < 3 && RowWin(b, i) && (forall i' :: 0 <= i' < i ==> !RowWin(b, i')) ==>
              Winner(b) == b[i][0]
    ensures (forall i :: 0 <= i < 3 ==> !RowWin(b, i)) ==>
              forall j :: 0 <= j < 3 && ColumnWin(b, j) && (forall j' :: 0 <= j' < j ==> !ColumnWin(b, j')) ==>
                Winner(b) == b[0][j]
    ensures (forall i :: 0 <= i < 3 ==> !RowWin(b, i)) && (forall j :: 0 <= j < 3 ==> !ColumnWin(b, j)) ==>
              Winner(b) == if DiagonalEqual(b) then b[1][1] else Empty
  {
  }
}
