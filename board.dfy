/** The game board: a given mine layout with the neighbour count the agent is fed and the win check. */
module Board {
  import opened Grid
  import opened Wrappers

  /** Python's `xs[k]` on a list of length n: negative indices count from the end; anything else raises. */
  function PyIndex(k: int, n: int): (r: Option<nat>)
    ensures r.Some? <==> -n <= k < n
    ensures r.Some? ==> r.value == k % n
  {
    if 0 <= k < n then Some(k)
    else if -n <= k < 0 then assert (k + n) % n == k % n; Some(k + n)
    else None
  }

  class Minesweeper {
    const height: nat
    const width: nat
    /** The mine layout; the source draws it at random, here it is given. */
    const mines: set<Cell>
    /** `board[i][j]` is true exactly when (i, j) holds a mine. */
    const board: seq<seq<bool>>
    /** The cells the player has flagged; the game loop that sets it is not part of this model. */
    var minesFound: set<Cell>

    predicate Valid()
      reads this
    {
      |board| == height &&
      (forall i :: 0 <= i < height ==> |board[i]| == width) &&
      (forall i, j :: 0 <= i < height && 0 <= j < width ==> (board[i][j] <==> (i, j) in mines)) &&
      mines <= Rect(height, width)
    }

    /** Builds the grid row by row; mines are placed from the given set instead of drawn at random. */
    constructor (height: nat, width: nat, mines: set<Cell>)
      requires mines <= Rect(height, width)
      ensures Valid()
      ensures this.height == height && this.width == width && this.mines == mines
      ensures minesFound == {}
    {
      var rows: seq<seq<bool>> := [];
      var i := 0;
      while i < height
        invariant 0 <= i <= height
        invariant |rows| == i
        invariant forall a :: 0 <= a < i ==> |rows[a]| == width
        invariant forall a, b :: 0 <= a < i && 0 <= b < width ==> (rows[a][b] <==> (a, b) in mines)
      {
        var row: seq<bool> := [];
        var j := 0;
        while j < width
          invariant 0 <= j <= width
          invariant |row| == j
          invariant forall b :: 0 <= b < j ==> (row[b] <==> (i, b) in mines)
        {
          row := row + [(i, j) in mines];
          j := j + 1;
        }
        rows := rows + [row];
        i := i + 1;
      }
      this.height := height;
      this.width := width;
      this.mines := mines;
      board := rows;
      minesFound := {};
    }

    /** `board[i][j]` with Python's indexing: None stands for the IndexError an index out of range raises. */
    function IsMine(cell: Cell): (r: Option<bool>)
      reads this
      requires Valid()
      ensures cell in Rect(height, width) ==> r == Some(cell in mines)
      ensures r.Some? <==> -(height as int) <= cell.0 < height && -(width as int) <= cell.1 < width
      ensures r.Some? ==> r == Some((cell.0 % height, cell.1 % width) in mines)
    {
      match PyIndex(cell.0, height)
      case None => None
      case Some(i) =>
        match PyIndex(cell.1, width)
        case None => None
        case Some(j) =>
          assert i < height && j < width;
          assert (i, j) in Rect(height, width);
          Some(board[i][j])
    }

    /** Counts the mines among the in-bounds cells within one row and one column of `cell`. */
    method NearbyMines(cell: Cell) returns (count: nat)
      requires Valid()
      ensures count == |Neighbourhood(cell, height, width) * mines|
      ensures count <= 8
    {
      ghost var nb := Neighbourhood(cell, height, width);
      ghost var found: set<Cell> := {};
      count := 0;
      var i := cell.0 - 1;
      while i < cell.0 + 2
        invariant cell.0 - 1 <= i <= cell.0 + 2
        invariant count == |found|
        invariant forall p :: p in found <==> Adjacent(cell, p) && OnGrid(p, height, width) && p in mines && p.0 < i
      {
        var j := cell.1 - 1;
        while j < cell.1 + 2
          invariant cell.1 - 1 <= j <= cell.1 + 2
          invariant count == |found|
          invariant forall p :: p in found <==>
                      (Adjacent(cell, p) && OnGrid(p, height, width) && p in mines && (p.0 < i || (p.0 == i && p.1 < j)))
        {
          if (i, j) != cell {
            if 0 <= i < height && 0 <= j < width {
              if board[i][j] {
                found := found + {(i, j)};
                count := count + 1;
              }
            }
          }
          j := j + 1;
        }
        i := i + 1;
      }
      assert found == nb * mines;
      SubsetCard(nb * mines, nb);
    }

    /** The game is won when the flagged cells are exactly the board's mines. */
    predicate Won()
      reads this
      requires Valid()
      ensures Won() <==> minesFound <= Rect(height, width) &&
                         forall c :: c in Rect(height, width) ==> (c in minesFound <==> board[c.0][c.1])
    {
      minesFound == mines
    }
  }
}
