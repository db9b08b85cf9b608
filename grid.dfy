/** Board coordinates and the set algebra shared by the board and the agent. */
module Grid {

  /** A (row, column) pair, as the source's `(i, j)` tuples. */
  type Cell = (int, int)

  /** `p` lies within one row and one column of `c` and is not `c`. */
  predicate Adjacent(c: Cell, p: Cell)
  {
    c.0 - 1 <= p.0 <= c.0 + 1 && c.1 - 1 <= p.1 <= c.1 + 1 && p != c
  }

  /** `p` lies on a rows x cols grid. */
  predicate OnGrid(p: Cell, rows: int, cols: int)
  {
    0 <= p.0 < rows && 0 <= p.1 < cols
  }

  /** All cells (i, j) with 0 <= i < rows and 0 <= j < cols. */
  function Rect(rows: int, cols: int): (r: set<Cell>)
    ensures forall p :: p in r <==> OnGrid(p, rows, cols)
  {
    set i, j | 0 <= i < rows && 0 <= j < cols :: (i, j)
  }

  /** The eight cells around `c`, whether or not they lie on a board. */
  function Ring(c: Cell): set<Cell>
  {
    {(c.0 - 1, c.1 - 1), (c.0 - 1, c.1), (c.0 - 1, c.1 + 1),
     (c.0, c.1 - 1), (c.0, c.1 + 1),
     (c.0 + 1, c.1 - 1), (c.0 + 1, c.1), (c.0 + 1, c.1 + 1)}
  }

  /** The cells within one row and one column of `c`, `c` itself excluded, that lie on a height x width board. */
  function Neighbourhood(c: Cell, height: int, width: int): (r: set<Cell>)
    ensures forall p :: p in r <==> Adjacent(c, p) && OnGrid(p, height, width)
    ensures |r| <= 8
  {
    var r := set i, j | c.0 - 1 <= i <= c.0 + 1 && c.1 - 1 <= j <= c.1 + 1 && (i, j) != c
                        && 0 <= i < height && 0 <= j < width :: (i, j);
    SubsetCard(r, Ring(c));
    r
  }

  lemma SubsetCard<T>(a: set<T>, b: set<T>)
    requires a <= b
    ensures |a| <= |b|
  {
    assert b == a + (b - a);
  }

  lemma DisjointUnionCard<T>(a: set<T>, b: set<T>)
    requires a !! b
    ensures |a + b| == |a| + |b|
  {
    assert a * b == {};
  }
}
