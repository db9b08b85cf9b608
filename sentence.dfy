/** A logical sentence about the board: exactly `count` of `cells` are mines. */
module Sentences {
  import opened Grid

  datatype Sentence = Sentence(cells: set<Cell>, count: int) {

    /** The sentence holds of a placement of mines `world`: exactly `count` of its cells are in it. */
    predicate HoldsIn(world: set<Cell>)
    {
      |cells * world| == count
    }

    /** All cells are mines when there are exactly as many cells as mines; otherwise nothing is known. */
    function KnownMines(): (r: set<Cell>)
      ensures r <= cells
      ensures r == cells <==> |cells| == count || cells == {}
      ensures r == {} <==> |cells| != count || cells == {}
    {
      if |cells| == count then cells else {}
    }

    /** All cells are safe when the count is zero; otherwise nothing is known. */
    function KnownSafes(): (r: set<Cell>)
      ensures r <= cells
      ensures r == cells <==> count == 0 || cells == {}
      ensures r == {} <==> count != 0 || cells == {}
    {
      if count == 0 then cells else {}
    }

    /** Removes a cell known to be a mine and charges it against the count; a no-op for other cells. */
    function MarkMine(c: Cell): (r: Sentence)
      ensures c !in r.cells && r.cells <= cells
      ensures |r.cells| - r.count == |cells| - count
      ensures c in cells ==> |r.cells| == |cells| - 1
      ensures c !in cells ==> r == this
    {
      if c in cells then Sentence(cells - {c}, count - 1) else this
    }

    /** Removes a cell known to be safe, leaving the count alone; a no-op for other cells. */
    function MarkSafe(c: Cell): (r: Sentence)
      ensures c !in r.cells && r.cells <= cells
      ensures r.count == count
      ensures c in cells ==> |r.cells| == |cells| - 1
      ensures c !in cells ==> r == this
    {
      if c in cells then Sentence(cells - {c}, count) else this
    }

    /** The effect of marking every cell of `ms` a mine, one after another in any order. */
    function MarkMines(ms: set<Cell>): (r: Sentence)
      ensures r.cells !! ms && r.cells <= cells
      ensures |r.cells| - r.count == |cells| - count
    {
      var r := Sentence(cells - ms, count - |cells * ms|);
      assert cells == (cells - ms) + cells * ms;
      DisjointUnionCard(cells - ms, cells * ms);
      r
    }

    /** The effect of marking every cell of `ss` safe, one after another in any order. */
    function MarkSafes(ss: set<Cell>): (r: Sentence)
      ensures r.cells !! ss && r.cells <= cells
      ensures r.count == count
    {
      Sentence(cells - ss, count)
    }
  }

  /** The source's structural `__eq__`: same cells and same count. */
  function Equal(a: Sentence, b: Sentence): (r: bool)
    ensures r <==> a == b
  {
    a.cells == b.cells && a.count == b.count
  }

  /** Marking a mine is idempotent. */
  lemma MarkMineIdempotent(s: Sentence, c: Cell)
    ensures s.MarkMine(c).MarkMine(c) == s.MarkMine(c)
  {
  }

  /** Marking a safe cell is idempotent. */
  lemma MarkSafeIdempotent(s: Sentence, c: Cell)
    ensures s.MarkSafe(c).MarkSafe(c) == s.MarkSafe(c)
  {
  }

  /** Marking one more mine after a set of them is marking the larger set. */
  lemma MarkMinesStep(s: Sentence, done: set<Cell>, c: Cell)
    requires c !in done
    ensures s.MarkMines(done).MarkMine(c) == s.MarkMines(done + {c})
  {
    var d := s.cells * done;
    if c in s.cells {
      assert s.cells * (done + {c}) == d + {c};
      assert (s.cells - done) - {c} == s.cells - (done + {c});
    } else {
      assert s.cells * (done + {c}) == d;
      assert s.cells - done == s.cells - (done + {c});
    }
  }

  /** Marking one more safe cell after a set of them is marking the larger set. */
  lemma MarkSafesStep(s: Sentence, done: set<Cell>, c: Cell)
    ensures s.MarkSafes(done).MarkSafe(c) == s.MarkSafes(done + {c})
  {
    assert (s.cells - done) - {c} == s.cells - (done + {c});
  }

  /** Marking no cells changes nothing. */
  lemma MarkNone(s: Sentence)
    ensures s.MarkMines({}) == s && s.MarkSafes({}) == s
  {
    assert s.cells * {} == {};
  }

  /** A true sentence has a count between 0 and its number of cells. */
  lemma {:induction false} HoldsBounds(s: Sentence, world: set<Cell>)
    requires s.HoldsIn(world)
    ensures 0 <= s.count <= |s.cells|
  {
    SubsetCard(s.cells * world, s.cells);
  }

  /** The two deduction rules are sound: in a world where the sentence holds, known mines are mines
      and known safes are not. */
  lemma {:induction false} DeductionSound(s: Sentence, world: set<Cell>)
    requires s.HoldsIn(world)
    ensures s.KnownMines() <= world
    ensures s.KnownSafes() !! world
  {
    if |s.cells| == s.count {
      forall x | x in s.cells ensures x in world {
        if x !in world {
          SubsetCard(s.cells * world, s.cells - {x});
        }
      }
    }
    if s.count == 0 {
      assert forall x :: x in s.cells ==> x !in s.cells * world;
    }
  }

  /** Removing a set of real mines keeps a true sentence true. */
  lemma {:induction false} MarkMinesSound(s: Sentence, ms: set<Cell>, world: set<Cell>)
    requires s.HoldsIn(world) && ms <= world
    ensures s.MarkMines(ms).HoldsIn(world)
  {
    var rest := (s.cells - ms) * world;
    assert s.cells * world == rest + s.cells * ms;
    DisjointUnionCard(rest, s.cells * ms);
  }

  /** Removing a set of real safe cells keeps a true sentence true. */
  lemma {:induction false} MarkSafesSound(s: Sentence, ss: set<Cell>, world: set<Cell>)
    requires s.HoldsIn(world) && ss !! world
    ensures s.MarkSafes(ss).HoldsIn(world)
  {
    assert (s.cells - ss) * world == s.cells * world;
  }

  /** Subtracting a true subset sentence from a true superset sentence gives a true sentence. */
  lemma {:induction false} DifferenceSound(a: Sentence, b: Sentence, world: set<Cell>)
    requires a.HoldsIn(world) && b.HoldsIn(world) && a.cells <= b.cells
    ensures Sentence(b.cells - a.cells, b.count - a.count).HoldsIn(world)
  {
    assert b.cells * world == (b.cells - a.cells) * world + a.cells * world;
    DisjointUnionCard((b.cells - a.cells) * world, a.cells * world);
  }
}
