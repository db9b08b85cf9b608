/** The knowledge-based Minesweeper player: known moves, mines and safe cells, and a list of sentences. */
module Agent {
  import opened Grid
  import opened Wrappers
  import opened Sentences

  /** A snapshot of the agent's four collections, the value the specification functions act on. */
  datatype AgentState = AgentState(movesMade: set<Cell>, mines: set<Cell>, safes: set<Cell>, knowledge: seq<Sentence>)

  // ---------------------------------------------------------------------------------------------
  // Specification: marking cells in every sentence

  /** Adding `c` to the mines and removing it from every sentence, charged against its count. */
  function MarkMineSpec(st: AgentState, c: Cell): (r: AgentState)
    ensures r.mines == st.mines + {c} && r.safes == st.safes && r.movesMade == st.movesMade
    ensures |r.knowledge| == |st.knowledge|
    ensures forall k :: 0 <= k < |r.knowledge| ==> c !in r.knowledge[k].cells
    ensures forall k :: 0 <= k < |r.knowledge| ==> r.knowledge[k] == st.knowledge[k].MarkMine(c)
  {
    st.(mines := st.mines + {c},
        knowledge := seq(|st.knowledge|, k requires 0 <= k < |st.knowledge| => st.knowledge[k].MarkMine(c)))
  }

  /** Adding `c` to the safe cells and removing it from every sentence. */
  function MarkSafeSpec(st: AgentState, c: Cell): (r: AgentState)
    ensures r.safes == st.safes + {c} && r.mines == st.mines && r.movesMade == st.movesMade
    ensures |r.knowledge| == |st.knowledge|
    ensures forall k :: 0 <= k < |r.knowledge| ==> c !in r.knowledge[k].cells
    ensures forall k :: 0 <= k < |r.knowledge| ==> r.knowledge[k] == st.knowledge[k].MarkSafe(c)
  {
    st.(safes := st.safes + {c},
        knowledge := seq(|st.knowledge|, k requires 0 <= k < |st.knowledge| => st.knowledge[k].MarkSafe(c)))
  }

  /** Marking every cell of `ms` a mine, one at a time in any order. */
  function MarkMinesSpec(st: AgentState, ms: set<Cell>): (r: AgentState)
    ensures r.mines == st.mines + ms && r.safes == st.safes && r.movesMade == st.movesMade
    ensures |r.knowledge| == |st.knowledge|
    ensures forall k :: 0 <= k < |r.knowledge| ==> r.knowledge[k] == st.knowledge[k].MarkMines(ms)
  {
    st.(mines := st.mines + ms,
        knowledge := seq(|st.knowledge|, k requires 0 <= k < |st.knowledge| => st.knowledge[k].MarkMines(ms)))
  }

  /** Marking every cell of `ss` safe, one at a time in any order. */
  function MarkSafesSpec(st: AgentState, ss: set<Cell>): (r: AgentState)
    ensures r.safes == st.safes + ss && r.mines == st.mines && r.movesMade == st.movesMade
    ensures |r.knowledge| == |st.knowledge|
    ensures forall k :: 0 <= k < |r.knowledge| ==> r.knowledge[k] == st.knowledge[k].MarkSafes(ss)
  {
    st.(safes := st.safes + ss,
        knowledge := seq(|st.knowledge|, k requires 0 <= k < |st.knowledge| => st.knowledge[k].MarkSafes(ss)))
  }

  lemma MarkMinesEmpty(st: AgentState)
    ensures MarkMinesSpec(st, {}) == st
  {
    forall k | 0 <= k < |st.knowledge| ensures st.knowledge[k].MarkMines({}) == st.knowledge[k] {
      MarkNone(st.knowledge[k]);
    }
  }

  lemma MarkSafesEmpty(st: AgentState)
    ensures MarkSafesSpec(st, {}) == st
  {
    forall k | 0 <= k < |st.knowledge| ensures st.knowledge[k].MarkSafes({}) == st.knowledge[k] {
      MarkNone(st.knowledge[k]);
    }
  }

  lemma MarkMinesStepState(st: AgentState, done: set<Cell>, c: Cell)
    requires c !in done
    ensures MarkMineSpec(MarkMinesSpec(st, done), c) == MarkMinesSpec(st, done + {c})
  {
    forall k | 0 <= k < |st.knowledge|
      ensures st.knowledge[k].MarkMines(done).MarkMine(c) == st.knowledge[k].MarkMines(done + {c})
    {
      MarkMinesStep(st.knowledge[k], done, c);
    }
  }

  lemma MarkSafesStepState(st: AgentState, done: set<Cell>, c: Cell)
    ensures MarkSafeSpec(MarkSafesSpec(st, done), c) == MarkSafesSpec(st, done + {c})
  {
    forall k | 0 <= k < |st.knowledge|
      ensures st.knowledge[k].MarkSafes(done).MarkSafe(c) == st.knowledge[k].MarkSafes(done + {c})
    {
      MarkSafesStep(st.knowledge[k], done, c);
    }
  }

  // ---------------------------------------------------------------------------------------------
  // Specification: one propagation pass

  /** The first half of the pass's step for sentence k: every known safe cell of that sentence, together with
      every cell already known to be safe, is marked safe. */
  function PassSafes(st: AgentState, k: nat): (r: AgentState)
    requires k < |st.knowledge|
    ensures r.safes == st.safes + st.knowledge[k].KnownSafes() && r.mines == st.mines && r.movesMade == st.movesMade
    ensures |r.knowledge| == |st.knowledge|
  {
    var safeCells := st.knowledge[k].KnownSafes() + st.safes;
    if safeCells == {} then st else MarkSafesSpec(st, safeCells)
  }

  /** What the pass does with sentence k: the safe marks of `PassSafes`, then the known mines of that sentence,
      as it stands after those safe marks, are marked mines. */
  function PassStep(st: AgentState, k: nat): (r: AgentState)
    requires k < |st.knowledge|
    ensures r.safes == st.safes + st.knowledge[k].KnownSafes()
    ensures r.mines == st.mines + PassSafes(st, k).knowledge[k].KnownMines()
    ensures |r.knowledge| == |st.knowledge| && r.movesMade == st.movesMade
  {
    var st1 := PassSafes(st, k);
    var mineCells := st1.knowledge[k].KnownMines();
    if mineCells == {} then st1 else MarkMinesSpec(st1, mineCells)
  }

  /** The single pass over the sentences from index k on. */
  function PropagateFrom(st: AgentState, k: nat): (r: AgentState)
    ensures |r.knowledge| == |st.knowledge| && r.movesMade == st.movesMade
    ensures st.safes <= r.safes && st.mines <= r.mines
    decreases |st.knowledge| - k
  {
    if k >= |st.knowledge| then st else PropagateFrom(PassStep(st, k), k + 1)
  }

  /** One pass over the whole knowledge base; not iterated to a fixed point. */
  function Propagate(st: AgentState): (r: AgentState)
    ensures |r.knowledge| == |st.knowledge| && r.movesMade == st.movesMade
    ensures st.safes <= r.safes && st.mines <= r.mines
  {
    PropagateFrom(st, 0)
  }

  // ---------------------------------------------------------------------------------------------
  // Specification: adding a sentence built from a reveal

  /** The sentence over `cells` with the known safe cells dropped and the known mines dropped and charged. */
  function Candidate(st: AgentState, cells: set<Cell>, count: int): (r: Sentence)
    ensures r.cells <= cells && r.cells !! st.safes && r.cells !! st.mines
  {
    var unsafe := cells - st.safes;
    Sentence(unsafe - st.mines, count - |unsafe * st.mines|)
  }

  /** Appends the candidate, and then makes one propagation pass, only when it has cells and is new. */
  function AppendSpec(st: AgentState, cells: set<Cell>, count: int): (r: AgentState)
    ensures r.movesMade == st.movesMade && st.safes <= r.safes && st.mines <= r.mines
  {
    var s := Candidate(st, cells, count);
    if s.cells != {} && s !in st.knowledge then Propagate(st.(knowledge := st.knowledge + [s])) else st
  }

  // ---------------------------------------------------------------------------------------------
  // Specification: subset inference

  /** The sentence B - A derived from A = knowledge[i] and B = knowledge[j], appended when new. */
  function PairStep(ks: seq<Sentence>, i: nat, j: nat): (r: seq<Sentence>)
    requires i < |ks| && j < |ks|
    ensures ks <= r && |r| <= |ks| + 1
  {
    if i == j then ks
    else
      var a := ks[i];
      var b := ks[j];
      if a.cells <= b.cells && |a.cells| > 0 && b.cells - a.cells != {} then
        var s := Sentence(b.cells - a.cells, b.count - a.count);
        if s !in ks then ks + [s] else ks
      else ks
  }

  /** The inner loop for a fixed i, over j from the given value up to m, the length when it started. */
  function InnerFrom(ks: seq<Sentence>, i: nat, j: nat, m: nat): (r: seq<Sentence>)
    requires i < |ks| && m <= |ks|
    ensures ks <= r
    decreases m - j
  {
    if j >= m then ks else InnerFrom(PairStep(ks, i, j), i, j + 1, m)
  }

  /** The outer loop over i from the given value up to n, the length on entry. */
  function OuterFrom(ks: seq<Sentence>, i: nat, n: nat): (r: seq<Sentence>)
    requires n <= |ks|
    ensures ks <= r
    decreases n - i
  {
    if i >= n then ks else OuterFrom(InnerFrom(ks, i, 0, |ks|), i + 1, n)
  }

  /** Every ordered pair (i, j) with i below the length on entry and j below the length when row i starts. */
  function SubsetInference(ks: seq<Sentence>): (r: seq<Sentence>)
    ensures ks <= r
  {
    OuterFrom(ks, 0, |ks|)
  }

  // ---------------------------------------------------------------------------------------------
  // Specification: a reveal

  /** The whole of add_knowledge for the revealed `cell` and its neighbour count. */
  function AddKnowledgeSpec(st: AgentState, height: int, width: int, cell: Cell, count: int): (r: AgentState)
    ensures r.movesMade == st.movesMade + {cell} && cell in r.safes
  {
    var st1 := MarkSafeSpec(st.(movesMade := st.movesMade + {cell}), cell);
    var st2 := AppendSpec(st1, Neighbourhood(cell, height, width) - st1.movesMade, count);
    Propagate(st2.(knowledge := SubsetInference(st2.knowledge)))
  }

  // ---------------------------------------------------------------------------------------------
  // The agent

  class MinesweeperAI {
    const height: int
    const width: int
    var movesMade: set<Cell>
    var mines: set<Cell>
    var safes: set<Cell>
    var knowledge: seq<Sentence>

    function State(): AgentState
      reads this
    {
      AgentState(movesMade, mines, safes, knowledge)
    }

    constructor (height: int, width: int)
      ensures this.height == height && this.width == width
      ensures State() == AgentState({}, {}, {}, [])
    {
      this.height := height;
      this.width := width;
      movesMade := {};
      mines := {};
      safes := {};
      knowledge := [];
    }

    /** Records `c` as a mine and removes it from every sentence. */
    method MarkMine(c: Cell)
      modifies this
      ensures State() == MarkMineSpec(old(State()), c)
    {
      mines := mines + {c};
      var k := 0;
      while k < |knowledge|
        invariant 0 <= k <= |knowledge| == |old(knowledge)|
        invariant forall a :: 0 <= a < k ==> knowledge[a] == old(knowledge)[a].MarkMine(c)
        invariant forall a :: k <= a < |knowledge| ==> knowledge[a] == old(knowledge)[a]
        invariant mines == old(mines) + {c} && safes == old(safes) && movesMade == old(movesMade)
      {
        knowledge := knowledge[k := knowledge[k].MarkMine(c)];
        k := k + 1;
      }
    }

    /** Records `c` as safe and removes it from every sentence. */
    method MarkSafe(c: Cell)
      modifies this
      ensures State() == MarkSafeSpec(old(State()), c)
    {
      safes := safes + {c};
      var k := 0;
      while k < |knowledge|
        invariant 0 <= k <= |knowledge| == |old(knowledge)|
        invariant forall a :: 0 <= a < k ==> knowledge[a] == old(knowledge)[a].MarkSafe(c)
        invariant forall a :: k <= a < |knowledge| ==> knowledge[a] == old(knowledge)[a]
        invariant safes == old(safes) + {c} && mines == old(mines) && movesMade == old(movesMade)
      {
        knowledge := knowledge[k := knowledge[k].MarkSafe(c)];
        k := k + 1;
      }
    }

    /** Marks every cell of `ss` safe, in whatever order the set yields them. */
    method MarkSafes(ss: set<Cell>)
      modifies this
      ensures State() == MarkSafesSpec(old(State()), ss)
    {
      MarkSafesEmpty(State());
      var todo := ss;
      ghost var done: set<Cell> := {};
      while todo != {}
        invariant todo !! done && todo + done == ss
        invariant State() == MarkSafesSpec(old(State()), done)
        decreases todo
      {
        var c :| c in todo;
        MarkSafe(c);
        MarkSafesStepState(old(State()), done, c);
        todo := todo - {c};
        done := done + {c};
      }
    }

    /** Marks every cell of `ms` a mine, in whatever order the set yields them. */
    method MarkMines(ms: set<Cell>)
      modifies this
      ensures State() == MarkMinesSpec(old(State()), ms)
    {
      MarkMinesEmpty(State());
      var todo := ms;
      ghost var done: set<Cell> := {};
      while todo != {}
        invariant todo !! done && todo + done == ms
        invariant State() == MarkMinesSpec(old(State()), done)
        decreases todo
      {
        var c :| c in todo;
        MarkMine(c);
        MarkMinesStepState(old(State()), done, c);
        todo := todo - {c};
        done := done + {c};
      }
    }

    /** The unrevealed in-bounds cells within one row and one column of `cell`. */
    method ValidNeighbors(cell: Cell) returns (neighbors: set<Cell>)
      ensures neighbors == Neighbourhood(cell, height, width) - movesMade
      ensures |neighbors| <= 8
    {
      ghost var target := Neighbourhood(cell, height, width) - movesMade;
      var seen := movesMade;
      neighbors := {};
      var i := cell.0 - 1;
      while i < cell.0 + 2
        invariant cell.0 - 1 <= i <= cell.0 + 2
        invariant forall p :: p in neighbors <==> Adjacent(cell, p) && OnGrid(p, height, width) && p !in seen && p.0 < i
      {
        var j := cell.1 - 1;
        while j < cell.1 + 2
          invariant cell.1 - 1 <= j <= cell.1 + 2
          invariant forall p :: p in neighbors <==>
                      (Adjacent(cell, p) && OnGrid(p, height, width) && p !in seen && (p.0 < i || (p.0 == i && p.1 < j)))
        {
          if (i, j) != cell {
            if 0 <= i < height && 0 <= j < width {
              if (i, j) !in seen {
                neighbors := neighbors + {(i, j)};
              }
            }
          }
          j := j + 1;
        }
        i := i + 1;
      }
      assert neighbors == target;
      SubsetCard(neighbors, Neighbourhood(cell, height, width));
    }

    /** One pass over the sentences, marking what each one settles. */
    method MarkAndUpdateKnowledge()
      modifies this
      ensures State() == Propagate(old(State()))
    {
      var k := 0;
      while k < |knowledge|
        invariant 0 <= k <= |knowledge|
        invariant PropagateFrom(State(), k) == Propagate(old(State()))
      {
        ghost var before := State();
        var safeCells := knowledge[k].KnownSafes() + safes;
        if safeCells != {} {
          MarkSafes(safeCells);
        }
        ghost var middle := State();
        assert middle == if safeCells == {} then before else MarkSafesSpec(before, safeCells);
        var mineCells := knowledge[k].KnownMines();
        if mineCells != {} {
          MarkMines(mineCells);
        }
        assert State() == if mineCells == {} then middle else MarkMinesSpec(middle, mineCells);
        assert State() == PassStep(before, k);
        assert PropagateFrom(before, k) == PropagateFrom(State(), k + 1);
        k := k + 1;
      }
    }

    /** Builds the candidate sentence for a reveal and, when it has cells and is new, appends it and propagates. */
    method RemoveKnownsMarkAppend(cells: set<Cell>, count: int)
      modifies this
      ensures State() == AppendSpec(old(State()), cells, count)
    {
      ghost var candidate := Candidate(State(), cells, count);
      var unknown := cells - safes;
      var countMines := |unknown * mines|;
      var n := count;
      if countMines != 0 {
        n := n - countMines;
      }
      unknown := unknown - mines;
      if unknown != {} {
        var sentence := Sentence(unknown, n);
        assert sentence == candidate;
        if sentence !in knowledge {
          knowledge := knowledge + [sentence];
          MarkAndUpdateKnowledge();
        }
      }
    }

    /** Ingests a revealed safe `cell` whose neighbourhood holds `count` mines. */
    method AddKnowledge(cell: Cell, count: int)
      modifies this
      ensures State() == AddKnowledgeSpec(old(State()), height, width, cell, count)
    {
      movesMade := movesMade + {cell};
      MarkSafe(cell);
      var neighbors := ValidNeighbors(cell);
      RemoveKnownsMarkAppend(neighbors, count);

      InferFromSubsets();
      MarkAndUpdateKnowledge();
    }

    /** Appends B - A for every ordered pair of sentences A, B where A has cells and they are a proper part of
        B's; the row range is fixed on entry, the column range is re-read at the start of every row. */
    method InferFromSubsets()
      modifies this
      ensures knowledge == SubsetInference(old(knowledge))
      ensures movesMade == old(movesMade) && mines == old(mines) && safes == old(safes)
    {
      var n := |knowledge|;
      var i := 0;
      while i < n
        invariant 0 <= i <= n <= |knowledge|
        invariant OuterFrom(knowledge, i, n) == SubsetInference(old(knowledge))
        invariant movesMade == old(movesMade) && mines == old(mines) && safes == old(safes)
      {
        var m := |knowledge|;
        ghost var row := knowledge;
        var j := 0;
        while j < m
          invariant 0 <= j <= m <= |knowledge|
          invariant InnerFrom(knowledge, i, j, m) == InnerFrom(row, i, 0, m)
          invariant movesMade == old(movesMade) && mines == old(mines) && safes == old(safes)
        {
          InferFromPair(i, j);
          j := j + 1;
        }
        assert OuterFrom(row, i, n) == OuterFrom(knowledge, i + 1, n);
        i := i + 1;
      }
    }

    /** One step of the subset loops: appends knowledge[j] - knowledge[i] when the first is a proper part of
        the second, has cells, and the difference is not already known. */
    method InferFromPair(i: nat, j: nat)
      requires i < |knowledge| && j < |knowledge|
      modifies this
      ensures knowledge == PairStep(old(knowledge), i, j)
      ensures movesMade == old(movesMade) && mines == old(mines) && safes == old(safes)
    {
      if i != j {
        var a := knowledge[i];
        var b := knowledge[j];
        if a.cells <= b.cells && |a.cells| > 0 {
          var newCells := b.cells - a.cells;
          if newCells != {} {
            var sentence := Sentence(newCells, b.count - a.count);
            if sentence !in knowledge {
              knowledge := knowledge + [sentence];
            }
          }
        }
      }
    }

    /** Some known safe cell not yet played, or None. */
    method MakeSafeMove() returns (move: Option<Cell>)
      ensures move.Some? ==> move.value in safes && move.value !in movesMade
      ensures move.None? <==> safes <= movesMade
    {
      var todo := safes;
      while todo != {}
        invariant todo <= safes
        invariant forall c :: c in safes && c !in todo ==> c in movesMade
        decreases todo
      {
        var c :| c in todo;
        if c !in movesMade {
          return Some(c);
        }
        todo := todo - {c};
      }
      return None;
    }

    /** The cells of the rows x cols grid neither played nor known to be mines. */
    method LeftMoves(rows: int, cols: int) returns (left: set<Cell>)
      ensures left == Rect(rows, cols) - movesMade - mines
      ensures left == {} <==> Rect(rows, cols) <= movesMade + mines
    {
      left := {};
      var i := 0;
      while i < rows
        invariant forall p :: p in left <==> p in Rect(rows, cols) - movesMade - mines && p.0 < i
      {
        var j := 0;
        while j < cols
          invariant forall p :: p in left <==> p in Rect(rows, cols) - movesMade - mines && (p.0 < i || (p.0 == i && p.1 < j))
        {
          if (i, j) !in movesMade && (i, j) !in mines {
            left := left + {(i, j)};
          }
          j := j + 1;
        }
        i := i + 1;
      }
      if left == {} {
        forall p | p in Rect(rows, cols) ensures p in movesMade + mines {
          assert p !in left;
        }
      }
    }

    /** The random move as written: it scans first coordinates below width and second coordinates below height. */
    method MakeRandomMove() returns (move: Option<Cell>)
      ensures move.Some? ==> move.value in Rect(width, height) && move.value !in movesMade && move.value !in mines
      ensures move.None? <==> Rect(width, height) <= movesMade + mines
    {
      var left := LeftMoves(width, height);
      if left != {} {
        var c :| c in left;
        return Some(c);
      }
      return None;
    }

    /** The random move over the board's own cells: rows below height, columns below width. */
    method MakeRandomMoveOnBoard() returns (move: Option<Cell>)
      ensures move.Some? ==> move.value in Rect(height, width) && move.value !in movesMade && move.value !in mines
      ensures move.None? <==> Rect(height, width) <= movesMade + mines
    {
      var left := LeftMoves(height, width);
      if left != {} {
        var c :| c in left;
        return Some(c);
      }
      return None;
    }
  }
}
