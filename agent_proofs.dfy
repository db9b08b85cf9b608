/** What the agent's specification guarantees: its knowledge stays true of the real mine layout, its sets only
    grow, its sentences never mention a settled cell, and subset inference only adds differences of sentences. */
module AgentProofs {
  import opened Grid
  import opened Sentences
  import opened Agent

  /** Every sentence holds of `world`. */
  ghost predicate AllHold(ks: seq<Sentence>, world: set<Cell>)
  {
    forall k :: 0 <= k < |ks| ==> ks[k].HoldsIn(world)
  }

  /** Everything the agent believes is true when the mines are exactly `world`. */
  ghost predicate Sound(st: AgentState, world: set<Cell>)
  {
    st.mines <= world && st.safes !! world && AllHold(st.knowledge, world)
  }

  /** No sentence mentions a cell already known to be safe or a mine. */
  ghost predicate Pruned(st: AgentState)
  {
    forall k :: 0 <= k < |st.knowledge| ==> st.knowledge[k].cells !! st.safes && st.knowledge[k].cells !! st.mines
  }

  // ---------------------------------------------------------------------------------------------
  // Soundness

  /** Sound knowledge never calls a cell both safe and a mine, and its counts lie between 0 and the cell count. */
  lemma {:induction false} SoundBounds(st: AgentState, world: set<Cell>)
    requires Sound(st, world)
    ensures st.mines !! st.safes
    ensures forall k :: 0 <= k < |st.knowledge| ==> 0 <= st.knowledge[k].count <= |st.knowledge[k].cells|
  {
    forall k | 0 <= k < |st.knowledge| ensures 0 <= st.knowledge[k].count <= |st.knowledge[k].cells| {
      HoldsBounds(st.knowledge[k], world);
    }
  }

  lemma {:induction false} MarkSafesKeepsSound(st: AgentState, ss: set<Cell>, world: set<Cell>)
    requires Sound(st, world) && ss !! world
    ensures Sound(MarkSafesSpec(st, ss), world)
  {
    var r := MarkSafesSpec(st, ss);
    forall k | 0 <= k < |r.knowledge| ensures r.knowledge[k].HoldsIn(world) {
      MarkSafesSound(st.knowledge[k], ss, world);
    }
  }

  lemma {:induction false} MarkMinesKeepsSound(st: AgentState, ms: set<Cell>, world: set<Cell>)
    requires Sound(st, world) && ms <= world
    ensures Sound(MarkMinesSpec(st, ms), world)
  {
    var r := MarkMinesSpec(st, ms);
    forall k | 0 <= k < |r.knowledge| ensures r.knowledge[k].HoldsIn(world) {
      MarkMinesSound(st.knowledge[k], ms, world);
    }
  }

  /** Marking a real mine, or a real safe cell, keeps the knowledge true. */
  lemma {:induction false} MarkKeepsSound(st: AgentState, c: Cell, world: set<Cell>)
    requires Sound(st, world)
    ensures c in world ==> Sound(MarkMineSpec(st, c), world)
    ensures c !in world ==> Sound(MarkSafeSpec(st, c), world)
  {
    MarkMinesEmpty(st);
    MarkSafesEmpty(st);
    MarkMinesStepState(st, {}, c);
    MarkSafesStepState(st, {}, c);
    if c in world {
      MarkMinesKeepsSound(st, {c}, world);
    } else {
      MarkSafesKeepsSound(st, {c}, world);
    }
  }

  lemma {:induction false} PassStepSound(st: AgentState, k: nat, world: set<Cell>)
    requires k < |st.knowledge| && Sound(st, world)
    ensures Sound(PassStep(st, k), world)
  {
    var s := st.knowledge[k];
    DeductionSound(s, world);
    var safeCells := s.KnownSafes() + st.safes;
    var st1 := if safeCells == {} then st else MarkSafesSpec(st, safeCells);
    if safeCells != {} {
      MarkSafesKeepsSound(st, safeCells, world);
    }
    DeductionSound(st1.knowledge[k], world);
    var mineCells := st1.knowledge[k].KnownMines();
    if mineCells != {} {
      MarkMinesKeepsSound(st1, mineCells, world);
    }
  }

  /** The propagation pass only concludes what is true. */
  lemma {:induction false} PropagateSound(st: AgentState, k: nat, world: set<Cell>)
    requires Sound(st, world)
    ensures Sound(PropagateFrom(st, k), world)
    decreases |st.knowledge| - k
  {
    if k < |st.knowledge| {
      PassStepSound(st, k, world);
      PropagateSound(PassStep(st, k), k + 1, world);
    }
  }

  lemma {:induction false} PairStepSound(ks: seq<Sentence>, i: nat, j: nat, world: set<Cell>)
    requires i < |ks| && j < |ks| && AllHold(ks, world)
    ensures AllHold(PairStep(ks, i, j), world)
  {
    if i != j && ks[i].cells <= ks[j].cells {
      DifferenceSound(ks[i], ks[j], world);
    }
  }

  lemma {:induction false} InnerFromSound(ks: seq<Sentence>, i: nat, j: nat, m: nat, world: set<Cell>)
    requires i < |ks| && m <= |ks| && AllHold(ks, world)
    ensures AllHold(InnerFrom(ks, i, j, m), world)
    decreases m - j
  {
    if j < m {
      PairStepSound(ks, i, j, world);
      InnerFromSound(PairStep(ks, i, j), i, j + 1, m, world);
    }
  }

  lemma {:induction false} OuterFromSound(ks: seq<Sentence>, i: nat, n: nat, world: set<Cell>)
    requires n <= |ks| && AllHold(ks, world)
    ensures AllHold(OuterFrom(ks, i, n), world)
    decreases n - i
  {
    if i < n {
      InnerFromSound(ks, i, 0, |ks|, world);
      OuterFromSound(InnerFrom(ks, i, 0, |ks|), i + 1, n, world);
    }
  }

  /** Subset inference derives only true sentences from true ones. */
  lemma {:induction false} SubsetInferenceSound(ks: seq<Sentence>, world: set<Cell>)
    requires AllHold(ks, world)
    ensures AllHold(SubsetInference(ks), world)
  {
    OuterFromSound(ks, 0, |ks|, world);
  }

  /** The candidate sentence of a reveal is true when the reveal's count is. */
  lemma {:induction false} CandidateSound(st: AgentState, cells: set<Cell>, count: int, world: set<Cell>)
    requires Sound(st, world) && |cells * world| == count
    ensures Candidate(st, cells, count).HoldsIn(world)
  {
    var s := Sentence(cells, count);
    MarkSafesSound(s, st.safes, world);
    MarkMinesSound(s.MarkSafes(st.safes), st.mines, world);
    assert Candidate(st, cells, count) == s.MarkSafes(st.safes).MarkMines(st.mines);
  }

  lemma {:induction false} AppendSound(st: AgentState, cells: set<Cell>, count: int, world: set<Cell>)
    requires Sound(st, world) && |cells * world| == count
    ensures Sound(AppendSpec(st, cells, count), world)
  {
    var s := Candidate(st, cells, count);
    if s.cells != {} && s !in st.knowledge {
      CandidateSound(st, cells, count, world);
      PropagateSound(st.(knowledge := st.knowledge + [s]), 0, world);
    }
  }

  /** A reveal fed with the true neighbour count of a cell that is not a mine keeps all knowledge true; in
      particular no cell ever ends up both safe and a mine, and every count stays between 0 and its cell count. */
  lemma {:induction false} AddKnowledgeSound(st: AgentState, height: int, width: int, cell: Cell, count: int, world: set<Cell>)
    requires Sound(st, world) && st.movesMade !! world && cell !in world
    requires count == |Neighbourhood(cell, height, width) * world|
    ensures Sound(AddKnowledgeSpec(st, height, width, cell, count), world)
    ensures AddKnowledgeSpec(st, height, width, cell, count).movesMade !! world
  {
    var st0 := st.(movesMade := st.movesMade + {cell});
    var st1 := MarkSafeSpec(st0, cell);
    MarkKeepsSound(st0, cell, world);
    var nb := Neighbourhood(cell, height, width) - st1.movesMade;
    assert nb * world == Neighbourhood(cell, height, width) * world;
    AppendSound(st1, nb, count, world);
    var st2 := AppendSpec(st1, nb, count);
    SubsetInferenceSound(st2.knowledge, world);
    PropagateSound(st2.(knowledge := SubsetInference(st2.knowledge)), 0, world);
  }

  // ---------------------------------------------------------------------------------------------
  // Growth and pruning

  /** Marking a mine or a safe cell touches nothing but its own set and the sentences, and it is idempotent. */
  lemma {:induction false} MarkIdempotent(st: AgentState, c: Cell)
    ensures MarkMineSpec(MarkMineSpec(st, c), c) == MarkMineSpec(st, c)
    ensures MarkSafeSpec(MarkSafeSpec(st, c), c) == MarkSafeSpec(st, c)
  {
    var m := MarkMineSpec(st, c);
    forall k | 0 <= k < |st.knowledge| ensures m.knowledge[k].MarkMine(c) == m.knowledge[k] {
      MarkMineIdempotent(st.knowledge[k], c);
    }
    var s := MarkSafeSpec(st, c);
    forall k | 0 <= k < |st.knowledge| ensures s.knowledge[k].MarkSafe(c) == s.knowledge[k] {
      MarkSafeIdempotent(st.knowledge[k], c);
    }
  }

  /** A reveal marks its cell played and safe, only grows the three sets and never shortens the knowledge. */
  lemma {:induction false} AddKnowledgeGrows(st: AgentState, height: int, width: int, cell: Cell, count: int)
    ensures var r := AddKnowledgeSpec(st, height, width, cell, count);
      r.movesMade == st.movesMade + {cell} && cell in r.safes &&
      st.safes <= r.safes && st.mines <= r.mines && |st.knowledge| <= |r.knowledge|
  {
    var st1 := MarkSafeSpec(st.(movesMade := st.movesMade + {cell}), cell);
    var st2 := AppendSpec(st1, Neighbourhood(cell, height, width) - st1.movesMade, count);
    AppendLength(st1, Neighbourhood(cell, height, width) - st1.movesMade, count);
    assert st2.knowledge <= SubsetInference(st2.knowledge);
  }

  /** Before its propagation pass, adding a reveal's sentence grows the knowledge by one sentence exactly when
      the candidate has cells and is new, and otherwise leaves the state alone. */
  lemma {:induction false} AppendLength(st: AgentState, cells: set<Cell>, count: int)
    ensures var s := Candidate(st, cells, count);
      if s.cells != {} && s !in st.knowledge
      then AppendSpec(st, cells, count) == Propagate(st.(knowledge := st.knowledge + [s])) &&
           |AppendSpec(st, cells, count).knowledge| == |st.knowledge| + 1
      else AppendSpec(st, cells, count) == st
  {
  }

  lemma {:induction false} MarkSafesKeepsPruned(st: AgentState, ss: set<Cell>)
    requires Pruned(st)
    ensures Pruned(MarkSafesSpec(st, ss))
  {
    var r := MarkSafesSpec(st, ss);
    forall k | 0 <= k < |r.knowledge| ensures r.knowledge[k].cells !! r.safes && r.knowledge[k].cells !! r.mines {
      assert r.knowledge[k].cells == st.knowledge[k].cells - ss;
    }
  }

  lemma {:induction false} MarkMinesKeepsPruned(st: AgentState, ms: set<Cell>)
    requires Pruned(st)
    ensures Pruned(MarkMinesSpec(st, ms))
  {
    var r := MarkMinesSpec(st, ms);
    forall k | 0 <= k < |r.knowledge| ensures r.knowledge[k].cells !! r.safes && r.knowledge[k].cells !! r.mines {
      assert r.knowledge[k].cells == st.knowledge[k].cells - ms;
    }
  }

  lemma {:induction false} PropagateKeepsPruned(st: AgentState, k: nat)
    requires Pruned(st)
    ensures Pruned(PropagateFrom(st, k))
    decreases |st.knowledge| - k
  {
    if k < |st.knowledge| {
      var safeCells := st.knowledge[k].KnownSafes() + st.safes;
      var st1 := if safeCells == {} then st else MarkSafesSpec(st, safeCells);
      MarkSafesKeepsPruned(st, safeCells);
      MarkMinesKeepsPruned(st1, st1.knowledge[k].KnownMines());
      PropagateKeepsPruned(PassStep(st, k), k + 1);
    }
  }

  /** A derived sentence avoids every cell that all the sentences it comes from avoid. */
  lemma {:induction false} DerivedAvoids(r: seq<Sentence>, n: nat, k: nat, xs: set<Cell>)
    requires DerivedAfter(r, n) && n <= k < |r|
    requires forall a :: 0 <= a < n ==> r[a].cells !! xs
    ensures r[k].cells !! xs
    decreases k
  {
    assert DerivedAt(r, n, k);
    var i, j :| 0 <= i < n && 0 <= j < k && i != j && Derived(r[i], r[j], r[k]);
    if n <= j {
      DerivedAvoids(r, n, j, xs);
    }
  }

  lemma {:induction false} SubsetInferenceKeepsPruned(st: AgentState)
    requires Pruned(st)
    ensures Pruned(st.(knowledge := SubsetInference(st.knowledge)))
  {
    SubsetInferenceDerives(st.knowledge);
    var r := SubsetInference(st.knowledge);
    var n := |st.knowledge|;
    forall k | 0 <= k < |r| ensures r[k].cells !! st.safes && r[k].cells !! st.mines {
      if n <= k {
        DerivedAvoids(r, n, k, st.safes);
        DerivedAvoids(r, n, k, st.mines);
      }
    }
  }

  /** No sentence ever mentions a cell once it is known to be safe or a mine. */
  lemma {:induction false} AddKnowledgeKeepsPruned(st: AgentState, height: int, width: int, cell: Cell, count: int)
    requires Pruned(st)
    ensures Pruned(AddKnowledgeSpec(st, height, width, cell, count))
  {
    var st0 := st.(movesMade := st.movesMade + {cell});
    MarkSafesEmpty(st0);
    MarkSafesStepState(st0, {}, cell);
    MarkSafesKeepsPruned(st0, {cell});
    var st1 := MarkSafeSpec(st0, cell);
    var nb := Neighbourhood(cell, height, width) - st1.movesMade;
    var s := Candidate(st1, nb, count);
    if s.cells != {} && s !in st1.knowledge {
      PropagateKeepsPruned(st1.(knowledge := st1.knowledge + [s]), 0);
    }
    var st2 := AppendSpec(st1, nb, count);
    SubsetInferenceKeepsPruned(st2);
    PropagateKeepsPruned(st2.(knowledge := SubsetInference(st2.knowledge)), 0);
  }

  // ---------------------------------------------------------------------------------------------
  // The pass records what each sentence settles

  /** The state the pass has reached when the turn of sentence k comes. */
  function PassUpTo(st: AgentState, k: nat): (r: AgentState)
    requires k <= |st.knowledge|
    ensures |r.knowledge| == |st.knowledge| && r.movesMade == st.movesMade
    decreases k
  {
    if k == 0 then st else PassStep(PassUpTo(st, k - 1), k - 1)
  }

  /** The pass is the steps up to sentence k followed by the rest of the pass from k. */
  lemma {:induction false} PassUpToRest(st: AgentState, k: nat)
    requires k <= |st.knowledge|
    ensures PropagateFrom(PassUpTo(st, k), k) == Propagate(st)
    decreases k
  {
    if k > 0 {
      PassUpToRest(st, k - 1);
      PassUpToStep(st, k);
    }
  }

  /** One more step of the pass moves the boundary between the steps taken and the rest of the pass by one. */
  lemma PassUpToStep(st: AgentState, k: nat)
    requires 0 < k <= |st.knowledge|
    ensures PropagateFrom(PassUpTo(st, k), k) == PropagateFrom(PassUpTo(st, k - 1), k - 1)
  {
    var before := PassUpTo(st, k - 1);
    assert PassUpTo(st, k) == PassStep(before, k - 1);
    PropagateFromStep(before, k - 1);
  }

  lemma PropagateFromStep(st: AgentState, k: nat)
    requires k < |st.knowledge|
    ensures PropagateFrom(st, k) == PropagateFrom(PassStep(st, k), k + 1)
  {
  }

  /** After the pass, every sentence has had its turn: the safe cells it settled when its turn came are known
      safe, and so are the mines it settled after that turn's safe marks. */
  lemma {:induction false} PropagateMarks(st: AgentState, k: nat)
    requires k < |st.knowledge|
    ensures var sk := PassUpTo(st, k);
      sk.knowledge[k].KnownSafes() + sk.safes <= Propagate(st).safes &&
      PassSafes(sk, k).knowledge[k].KnownMines() + sk.mines <= Propagate(st).mines
  {
    PassUpToRest(st, k + 1);
  }

  // ---------------------------------------------------------------------------------------------
  // Subset inference adds only differences

  /** `d` is B - A for sentences A = a, B = b where a's cells are non-empty and a proper part of b's. */
  predicate Derived(a: Sentence, b: Sentence, d: Sentence)
  {
    a.cells <= b.cells && a.cells != {} && d.cells == b.cells - a.cells && d.cells != {} && d.count == b.count - a.count
  }

  /** The sentence at index k is new at its position and is derived from a sentence A below n and a sentence
      B before it. */
  ghost predicate DerivedAt(ks: seq<Sentence>, n: nat, k: nat)
    requires n <= k < |ks|
  {
    ks[k] !in ks[..k] && exists i, j :: 0 <= i < n && 0 <= j < k && i != j && Derived(ks[i], ks[j], ks[k])
  }

  /** Every sentence from index n on is derived in the sense of `DerivedAt`. */
  ghost predicate DerivedAfter(ks: seq<Sentence>, n: nat)
  {
    forall k :: n <= k < |ks| ==> DerivedAt(ks, n, k)
  }

  lemma {:induction false} PairStepDerives(ks: seq<Sentence>, i: nat, j: nat, n: nat)
    requires i < n <= |ks| && j < |ks| && DerivedAfter(ks, n)
    ensures DerivedAfter(PairStep(ks, i, j), n)
  {
    var r := PairStep(ks, i, j);
    if |r| > |ks| {
      forall k | n <= k < |r| ensures DerivedAt(r, n, k) {
        if k < |ks| {
          assert DerivedAt(ks, n, k);
          assert r[..k] == ks[..k];
          var i', j' :| 0 <= i' < n && 0 <= j' < k && i' != j' && Derived(ks[i'], ks[j'], ks[k]);
          assert Derived(r[i'], r[j'], r[k]);
        } else {
          assert r[..k] == ks;
          assert Derived(r[i], r[j], r[k]);
        }
      }
    }
  }

  lemma {:induction false} InnerFromDerives(ks: seq<Sentence>, i: nat, j: nat, m: nat, n: nat)
    requires i < n <= |ks| && m <= |ks| && DerivedAfter(ks, n)
    ensures DerivedAfter(InnerFrom(ks, i, j, m), n)
    decreases m - j
  {
    if j < m {
      PairStepDerives(ks, i, j, n);
      InnerFromDerives(PairStep(ks, i, j), i, j + 1, m, n);
    }
  }

  lemma {:induction false} OuterFromDerives(ks: seq<Sentence>, i: nat, n: nat)
    requires n <= |ks| && DerivedAfter(ks, n)
    ensures DerivedAfter(OuterFrom(ks, i, n), n)
    decreases n - i
  {
    if i < n {
      InnerFromDerives(ks, i, 0, |ks|, n);
      OuterFromDerives(InnerFrom(ks, i, 0, |ks|), i + 1, n);
    }
  }

  /** Subset inference keeps the sentences it starts with and appends only sentences B - A with A among
      those, A non-empty, A's cells inside B's and the difference non-empty, each new when it is added. */
  lemma {:induction false} SubsetInferenceDerives(ks: seq<Sentence>)
    ensures ks <= SubsetInference(ks)
    ensures DerivedAfter(SubsetInference(ks), |ks|)
  {
    OuterFromDerives(ks, 0, |ks|);
  }

  // ---------------------------------------------------------------------------------------------
  // Subset inference adds every difference

  /** A = a and B = b form a pair subset inference acts on: A has cells, they are a part of B's, and B has more. */
  predicate Qualifies(a: Sentence, b: Sentence)
  {
    a.cells <= b.cells && a.cells != {} && b.cells - a.cells != {}
  }

  /** The sentence B - A with count B.count - A.count. */
  function Difference(a: Sentence, b: Sentence): Sentence
  {
    Sentence(b.cells - a.cells, b.count - a.count)
  }

  lemma PrefixKeeps(a: seq<Sentence>, b: seq<Sentence>, d: Sentence)
    requires a <= b && d in a
    ensures d in b
  {
    var x :| 0 <= x < |a| && a[x] == d;
    assert b[x] == d;
  }

  /** Handling the pair (i, j) leaves its difference in the list, newly appended or already there. */
  lemma {:induction false} PairStepAdds(ks: seq<Sentence>, i: nat, j: nat)
    requires i < |ks| && j < |ks| && i != j && Qualifies(ks[i], ks[j])
    ensures Difference(ks[i], ks[j]) in PairStep(ks, i, j)
  {
    assert |ks[i].cells| > 0;
    var r := PairStep(ks, i, j);
    if Difference(ks[i], ks[j]) !in ks {
      assert r == ks + [Difference(ks[i], ks[j])];
      assert r[|ks|] == Difference(ks[i], ks[j]);
    }
  }

  lemma {:induction false} InnerFromAdds(ks: seq<Sentence>, i: nat, j: nat, m: nat, w: nat)
    requires i < |ks| && j <= w < m <= |ks| && i != w && Qualifies(ks[i], ks[w])
    ensures Difference(ks[i], ks[w]) in InnerFrom(ks, i, j, m)
    decreases m - j
  {
    var r := PairStep(ks, i, j);
    assert r[i] == ks[i] && r[w] == ks[w];
    if j == w {
      PairStepAdds(ks, i, w);
      PrefixKeeps(r, InnerFrom(r, i, j + 1, m), Difference(ks[i], ks[w]));
    } else {
      InnerFromAdds(r, i, j + 1, m, w);
    }
  }

  lemma {:induction false} OuterFromAdds(ks: seq<Sentence>, i: nat, n: nat, v: nat, w: nat)
    requires i <= v < n <= |ks| && w < |ks| && v != w && Qualifies(ks[v], ks[w])
    ensures Difference(ks[v], ks[w]) in OuterFrom(ks, i, n)
    decreases n - i
  {
    var r := InnerFrom(ks, i, 0, |ks|);
    assert r[v] == ks[v] && r[w] == ks[w];
    if i == v {
      InnerFromAdds(ks, v, 0, |ks|, w);
      PrefixKeeps(r, OuterFrom(r, i + 1, n), Difference(ks[v], ks[w]));
    } else {
      OuterFromAdds(r, i + 1, n, v, w);
    }
  }

  /** Conversely to `SubsetInferenceDerives`: for every pair of sentences A, B of the list on entry where A has
      cells, A's cells are a part of B's and B has more, the difference B - A is in the result. */
  lemma {:induction false} SubsetInferenceComplete(ks: seq<Sentence>, v: nat, w: nat)
    requires v < |ks| && w < |ks| && v != w && Qualifies(ks[v], ks[w])
    ensures Difference(ks[v], ks[w]) in SubsetInference(ks)
  {
    OuterFromAdds(ks, 0, |ks|, v, w);
  }
}
