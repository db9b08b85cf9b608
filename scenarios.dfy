/** Concrete runs of the agent's specification: a subset derivation, a zero-count reveal in a corner, a
    saturated reveal, and the grid the random move scans. */
module Scenarios {
  import opened Grid
  import opened Sentences
  import opened Agent

  /** From {a, b} = 1 and {a, b, c} = 2, subset inference derives {c} = 1 and the next pass marks c a mine. */
  lemma {:induction false} SubsetExample(a: Cell, b: Cell, c: Cell)
    requires a != b && b != c && a != c
    ensures var ks := [Sentence({a, b}, 1), Sentence({a, b, c}, 2)];
      SubsetInference(ks) == ks + [Sentence({c}, 1)] &&
      c in Propagate(AgentState({}, {}, {}, SubsetInference(ks))).mines
  {
    var s0, s1, d := Sentence({a, b}, 1), Sentence({a, b, c}, 2), Sentence({c}, 1);
    var ks := [s0, s1];
    assert {a, b, c} - {a, b} == {c};
    var ks1 := ks + [d];
    assert PairStep(ks, 0, 1) == ks1;
    assert InnerFrom(ks, 0, 0, 2) == ks1 by {
      assert PairStep(ks, 0, 0) == ks;
      assert InnerFrom(ks1, 0, 2, 2) == ks1;
    }
    assert !({a, b, c} <= {a, b}) by { assert c !in {a, b}; }
    assert !({a, b, c} <= {c}) by { assert a !in {c}; }
    assert PairStep(ks1, 1, 0) == ks1;
    assert PairStep(ks1, 1, 1) == ks1;
    assert PairStep(ks1, 1, 2) == ks1;
    assert InnerFrom(ks1, 1, 0, 3) == ks1;
    assert SubsetInference(ks) == ks1;

    var st := AgentState({}, {}, {}, ks1);
    assert |{a, b}| == 2 && |{a, b, c}| == 3;
    assert PassStep(st, 0) == st;
    assert PassStep(st, 1) == st;
    assert d.KnownMines() == {c};
    assert c in PassStep(st, 2).mines;
    assert Propagate(st) == PropagateFrom(st, 1) == PropagateFrom(st, 2) == PropagateFrom(PassStep(st, 2), 3);
  }

  /** A fresh agent on an 8 x 8 board that reveals the corner (0, 0) with no mines around it marks the corner
      and its three neighbours safe and infers no mine. */
  lemma {:induction false} CornerReveal()
    ensures var r := AddKnowledgeSpec(AgentState({}, {}, {}, []), 8, 8, (0, 0), 0);
      r.safes == {(0, 0), (0, 1), (1, 0), (1, 1)} && r.mines == {}
  {
    CornerFirstSteps();
    var after := CornerAppend();
    CornerLastSteps();
  }

  /** The reveal's first steps: the corner is played and marked safe, and three neighbours are left. */
  lemma CornerFirstSteps()
    ensures MarkSafeSpec(AgentState({(0, 0)}, {}, {}, []), (0, 0)) == AgentState({(0, 0)}, {}, {(0, 0)}, [])
    ensures Neighbourhood((0, 0), 8, 8) - {(0, 0)} == {(0, 1), (1, 0), (1, 1)}
  {
    CornerNeighbourhood();
  }

  /** The reveal's last steps: nothing to pair, and the final pass only re-marks the known safe cells. */
  lemma CornerLastSteps()
    ensures var after := AgentState({(0, 0)}, {}, {(0, 0), (0, 1), (1, 0), (1, 1)}, [Sentence({}, 0)]);
      Propagate(after.(knowledge := SubsetInference(after.knowledge))) == after
  {
    var after := AgentState({(0, 0)}, {}, {(0, 0), (0, 1), (1, 0), (1, 1)}, [Sentence({}, 0)]);
    assert InnerFrom([Sentence({}, 0)], 0, 0, 1) == [Sentence({}, 0)];
    assert after.(knowledge := SubsetInference(after.knowledge)) == after;
    assert Sentence({}, 0).MarkSafes(after.safes) == Sentence({}, 0);
    assert PassStep(after, 0) == after;
  }

  lemma CornerNeighbourhood()
    ensures Neighbourhood((0, 0), 8, 8) == {(0, 1), (1, 0), (1, 1)}
  {
    forall p | p in Neighbourhood((0, 0), 8, 8) ensures p in {(0, 1), (1, 0), (1, 1)} {
      assert 0 <= p.0 <= 1 && 0 <= p.1 <= 1 && p != (0, 0);
    }
  }

  /** The append step of the corner reveal: one sentence, whose cells the pass then marks safe. */
  lemma {:induction false} CornerAppend() returns (after: AgentState)
    ensures after == AgentState({(0, 0)}, {}, {(0, 0), (0, 1), (1, 0), (1, 1)}, [Sentence({}, 0)])
    ensures AppendSpec(AgentState({(0, 0)}, {}, {(0, 0)}, []), {(0, 1), (1, 0), (1, 1)}, 0) == after
  {
    var nb := {(0, 1), (1, 0), (1, 1)};
    var st1 := AgentState({(0, 0)}, {}, {(0, 0)}, []);
    assert Candidate(st1, nb, 0) == Sentence(nb, 0);
    var all := {(0, 0), (0, 1), (1, 0), (1, 1)};
    after := AgentState({(0, 0)}, {}, all, [Sentence({}, 0)]);
    var st2 := st1.(knowledge := [Sentence(nb, 0)]);
    assert PassStep(st2, 0) == after by {
      assert Sentence(nb, 0).KnownSafes() + st1.safes == all;
      assert Sentence(nb, 0).MarkSafes(all) == Sentence({}, 0);
      assert MarkSafesSpec(st2, all) == after;
    }
    assert PropagateFrom(st2, 0) == PropagateFrom(after, 1) == after;
    assert (0, 1) in nb;
    assert st1.knowledge + [Sentence(nb, 0)] == [Sentence(nb, 0)];
  }

  /** A reveal whose candidate sentence has as many cells as mines marks all of them mines at once (here with
      no sentences known before and no known mine nearby). */
  lemma {:induction false} SaturatedReveal(st: AgentState, height: int, width: int, cell: Cell, count: int)
    requires st.knowledge == [] && Neighbourhood(cell, height, width) !! st.mines
    requires var u := Neighbourhood(cell, height, width) - st.movesMade - st.safes - {cell};
      u != {} && |u| == count
    ensures Neighbourhood(cell, height, width) - st.movesMade - st.safes - {cell} <= AddKnowledgeSpec(st, height, width, cell, count).mines
  {
    var nbh := Neighbourhood(cell, height, width);
    var u := nbh - st.movesMade - st.safes - {cell};
    var st1 := MarkSafeSpec(st.(movesMade := st.movesMade + {cell}), cell);
    assert st1 == AgentState(st.movesMade + {cell}, st.mines, st.safes + {cell}, []);
    var nb := nbh - st1.movesMade;
    var unsafe := nb - st1.safes;
    assert unsafe * st1.mines == {};
    assert unsafe - st1.mines == u;
    assert Candidate(st1, nb, count) == Sentence(u, count);
    SaturatedAppend(st1, nb, count);
  }

  /** The append step of a saturated reveal into an empty knowledge base. */
  lemma {:induction false} SaturatedAppend(st: AgentState, cells: set<Cell>, count: int)
    requires st.knowledge == []
    requires var s := Candidate(st, cells, count); s.cells != {} && |s.cells| == s.count
    ensures Candidate(st, cells, count).cells <= AppendSpec(st, cells, count).mines
  {
    var s := Candidate(st, cells, count);
    var st2 := st.(knowledge := [s]);
    assert st.knowledge + [s] == [s];
    SaturatedPass(st2, s);
    assert PropagateFrom(st2, 0) == PropagateFrom(PassStep(st2, 0), 1) == PassStep(st2, 0);
  }

  /** The pass step over a lone saturated sentence that mentions no known safe cell marks all its cells mines. */
  lemma {:induction false} SaturatedPass(st: AgentState, s: Sentence)
    requires st.knowledge == [s] && s.cells !! st.safes
    requires s.cells != {} && |s.cells| == s.count
    ensures s.cells <= PassStep(st, 0).mines
  {
    assert |s.cells| > 0;
    assert s.KnownSafes() == {};
    var safeCells := s.KnownSafes() + st.safes;
    assert safeCells == st.safes;
    var mid := if safeCells == {} then st else MarkSafesSpec(st, safeCells);
    assert mid.knowledge[0] == s by {
      if safeCells != {} {
        assert mid.knowledge[0] == s.MarkSafes(safeCells);
        assert s.cells - safeCells == s.cells;
        assert s.cells * safeCells == {};
      }
    }
    assert s.KnownMines() == s.cells;
  }

  /** The random move scans first coordinates below the width and second ones below the height. On a board of
      2 rows and 3 columns that grid offers (2, 0), which is off the board, and never offers (0, 2), which is on it. */
  lemma RandomMoveGridSwapped()
    ensures (2, 0) in Rect(3, 2) && (2, 0) !in Rect(2, 3)
    ensures (0, 2) in Rect(2, 3) && (0, 2) !in Rect(3, 2)
  {
  }
}
