# Minesweeper knowledge agent and tic-tac-toe rules, modelled in Dafny

This project models two programs from an introductory AI course.

**Minesweeper (`1_knowledge/minesweeper/minesweeper.py`).**
- The `Minesweeper` board holds a set of mine positions and a grid of booleans. It answers whether a cell is a mine, how many mines touch a cell, and whether the flagged mines are exactly the real ones.
- A `Sentence` states that exactly `count` of the cells in `cells` are mines.
- The `MinesweeperAI` agent keeps four collections: moves made, known mines, known safe cells, and a list of sentences.
- When the agent learns a revealed cell's neighbour count, it records the move and marks the cell safe. It then builds a sentence over the cell's unrevealed on-board neighbours. Known safe cells are dropped from that sentence, and known mines are dropped and subtracted from its count. The sentence is appended, followed by one propagation pass, only when it has cells and is not already known.
- Next comes subset inference. A is taken from the sentences present when inference starts, and B from the list as it stands when A's row starts. When A has cells, A's cells are a part of B's, and B has more, the difference B − A is appended unless it is already known. One more propagation pass follows.
- `make_safe_move` offers a known safe cell that has not been played. `make_random_move` offers a cell that is neither played nor a known mine, taken from the grid its loops scan, which swaps width and height (see "## Findings"). Which of the two moves the game makes is decided by the caller.

**Tic-tac-toe (`0_tictactoe/tictactoe.py`).** The model covers the initial board, whose turn it is, the empty cells, the result of a move, the winner and the game-over test.

How the model is built:
- The agent is a class with the source's fields.
- Every method is proved to leave the agent in the state given by a specification function of the old state (`Agent.AddKnowledgeSpec` and the functions it is built from).
- The properties are proved as lemmas about those functions. The main one is soundness: if the agent is only told true neighbour counts of cells that are not mines, it never marks a safe cell as a mine or a mine as safe, and every sentence it holds is true of the real minefield (`AgentProofs.AddKnowledgeSound`).

Choices in the model:
- Python's unordered sets and "pick any element" become Dafny sets and `:|`, so each statement holds whatever element the set yields.
- Sentences are values. The source mutates sentence objects inside the list, and no sentence object is ever shared between two places, so replacing the list element is equivalent.

Where the code and its documentation disagree, the model follows the code:
- **Subset inference.** The outer loop's range, `range(len(self.knowledge))`, is fixed when the loop starts. The inner loop's range is evaluated again at the start of every outer iteration, so a row can see sentences appended by earlier rows (`minesweeper.py:272-273`). `Agent.OuterFrom` and `Agent.InnerFrom` model exactly this.
- **Propagation.** `mark_and_update_knowledge` makes one pass over the sentences, not a pass repeated until nothing changes. Each sentence's known safe cells are taken together with all known safe cells, then its known mines are read after those safe marks (`minesweeper.py:206-221`).
- **Sentence invariants.** `0 <= count <= |cells|` is not checked anywhere in the code. It is proved only for sentences that are true of some minefield (`Sentences.HoldsBounds`, `AgentProofs.SoundBounds`). Mines and safe cells are likewise disjoint only under soundness.
- **Distinct sentences.** The code keeps sentences distinct only when it appends one. Marking can make two sentences equal later, so the model does not claim the list stays duplicate-free.

## Model

| member | source | states |
|---|---|---|
| Grid.Neighbourhood | 1_knowledge/minesweeper/minesweeper.py:66-74 | a cell is in the result exactly when it is one of the eight adjacent positions and lies on the board; at most 8 cells |
| Board.PyIndex | 1_knowledge/minesweeper/minesweeper.py:51-53 | Python list indexing succeeds exactly for -n <= k < n, and then selects k mod n (negative indices count from the end) |
| Board.Minesweeper.constructor | 1_knowledge/minesweeper/minesweeper.py:10-34 | the board has height rows of width booleans, true exactly at the given mines; no mines found yet |
| Board.Minesweeper.IsMine | 1_knowledge/minesweeper/minesweeper.py:51-53 | on the board the answer is whether the cell is a mine; it is defined exactly when both indices are within Python's negative-to-positive index range (otherwise the source raises), and then it reads the cell the wrapped indices name |
| Board.Minesweeper.NearbyMines | 1_knowledge/minesweeper/minesweeper.py:55-78 | the count equals the number of mines among the on-board neighbours of the cell (the cell itself excluded), hence at most 8 |
| Board.Minesweeper.Won | 1_knowledge/minesweeper/minesweeper.py:80-84 | won exactly when the found mines are on the board and a board cell is found exactly when it holds a mine |
| Sentences.Sentence.KnownMines | 1_knowledge/minesweeper/minesweeper.py:104-112 | the result is a subset of the cells; it is all of them exactly when the count equals the number of cells, and empty otherwise |
| Sentences.Sentence.KnownSafes | 1_knowledge/minesweeper/minesweeper.py:114-122 | the result is a subset of the cells; it is all of them exactly when the count is zero, and empty otherwise |
| Sentences.Sentence.MarkMine | 1_knowledge/minesweeper/minesweeper.py:124-134 | the cell is removed; when it was present, cells shrink by one and the count by one (cells minus count is kept), otherwise the sentence is unchanged |
| Sentences.Sentence.MarkSafe | 1_knowledge/minesweeper/minesweeper.py:136-145 | the cell is removed and the count kept; when it was present the cells shrink by one, otherwise the sentence is unchanged |
| Sentences.Sentence.MarkMines | 1_knowledge/minesweeper/minesweeper.py:219-221 | marking a set of mines one by one leaves no marked cell and keeps cells minus count (`Sentences.MarkMinesStep` connects it to the one-cell mark) |
| Sentences.Sentence.MarkSafes | 1_knowledge/minesweeper/minesweeper.py:213-215 | marking a set of safe cells one by one leaves none of them and keeps the count |
| Sentences.Equal | 1_knowledge/minesweeper/minesweeper.py:98-99 | two sentences are equal exactly when they have the same cells and count; this is the equality `not in` uses |
| Sentences.MarkMinesStep | 1_knowledge/minesweeper/minesweeper.py:219-221 | marking one more mine after a set of mines is marking the larger set |
| Sentences.MarkSafesStep | 1_knowledge/minesweeper/minesweeper.py:213-215 | marking one more safe cell after a set of safe cells is marking the larger set |
| Sentences.MarkMineIdempotent | 1_knowledge/minesweeper/minesweeper.py:124-134 | marking the same mine twice in a sentence is the same as marking it once |
| Sentences.MarkSafeIdempotent | 1_knowledge/minesweeper/minesweeper.py:136-145 | marking the same safe cell twice in a sentence is the same as marking it once |
| Sentences.HoldsBounds | 1_knowledge/minesweeper/minesweeper.py:87-96 | a sentence true of some minefield has 0 <= count <= number of cells |
| Sentences.DeductionSound | 1_knowledge/minesweeper/minesweeper.py:104-122 | in a true sentence the known mines are mines and the known safe cells are not |
| Sentences.MarkMinesSound | 1_knowledge/minesweeper/minesweeper.py:124-134 | removing real mines from a true sentence keeps it true |
| Sentences.MarkSafesSound | 1_knowledge/minesweeper/minesweeper.py:136-145 | removing non-mines from a true sentence keeps it true |
| Sentences.DifferenceSound | 1_knowledge/minesweeper/minesweeper.py:280-286 | if A and B are true and A's cells are a part of B's, then B − A with count B.count − A.count is true |
| Agent.MarkMineSpec | 1_knowledge/minesweeper/minesweeper.py:169-176 | the cell joins the mines, the other collections are kept, and every sentence is that sentence with the cell marked a mine, so none mentions it |
| Agent.MarkSafeSpec | 1_knowledge/minesweeper/minesweeper.py:178-185 | the cell joins the safe cells, the other collections are kept, and every sentence is that sentence with the cell marked safe, so none mentions it |
| Agent.PassSafes | 1_knowledge/minesweeper/minesweeper.py:212-215 | the safe half of one sentence's turn: the safe cells become exactly the old ones plus that sentence's known safe cells; mines and moves are kept |
| Agent.PassStep | 1_knowledge/minesweeper/minesweeper.py:210-221 | one sentence's turn: the safe cells become the old ones plus its known safe cells, and the mines become the old ones plus the known mines of that sentence as it stands after the safe marks; moves and the number of sentences are kept |
| Agent.PropagateFrom | 1_knowledge/minesweeper/minesweeper.py:206-221 | the rest of the pass from sentence k keeps the number of sentences and the moves, and never drops a safe cell or mine (`AgentProofs.PropagateMarks` states what it adds) |
| Agent.Propagate | 1_knowledge/minesweeper/minesweeper.py:206-221 | the whole pass keeps the number of sentences and the moves and never drops a safe cell or mine |
| Agent.Candidate | 1_knowledge/minesweeper/minesweeper.py:227-234 | the reveal's sentence uses some of the given cells and none that is a known safe cell or a known mine |
| Agent.AppendSpec | 1_knowledge/minesweeper/minesweeper.py:236-241 | appending the reveal's sentence keeps the moves and only adds safe cells and mines |
| Agent.PairStep | 1_knowledge/minesweeper/minesweeper.py:274-288 | handling one pair keeps every existing sentence in place and appends at most one (`AgentProofs.PairStepAdds` and `AgentProofs.PairStepDerives` say which) |
| Agent.InnerFrom | 1_knowledge/minesweeper/minesweeper.py:273-288 | the inner loop, with its range read at the start of the row, only appends sentences |
| Agent.OuterFrom | 1_knowledge/minesweeper/minesweeper.py:272-288 | the outer loop, over the length on entry, only appends sentences |
| Agent.SubsetInference | 1_knowledge/minesweeper/minesweeper.py:272-288 | both loops together keep the old list as a prefix; `AgentProofs.SubsetInferenceDerives` and `AgentProofs.SubsetInferenceComplete` say exactly what they append |
| Agent.AddKnowledgeSpec | 1_knowledge/minesweeper/minesweeper.py:243-291 | a reveal adds the cell to the moves made and to the safe cells |
| Agent.MinesweeperAI.constructor | 1_knowledge/minesweeper/minesweeper.py:153-167 | the agent starts with the given dimensions, no moves, no mines, no safe cells and no sentences |
| Agent.MinesweeperAI.MarkMine | 1_knowledge/minesweeper/minesweeper.py:169-176 | the new state is `MarkMineSpec` of the old one |
| Agent.MinesweeperAI.MarkSafe | 1_knowledge/minesweeper/minesweeper.py:178-185 | the new state is `MarkSafeSpec` of the old one |
| Agent.MinesweeperAI.MarkSafes | 1_knowledge/minesweeper/minesweeper.py:213-215 | marking every cell of a set safe, in any order, gives `MarkSafesSpec` of the old state |
| Agent.MinesweeperAI.MarkMines | 1_knowledge/minesweeper/minesweeper.py:219-221 | marking every cell of a set a mine, in any order, gives `MarkMinesSpec` of the old state |
| Agent.MinesweeperAI.ValidNeighbors | 1_knowledge/minesweeper/minesweeper.py:187-204 | the result is exactly the on-board neighbours of the cell that are not yet played; at most 8 |
| Agent.MinesweeperAI.MarkAndUpdateKnowledge | 1_knowledge/minesweeper/minesweeper.py:206-221 | the new state is one propagation pass over the old one |
| Agent.MinesweeperAI.RemoveKnownsMarkAppend | 1_knowledge/minesweeper/minesweeper.py:223-241 | the new state is `AppendSpec`: the candidate sentence is appended and propagated only when it has cells and is new |
| Agent.MinesweeperAI.AddKnowledge | 1_knowledge/minesweeper/minesweeper.py:243-291 | the new state is `AddKnowledgeSpec` of the old state, cell and count |
| Agent.MinesweeperAI.InferFromSubsets | 1_knowledge/minesweeper/minesweeper.py:270-288 | the new sentence list is `SubsetInference` of the old one (outer range fixed, inner range re-read per row); the other collections are unchanged |
| Agent.MinesweeperAI.InferFromPair | 1_knowledge/minesweeper/minesweeper.py:274-288 | one pair of the subset loops changes the sentence list as `PairStep` says and nothing else |
| Agent.MinesweeperAI.MakeSafeMove | 1_knowledge/minesweeper/minesweeper.py:293-304 | a returned move is a known safe cell not yet played; no move is returned exactly when every known safe cell is played |
| Agent.MinesweeperAI.LeftMoves | 1_knowledge/minesweeper/minesweeper.py:313-317 | the collected set is exactly the grid cells that are neither played nor known mines; it is empty exactly when they all are |
| Agent.MinesweeperAI.MakeRandomMove | 1_knowledge/minesweeper/minesweeper.py:306-319 | as written: a returned move lies in the width x height grid the loops scan, is unplayed and not a known mine; no move exactly when that grid is used up |
| Agent.MinesweeperAI.MakeRandomMoveOnBoard | 1_knowledge/minesweeper/minesweeper.py:306-319 | corrected: the same over the board's height x width cells |
| AgentProofs.SoundBounds | 1_knowledge/minesweeper/minesweeper.py:87-96 | in a sound state, mines and safe cells are disjoint and every sentence has 0 <= count <= number of cells |
| AgentProofs.MarkKeepsSound | 1_knowledge/minesweeper/minesweeper.py:169-185 | marking a real mine a mine, or a non-mine safe, keeps the state sound |
| AgentProofs.PassStepSound | 1_knowledge/minesweeper/minesweeper.py:210-221 | the step for one sentence keeps the state sound |
| AgentProofs.PropagateSound | 1_knowledge/minesweeper/minesweeper.py:206-221 | a propagation pass keeps the state sound |
| AgentProofs.SubsetInferenceSound | 1_knowledge/minesweeper/minesweeper.py:272-288 | subset inference appends only sentences true of the minefield |
| AgentProofs.CandidateSound | 1_knowledge/minesweeper/minesweeper.py:227-237 | if the true count over the cells was reported, the candidate sentence is true after dropping safe cells and charging known mines |
| AgentProofs.AppendSound | 1_knowledge/minesweeper/minesweeper.py:223-241 | appending a true reveal sentence and propagating keeps the state sound |
| AgentProofs.AddKnowledgeSound | 1_knowledge/minesweeper/minesweeper.py:243-291 | given a sound state, a revealed non-mine cell, played cells that are not mines, and the true count of its neighbours, the new state is sound and its played cells are still not mines |
| AgentProofs.MarkIdempotent | 1_knowledge/minesweeper/minesweeper.py:169-185 | marking the same cell a mine twice, or safe twice, is the same as marking it once |
| AgentProofs.AddKnowledgeGrows | 1_knowledge/minesweeper/minesweeper.py:243-291 | a reveal adds the cell to the moves and the safe cells, keeps every known safe cell and mine, and never shrinks the sentence list |
| AgentProofs.AppendLength | 1_knowledge/minesweeper/minesweeper.py:236-241 | before propagation, the reveal grows the list by exactly one sentence when the candidate has cells and is new, and otherwise leaves the state unchanged |
| AgentProofs.PassUpTo | 1_knowledge/minesweeper/minesweeper.py:210 | the state the pass has reached when sentence k's turn comes keeps the moves and the number of sentences |
| AgentProofs.PassUpToRest | 1_knowledge/minesweeper/minesweeper.py:210-221 | the pass is its first k steps followed by the rest of the pass from sentence k |
| AgentProofs.PropagateMarks | 1_knowledge/minesweeper/minesweeper.py:206-221 | after the pass, for every sentence k: the safe cells it settled at its turn, and the mines it settled after that turn's safe marks, are all known |
| AgentProofs.PropagateKeepsPruned | 1_knowledge/minesweeper/minesweeper.py:206-221 | if no sentence mentions a known safe cell or mine, that still holds after a pass |
| AgentProofs.SubsetInferenceKeepsPruned | 1_knowledge/minesweeper/minesweeper.py:272-288 | subset inference appends no sentence that mentions a known safe cell or mine |
| AgentProofs.AddKnowledgeKeepsPruned | 1_knowledge/minesweeper/minesweeper.py:243-291 | after a reveal, no sentence mentions a known safe cell or a known mine, if that held before |
| AgentProofs.PairStepDerives | 1_knowledge/minesweeper/minesweeper.py:274-288 | handling a pair whose A lies below the entry length appends only a new difference of two distinct sentences |
| AgentProofs.PairStepAdds | 1_knowledge/minesweeper/minesweeper.py:274-288 | when A = knowledge[i] has cells, is a part of B = knowledge[j] and B has more, B − A is in the list afterwards, whether newly appended or already there |
| AgentProofs.InnerFromAdds | 1_knowledge/minesweeper/minesweeper.py:273-288 | the inner loop from j on leaves B − A in the list for every qualifying B at an index from j up to the row's bound |
| AgentProofs.OuterFromAdds | 1_knowledge/minesweeper/minesweeper.py:272-288 | the outer loop from i on leaves B − A in the list for every qualifying pair whose A has an index from i up to the entry length |
| AgentProofs.SubsetInferenceComplete | 1_knowledge/minesweeper/minesweeper.py:272-288 | for every pair of distinct sentences A, B on entry where A has cells, A's cells are a part of B's and B has more, B − A with count B.count − A.count is in the result |
| AgentProofs.SubsetInferenceDerives | 1_knowledge/minesweeper/minesweeper.py:272-288 | subset inference keeps the old list as a prefix; each appended sentence is new at its position and is B − A for two distinct earlier sentences A, B, where A lies in the original list |
| Scenarios.SubsetExample | 1_knowledge/minesweeper/minesweeper.py:272-291 | from {a,b}=1 and {a,b,c}=2, inference appends exactly {c}=1, and propagation then marks c a mine |
| Scenarios.CornerReveal | 1_knowledge/minesweeper/minesweeper.py:243-291 | on a fresh 8x8 agent, revealing (0,0) with count 0 makes (0,0), (0,1), (1,0) and (1,1) safe and marks no mine |
| Scenarios.SaturatedReveal | 1_knowledge/minesweeper/minesweeper.py:243-291 | with no sentences and no known mine nearby, a count equal to the number of unknown neighbours marks all of them mines |
| Scenarios.RandomMoveGridSwapped | 1_knowledge/minesweeper/minesweeper.py:314-315 | on a board with 2 rows and 3 columns the scanned grid contains the off-board cell (2,0) and misses the on-board cell (0,2) |
| TicTacToe.InitialState | 0_tictactoe/tictactoe.py:12-18 | a 3x3 board whose every cell is empty |
| TicTacToe.Player | 0_tictactoe/tictactoe.py:21-39 | counting the marks in both loops gives `NextPlayer`: X when O has at least as many marks as X, otherwise O; never empty |
| TicTacToe.EmptyCells | 0_tictactoe/tictactoe.py:42-51 | (i, j) is an action exactly when it indexes a cell of the board and that cell is empty |
| TicTacToe.Actions | 0_tictactoe/tictactoe.py:42-51 | the loops collect exactly `EmptyCells` |
| TicTacToe.Result | 0_tictactoe/tictactoe.py:54-66 | the action is rejected exactly when it is not an empty cell; otherwise the new board keeps the old board's shape, has the next player's mark at the action and matches the old board everywhere else |
| TicTacToe.ScanRows | 0_tictactoe/tictactoe.py:73-76 | a non-empty answer from the row checks is a mark filling some line |
| TicTacToe.ScanColumns | 0_tictactoe/tictactoe.py:77-80 | a non-empty answer from the column checks is a mark filling some column or diagonal |
| TicTacToe.ScanDiagonals | 0_tictactoe/tictactoe.py:81-85 | a non-empty answer from the diagonal check is a mark filling a diagonal |
| TicTacToe.Winner | 0_tictactoe/tictactoe.py:69-85 | a non-empty winner fills one of the eight lines |
| TicTacToe.FullFrom | 0_tictactoe/tictactoe.py:95-99 | the scan from row i finds no empty cell exactly when every empty cell lies above row i |
| TicTacToe.Terminal | 0_tictactoe/tictactoe.py:88-99 | the game is over exactly when there is a winner or no empty cell |
| TicTacToe.InitialStateFacts | 0_tictactoe/tictactoe.py:12-39 | on the initial board X moves first, all nine cells are actions, and the game is not over |
| TicTacToe.ResultActions | 0_tictactoe/tictactoe.py:42-66 | after a move, the actions are the old actions minus the cell played |
| TicTacToe.TurnAlternates | 0_tictactoe/tictactoe.py:21-66 | on a board with equal counts or one more X, a move keeps that balance, adds one mark for the mover and hands the turn to the other player |
| TicTacToe.WinnerComplete | 0_tictactoe/tictactoe.py:69-85 | if some line is filled by X or O, the winner is not empty (with `Winner` this is an if-and-only-if) |
| TicTacToe.WinnerOrder | 0_tictactoe/tictactoe.py:73-85 | rows are checked first, from the top, then columns from the left, then the diagonals, and the first filled line decides |

## Left out

- Random mine placement in the board constructor (`minesweeper.py:26-31`) is not modelled. The constructor takes the mine set as a parameter instead of a mine count, and requires the mines to lie on the board.
- `Minesweeper.print` and `Sentence.__str__` are not modelled; they are console output only.
- `utility` and `minimax` are not modelled; they only raise `NotImplementedError`.
- The game runner, the graphical interface, and the code that fills `mines_found` are not part of this model.
- Board.Minesweeper.constructor: dimensions are natural numbers. Python's `range` over a negative dimension simply gives no rows.
- Board.Minesweeper.constructor and Agent.MinesweeperAI.constructor take every argument explicitly. The source's default arguments, `height=8, width=8, mines=8` for the board (`minesweeper.py:10`) and `height=8, width=8` for the agent (`minesweeper.py:153`), are not modelled.
- Agent.MinesweeperAI.MakeSafeMove: the source returns the first unplayed safe cell in Python's set iteration order. The model returns some unplayed safe cell, because that order is not specified.
- Agent.MinesweeperAI.MakeRandomMove: the choice that `set.pop` makes is not specified. The model picks any remaining cell.
- Agent.MinesweeperAI.MarkSafes and Agent.MinesweeperAI.MarkMines are the inner loops of `mark_and_update_knowledge`, and Agent.MinesweeperAI.InferFromPair is the body of the subset loops. They are separate methods, which does not change behaviour.
- Sentences are values. The in-place update of a sentence object becomes replacing that list element, which behaves the same since no sentence is shared.
- TicTacToe.Winner and TicTacToe.Terminal require a 3x3 board. The source indexes rows and columns 0 to 2, so it raises on smaller boards and looks only at the top-left 3x3 square of larger ones; the model covers neither case. Every board `initial_state` and `result` build is 3x3.
- TicTacToe.Result: the source raises `NameError` for an invalid action. The model returns `InvalidAction`.
- The marks `X`, `O` and `None` become the three constructors of `TicTacToe.Mark`.

## Findings

| source | as written | input that shows it | evidently intended | confidence | as-written member | corrected member |
|---|---|---|---|---|---|---|
| 1_knowledge/minesweeper/minesweeper.py:314-315 | `make_random_move` uses `i in range(self.width)` for the row and `j in range(self.height)` for the column | an agent for a board with height 2 and width 3: the scan can return (2, 0), a row that does not exist, and never offers (0, 2), a real cell | rows below height and columns below width | not executed | Agent.MinesweeperAI.MakeRandomMove, Scenarios.RandomMoveGridSwapped | Agent.MinesweeperAI.MakeRandomMoveOnBoard |
