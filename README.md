# Rotation-puzzle solver, modelled in Dafny

This project models the core of `solver2023.py`, a solver for a 5 x 5 puzzle. The board holds
1 .. 25, and the goal is row-major order. There are 24 moves:
- shift one row right or left (labels `R1`..`R5`, `L1`..`L5`);
- shift one column up or down (`U1`..`U5`, `D1`..`D5`);
- turn the outer ring of 16 cells clockwise or counter-clockwise (`Oc`, `Occ`);
- turn the inner ring of 8 cells clockwise or counter-clockwise (`Ic`, `Icc`).

A best-first search ranks boards by a Manhattan-distance heuristic plus a squared-cost
penalty and returns the labels of the first goal board it pops.

Files and modules:
- `grid.dfy` (`Grid`): grids as sequences of rows; `Transpose` (zip semantics, including
  truncation to the shortest row); the row moves `MoveLeft`/`MoveRight`; the column moves
  built from them by transposition.
- `rotate.dfy` (`Rotate`): `RotateLeft`/`RotateRight`, which insert a carried residual into
  a row and pop one out. `MoveClockwise`/`MoveCClockwise` thread that residual down the four
  sides of a square grid, as the source does. Both are proved to equal `Clockwise` and
  `CounterClockwise`, which say directly which cell each ring cell takes its value from.
  Reading the ring as a cyclic sequence (`Ring`), a clockwise turn rotates that sequence
  by one place. Also here: the inner ring, made by cutting out the inner sub-grid, turning
  it and writing it back.
- `moves.dfy` (`Moves`):
  - the `Move` datatype, its labels and a label parser, with a round-trip proof;
  - `Apply`, the board each move produces, and `Inverse`;
  - `Source`, which gives, for each move, the cell each new cell reads, proved to be a
    bijection;
  - the multiset argument that moves only permute values;
  - `Replay`, which applies a route of labels in order.
- `board.dfy` (`Board`): the goal test, the Manhattan heuristic, and the evaluation score.
- `search.dfy` (`Search`): `Successors`, extract-min on the frontier, and `Solve`.

`Solve` is proved partially correct by one loop invariant: every frontier entry's board is
the start board with that entry's route replayed, and its cost is the route's length. So a
route returned as solved replays the start board to a goal board. When the iteration bound
allows at least one step (`fuel > 0`), a goal start board returns the empty route; with
`fuel == 0` the model returns `OutOfFuel`. No board is expanded twice.

Where the code and its design description differ, the model follows the code. One case:
when the frontier runs empty, `solve` returns the route of the last entry it popped (the
value left in `ttl_route`, solver2023.py:231), not an empty result. `Outcome.Exhausted`
carries that route.

## Model

| member | source | states |
|---|---|---|
| `Grid.MinLen` | solver2023.py:107 | the number of columns `zip(*rows)` yields is at most every row's length (0 for no rows) |
| `Grid.MinLenAttained` | solver2023.py:107 | with at least one row, the number of columns `zip(*rows)` yields equals the length of some row, so together with `MinLen` it is exactly the shortest row's length |
| `Grid.Transpose` | solver2023.py:105-107 | the result has one row per column `zip` yields (the shortest row's length), each as long as the number of rows, and cell (j, i) of the result is cell (i, j) of the grid |
| `Grid.MinLenOfGrid` | solver2023.py:107 | on an h x w grid with at least one row, `zip(*rows)` yields exactly w columns |
| `Grid.TransposeShape` | solver2023.py:105-107 | transposing an h x w grid (h >= 1) gives a w x h grid |
| `Grid.TransposeInvolution` | solver2023.py:105-107 | transposing twice gives the grid back when it has at least one row and one column |
| `Grid.MoveLeft` | solver2023.py:17-22 | row r's first cell moves to the back and the others shift one place left; the row keeps its length; every other row is unchanged |
| `Grid.MoveRight` | solver2023.py:24-29 | row r's last cell moves to the front and the others shift one place right; every other row is unchanged |
| `Grid.RowMovesInverse` | solver2023.py:17-29 | move_right undoes move_left on the same row and vice versa |
| `Grid.ColumnUp` | solver2023.py:131-132 | on a rectangular grid with at least one row, transpose, row-left, transpose shifts column c up by one (top cell to the bottom), keeps the shape and leaves all other columns unchanged |
| `Grid.ColumnDown` | solver2023.py:135-136 | the mirror move shifts column c down by one (bottom cell to the top), keeps the shape, other columns unchanged |
| `Grid.ColumnMovesInverse` | solver2023.py:129-136 | the D move undoes the U move on the same column and vice versa |
| `Rotate.RotateLeft` | solver2023.py:31-36 | row r shifts left by one, the residual lands second to last, the last cell stays, the first cell is returned as the new residual; other rows unchanged |
| `Rotate.RotateRight` | solver2023.py:38-43 | row r shifts right by one, the residual lands second, the first cell stays, the last cell is returned; other rows unchanged |
| `Rotate.MoveClockwise` | solver2023.py:67-84 | on every n x n grid, n >= 2, the four residual-threading steps give exactly the clockwise ring turn: top row right, right column down, bottom row left, left column up, interior unchanged |
| `Rotate.MoveCClockwise` | solver2023.py:86-103 | the counter-clockwise steps give exactly the counter-clockwise ring turn |
| `Rotate.ClockwiseTurnsRing` | solver2023.py:67-84 | read clockwise from the top-left corner, the ring's 4(n-1) values rotate one place (the last comes first); every interior cell keeps its value |
| `Rotate.CounterClockwiseTurnsRing` | solver2023.py:86-103 | the ring's values rotate one place the other way (the first goes last); interior unchanged |
| `Rotate.RingTurnsInverse` | solver2023.py:67-103 | move_cclockwise undoes move_clockwise and vice versa |
| `Rotate.Inner` | solver2023.py:49 | `sts[1:-1, 1:-1]`: an (n-2) x (n-2) grid whose cell (i, j) is cell (i + 1, j + 1) of the board |
| `Rotate.Embed` | solver2023.py:52 | `sts[1:-1, 1:-1] = s`: an n x n grid holding s's cell (i - 1, j - 1) at every inner position and the board's own cell on the border |
| `Rotate.InnerEmbed` | solver2023.py:47-52 | writing back the cut-out inner sub-grid restores the board, and cutting out a written sub-grid gives it back |
| `Rotate.MoveInnerRingClockwise` | solver2023.py:45-54 | cut out the inner (n-2) x (n-2) grid, turn its ring with move_clockwise, write it back (n >= 4) |
| `Rotate.MoveInnerRingCClockwise` | solver2023.py:56-65 | the same with move_cclockwise |
| `Rotate.InnerClockwiseCells` | solver2023.py:45-54 | the outer border and every cell inside the inner ring (the centre (2,2) on 5 x 5) keep their values, and the inner ring's values rotate one place clockwise |
| `Rotate.InnerCounterClockwiseCells` | solver2023.py:56-65 | the same, counter-clockwise |
| `Rotate.InnerTurnsInverse` | solver2023.py:45-65 | the Icc move undoes the Ic move and vice versa |
| `Moves.Apply` | solver2023.py:119-152 | the child that `successors` builds for each of the 24 moves is again a 5 x 5 board (cell by cell: `ApplyAt`) |
| `Moves.Label` | solver2023.py:122-152 | every label has the form R, L, U or D followed by a digit 1-5, or is one of Oc, Occ, Ic, Icc |
| `Moves.ApplyAt` | solver2023.py:119-152 | each of the 24 moves sets cell (i, j) to the value of the parent's cell `Source(m, i, j)` |
| `Moves.SourceInverse` | solver2023.py:119-152 | the inverse move's source map undoes the move's, so every move is a bijection on the 25 cells |
| `Moves.ApplyInverse` | solver2023.py:119-152 | R/L, U/D, Oc/Occ and Ic/Icc on the same row or column undo each other on every board |
| `Moves.ApplyKeepsCells` | solver2023.py:114-154 | every move keeps the multiset of values on the board |
| `Moves.ApplyKeepsPermutation` | solver2023.py:114-154 | a board holding 1 .. 25 once each still does after any move |
| `Moves.LabelRoundTrip` | solver2023.py:122-152 | parsing a move's label gives the move back, and only a move's own label parses to it |
| `Moves.MoveOrderBijective` | solver2023.py:119-152 | the fixed order R1, L1, ..., R5, L5, U1, D1, ..., U5, D5, Oc, Occ, Ic, Icc lists every move exactly once |
| `Moves.SuccessorLabelsDistinct` | solver2023.py:119-152 | the 24 labels are pairwise different |
| `Moves.Replay` | solver2023.py:217-220 | replaying a route of labels yields a 5 x 5 board with the start board's multiset of values, or None on a label that is not a move |
| `Moves.ReplaySnoc` | solver2023.py:217-220 | appending a move's label to a route applies that move after the route |
| `Board.GoalIsGoal` | solver2023.py:158-162 | the literal goal board is 5 x 5, passes the goal test and holds 1 .. 25 once each |
| `Board.IsGoal` | solver2023.py:157-169 | true iff cell (i, j) holds 5 i + j + 1 for all i, j < 5 |
| `Board.CellDistanceZero` | solver2023.py:176-178 | a cell's Manhattan term is zero iff it holds its goal value 5 i + j + 1 |
| `Board.RowDistance` | solver2023.py:175-178 | the distance sum over a row prefix is non-negative and zero iff each of its cells is at home |
| `Board.GridDistance` | solver2023.py:174-178 | the sum over the first k rows is non-negative and zero iff every cell counted is at home |
| `Board.HeuristicsCalculation` | solver2023.py:172-180 | the nested accumulation loop computes the Manhattan sum over all rows and the first row's width |
| `Board.ManhattanZeroIffGoal` | solver2023.py:157-180 | on every 5 x 5 board the heuristic is non-negative and is zero exactly when is_goal holds |
| `Board.Score` | solver2023.py:182-184 | the integer score 5 h + cost^2 is exactly five times the real value h + 0.2 cost^2 |
| `Board.ScoreOrdersLikeEval` | solver2023.py:182-184 | the integer score orders and ties boards exactly as the real-valued eval_func does |
| `Board.EvalFunc` | solver2023.py:182-184 | returns the score of the board's Manhattan heuristic and the given cost |
| `Search.Successors` | solver2023.py:114-154 | exactly 24 (board, label) pairs; pair k is the k-th move of the fixed order applied to the parent, with its label |
| `Search.SuccessorsPermute` | solver2023.py:114-154 | every child is a 5 x 5 board with the parent's values (a permutation stays one), and its label differs from every other child's |
| `Search.PopMin` | solver2023.py:207 | removes one entry of least score; the remaining entries plus the popped one are the old frontier |
| `Search.ChildConsistent` | solver2023.py:216-227 | a child pushed from a consistent entry (route extended by its label, cost + 1, its score) is consistent |
| `Search.Solve` | solver2023.py:186-231 | a route returned as solved replays the start to a goal board; an exhausted route replays; a goal start returns []; no board is expanded twice; expanded boards are reachable non-goal boards |

## Left out

- The command-line block and `printable_board` (solver2023.py:109-111, 233-250): file reading,
  argument checks and printing are I/O.
- The numpy reshape of the flat 25-tuple at the start of `solve` (solver2023.py:197): `Solve`
  takes the 5 x 5 grid directly. The numpy slicing in the inner-ring moves becomes `Inner`
  and `Embed`.
- `RotateLeft`, `RotateRight`: the source changes the row list it is given in place. The
  model takes the grid in and returns the changed grid with the popped residual. Python's
  row index -1 becomes n - 1.
- `copy.deepcopy`: Dafny sequences are values, so no copies are needed.
- `MoveClockwise`, `MoveCClockwise`: stated for square grids with n >= 2 only; the source
  calls them only on 5 x 5 and 3 x 3 grids. On a 1 x 1 grid the source fails at `brd[1]`.
- `EvalFunc`: returns the integer score 5 h + cost^2 instead of the float h + 0.2 cost^2.
  The two agree exactly in real arithmetic. Float rounding of `0.2 * cost**2` is not
  modelled; it can matter only on ties.
- `PopMin`: heapq breaks ties on equal scores by comparing boards, then routes. The model
  promises only some entry of least score, so nothing is proved about ties.
- `Solve`: termination, completeness and optimality are not proved, because the state space
  is 25! and the heuristic is not admissible. A `fuel` bound caps the loop's iterations;
  `OutOfFuel` reports a run cut short by it. The source returns a bare list in every case;
  `Outcome` tells a solved route from the route left when the frontier runs empty.
