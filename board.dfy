/** The goal test, the Manhattan-distance heuristic and the evaluation score of
    solver2023.py. */
module Board {
  import opened Grid
  import opened Moves

  /** goal_sts: 1 .. 25 in row-major order. */
  const Goal: Grid := [
    [1, 2, 3, 4, 5],
    [6, 7, 8, 9, 10],
    [11, 12, 13, 14, 15],
    [16, 17, 18, 19, 20],
    [21, 22, 23, 24, 25]]

  /** g has at least five rows of at least five cells: all is_goal reads. */
  predicate Covers5(g: Grid) {
    |g| >= 5 && forall i :: 0 <= i < 5 ==> |g[i]| >= 5
  }

  /** Cell (i, j) holds 5 i + j + 1 for every i, j < 5. */
  predicate IsGoalBoard(g: Grid)
    requires Covers5(g)
  {
    forall i, j :: 0 <= i < 5 && 0 <= j < 5 ==> g[i][j] == 5 * i + j + 1
  }

  /** The literal goal board is a permutation board and passes the goal test. */
  lemma GoalIsGoal()
    ensures IsBoard(Goal) && IsGoalBoard(Goal) && IsPermutationBoard(Goal)
  {
    assert Flat(Goal) == seq(25, k => k + 1);
  }

  /** is_goal: compares the board with goal_sts cell by cell, stopping at the first
      difference. */
  method IsGoal(sts: Grid) returns (b: bool)
    requires Covers5(sts)
    ensures b == IsGoalBoard(sts)
  {
    var goalSts := Goal;
    for i := 0 to 5
      invariant forall i', j :: 0 <= i' < i && 0 <= j < 5 ==> sts[i'][j] == 5 * i' + j + 1
    {
      for j := 0 to 5
        invariant forall i', j' :: 0 <= i' < i && 0 <= j' < 5 ==> sts[i'][j'] == 5 * i' + j' + 1
        invariant forall j' :: 0 <= j' < j ==> sts[i][j'] == 5 * i + j' + 1
      {
        assert goalSts[i][j] == 5 * i + j + 1;
        if goalSts[i][j] != sts[i][j] {
          return false;
        }
      }
    }
    return true;
  }

  function Abs(x: int): (a: nat)
  {
    if x < 0 then -x else x
  }

  /** Manhattan distance from (i, j) to the place of value v: row (v - 1) // 5, column
      (v - 1) % 5. With a positive divisor, Dafny's / and % agree with Python's // and %. */
  function CellDistance(v: int, i: int, j: int): (d: nat) {
    Abs(i - (v - 1) / 5) + Abs(j - (v - 1) % 5)
  }

  /** On a column 0 .. 4, the distance is zero exactly when v is the goal value 5 i + j + 1. */
  lemma CellDistanceZero(v: int, i: int, j: int)
    requires 0 <= j < 5
    ensures CellDistance(v, i, j) == 0 <==> v == 5 * i + j + 1
  {
    if v == 5 * i + j + 1 {
      assert v - 1 == 5 * i + j;
      assert (v - 1) / 5 == i && (v - 1) % 5 == j;
    }
  }

  /** Sum of the distances of the first k cells of row i. */
  function RowDistance(row: seq<int>, i: int, k: nat): (d: int)
    requires k <= |row|
    ensures d >= 0
    ensures d == 0 <==> forall j :: 0 <= j < k ==> CellDistance(row[j], i, j) == 0
  {
    if k == 0 then 0 else RowDistance(row, i, k - 1) + CellDistance(row[k - 1], i, k - 1)
  }

  /** Sum of the distances of the first w cells of the first k rows. */
  function GridDistance(g: Grid, w: nat, k: nat): (d: int)
    requires k <= |g| && forall i :: 0 <= i < k ==> w <= |g[i]|
    ensures d >= 0
    ensures d == 0 <==> forall i, j :: 0 <= i < k && 0 <= j < w ==> CellDistance(g[i][j], i, j) == 0
  {
    if k == 0 then 0
    else
      var d := GridDistance(g, w, k - 1) + RowDistance(g[k - 1], k - 1, w);
      assert d == 0 ==> forall i, j :: 0 <= i < k && 0 <= j < w ==> CellDistance(g[i][j], i, j) == 0 by {
        if d == 0 {
          forall i, j | 0 <= i < k && 0 <= j < w ensures CellDistance(g[i][j], i, j) == 0 {
            if i == k - 1 {
              assert CellDistance(g[k - 1][j], k - 1, j) == 0;
            }
          }
        }
      }
      d
  }

  /** What heuristics_calculation reads: at least one row, every row as long as the first. */
  predicate Measurable(g: Grid) {
    |g| > 0 && forall i :: 0 <= i < |g| ==> |g[0]| <= |g[i]|
  }

  /** The Manhattan heuristic: the distance sum over all rows and the first row's width. */
  function Manhattan(g: Grid): int
    requires Measurable(g)
  {
    GridDistance(g, |g[0]|, |g|)
  }

  /** On a 5 x 5 board the heuristic is zero exactly on the goal board, whatever the values
      are (in particular on permutations of 1 .. 25). */
  lemma ManhattanZeroIffGoal(g: Grid)
    requires IsBoard(g)
    ensures Measurable(g) && Covers5(g)
    ensures Manhattan(g) >= 0
    ensures Manhattan(g) == 0 <==> IsGoalBoard(g)
  {
    forall i, j | 0 <= i < 5 && 0 <= j < 5 {
      CellDistanceZero(g[i][j], i, j);
    }
  }

  /** heuristics_calculation: accumulates the cell distances row by row. */
  method HeuristicsCalculation(sts: Grid) returns (heur: int)
    requires Measurable(sts)
    ensures heur == Manhattan(sts)
  {
    heur := 0;
    var w := |sts[0]|;
    for i := 0 to |sts|
      invariant heur == GridDistance(sts, w, i)
    {
      for j := 0 to w
        invariant heur == GridDistance(sts, w, i) + RowDistance(sts[i], i, j)
      {
        var goalI := (sts[i][j] - 1) / 5;
        var goalJ := (sts[i][j] - 1) % 5;
        heur := heur + Abs(i - goalI) + Abs(j - goalJ);
      }
    }
  }

  /** eval_func's value, heuristic + 0.2 * cost^2, as an exact real. */
  function EvalReal(heur: int, cost: int): real {
    heur as real + (cost * cost) as real * 0.2
  }

  /** The integer score used in its place. It is exactly five times eval_func's value, so
      it orders frontier entries as eval_func does. */
  function Score(heur: int, cost: int): (s: int)
    ensures s as real == 5.0 * EvalReal(heur, cost)
  {
    5 * heur + cost * cost
  }

  lemma ScoreOrdersLikeEval(h1: int, c1: int, h2: int, c2: int)
    ensures Score(h1, c1) < Score(h2, c2) <==> EvalReal(h1, c1) < EvalReal(h2, c2)
    ensures Score(h1, c1) == Score(h2, c2) <==> EvalReal(h1, c1) == EvalReal(h2, c2)
  {
  }

  /** eval_func, in its integer form. */
  method EvalFunc(sts: Grid, cost: int) returns (score: int)
    requires Measurable(sts)
    ensures score == Score(Manhattan(sts), cost)
  {
    var heur := HeuristicsCalculation(sts);
    score := Score(heur, cost);
  }
}
