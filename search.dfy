/** Successor generation and the best-first search `solve` of solver2023.py. */
module Search {
  import opened Grid
  import opened Rotate
  import opened Moves
  import opened Board

  /** list holds the first n (child, label) pairs of the fixed move order. */
  ghost predicate ListsMoves(list: seq<(Grid, string)>, sts: Grid, n: nat)
    requires IsBoard(sts) && n <= 24
    decreases n
  {
    |list| == n &&
    (n > 0 ==> ListsMoves(list[..n - 1], sts, n - 1) &&
               list[n - 1] == (Apply(MoveAt(n - 1), sts), Label(MoveAt(n - 1))))
  }

  lemma ListsMovesSnoc(list: seq<(Grid, string)>, sts: Grid, n: nat, child: Grid, lbl: string)
    requires IsBoard(sts) && n < 24 && ListsMoves(list, sts, n)
    requires child == Apply(MoveAt(n), sts) && lbl == Label(MoveAt(n))
    ensures ListsMoves(list + [(child, lbl)], sts, n + 1)
  {
    assert (list + [(child, lbl)])[..n] == list;
  }

  lemma {:induction false} ListsMovesAt(list: seq<(Grid, string)>, sts: Grid, n: nat)
    requires IsBoard(sts) && n <= 24 && ListsMoves(list, sts, n)
    ensures forall k :: 0 <= k < n ==> list[k] == (Apply(MoveAt(k), sts), Label(MoveAt(k)))
  {
    if n > 0 {
      ListsMovesAt(list[..n - 1], sts, n - 1);
    }
  }

  /** The row moves of successors() are the moves at positions 2 row and 2 row + 1. */
  lemma RowSuccessors(sts: Grid, row: Index)
    requires IsBoard(sts)
    ensures MoveAt(2 * row) == Right(row) && MoveAt(2 * row + 1) == Left(row)
    ensures Apply(Right(row), sts) == MoveRight(sts, row) && Label(Right(row)) == "R" + [Digit(row)]
    ensures Apply(Left(row), sts) == MoveLeft(sts, row) && Label(Left(row)) == "L" + [Digit(row)]
  {
  }

  /** The column moves of successors() are the moves at positions 10 + 2 col and 11 + 2 col. */
  lemma ColumnSuccessors(sts: Grid, col: Index)
    requires IsBoard(sts)
    ensures MinLen(sts) == 5 && MinLen(Transpose(sts)) == 5
    ensures MoveAt(10 + 2 * col) == Up(col) && MoveAt(11 + 2 * col) == Down(col)
    ensures Apply(Up(col), sts) == Transpose(MoveLeft(Transpose(sts), col))
    ensures Label(Up(col)) == "U" + [Digit(col)]
    ensures Apply(Down(col), sts) == Transpose(MoveRight(Transpose(sts), col))
    ensures Label(Down(col)) == "D" + [Digit(col)]
  {
    TransposeShape(sts, 5, 5);
    MinLenOfGrid(Transpose(sts), 5, 5);
  }

  /** successors: the 24 children of a board with their labels, rows first (R then L for
      each row), then columns (U then D for each column), then Oc, Occ, Ic, Icc. */
  method Successors(sts: Grid) returns (list: seq<(Grid, string)>)
    requires IsBoard(sts)
    ensures |list| == 24
    ensures forall k :: 0 <= k < 24 ==> list[k] == (Apply(MoveAt(k), sts), Label(MoveAt(k)))
  {
    list := [];
    for row := 0 to Rows
      invariant ListsMoves(list, sts, 2 * row)
    {
      RowSuccessors(sts, row);
      var child := MoveRight(sts, row);
      ListsMovesSnoc(list, sts, 2 * row, child, "R" + [Digit(row)]);
      list := list + [(child, "R" + [Digit(row)])];
      child := MoveLeft(sts, row);
      ListsMovesSnoc(list, sts, 2 * row + 1, child, "L" + [Digit(row)]);
      list := list + [(child, "L" + [Digit(row)])];
    }
    for col := 0 to Cols
      invariant ListsMoves(list, sts, 10 + 2 * col)
    {
      ColumnSuccessors(sts, col);
      var child := Transpose(MoveLeft(Transpose(sts), col));
      ListsMovesSnoc(list, sts, 10 + 2 * col, child, "U" + [Digit(col)]);
      list := list + [(child, "U" + [Digit(col)])];
      child := Transpose(MoveRight(Transpose(sts), col));
      ListsMovesSnoc(list, sts, 11 + 2 * col, child, "D" + [Digit(col)]);
      list := list + [(child, "D" + [Digit(col)])];
    }
    var child := MoveClockwise(sts);
    ListsMovesSnoc(list, sts, 20, child, "Oc");
    list := list + [(child, "Oc")];
    child := MoveCClockwise(sts);
    ListsMovesSnoc(list, sts, 21, child, "Occ");
    list := list + [(child, "Occ")];
    child := MoveInnerRingClockwise(sts);
    ListsMovesSnoc(list, sts, 22, child, "Ic");
    list := list + [(child, "Ic")];
    child := MoveInnerRingCClockwise(sts);
    ListsMovesSnoc(list, sts, 23, child, "Icc");
    list := list + [(child, "Icc")];
    ListsMovesAt(list, sts, 24);
  }

  /** Every child holds the same values as its parent, so a permutation of 1 .. 25 stays
      one; every child is a board again, and the 24 labels differ. */
  lemma SuccessorsPermute(sts: Grid, k: nat)
    requires IsBoard(sts) && k < 24
    ensures IsBoard(Apply(MoveAt(k), sts)) && Cells(Apply(MoveAt(k), sts)) == Cells(sts)
    ensures IsPermutationBoard(sts) ==> IsPermutationBoard(Apply(MoveAt(k), sts))
    ensures forall k' :: 0 <= k' < 24 && k' != k ==> Label(MoveAt(k')) != Label(MoveAt(k))
  {
    ApplyKeepsCells(MoveAt(k), sts);
    forall k' | 0 <= k' < 24 && k' != k ensures Label(MoveAt(k')) != Label(MoveAt(k)) {
      SuccessorLabelsDistinct(k', k);
    }
  }

  /** A frontier entry `[eval, board, route, cost]`. */
  datatype Entry = Entry(score: int, board: Grid, route: seq<string>, cost: int)

  /** The frontier invariant: the entry's board is the start board with its route applied
      in order, its cost is the route's length and its score is the board's score. */
  ghost predicate Consistent(start: Grid, e: Entry)
    requires IsBoard(start)
  {
    IsBoard(e.board) && Replay(start, e.route) == Some(e.board) &&
    e.cost == |e.route| && Measurable(e.board) && e.score == Score(Manhattan(e.board), e.cost)
  }

  /** heappop, without the tie-breaking: removes and returns an entry of least score. */
  method PopMin(queue: seq<Entry>) returns (e: Entry, rest: seq<Entry>)
    requires |queue| > 0
    ensures e in queue && forall x :: x in queue ==> e.score <= x.score
    ensures multiset(rest) + multiset{e} == multiset(queue)
    ensures forall x :: x in rest ==> x in queue
  {
    var best := 0;
    for k := 1 to |queue|
      invariant best < |queue|
      invariant forall k' :: 0 <= k' < k ==> queue[best].score <= queue[k'].score
    {
      if queue[k].score < queue[best].score {
        best := k;
      }
    }
    e := queue[best];
    rest := queue[..best] + queue[best + 1..];
    assert queue == queue[..best] + [e] + queue[best + 1..];
    assert multiset(rest) + multiset{e} == multiset(queue);
  }

  /** The child pushed for the k-th successor of a consistent entry is consistent. */
  lemma ChildConsistent(start: Grid, e: Entry, k: nat, child: Grid, lbl: string, score: int)
    requires IsBoard(start) && Consistent(start, e) && k < 24
    requires child == Apply(MoveAt(k), e.board) && lbl == Label(MoveAt(k))
    requires Measurable(child) && score == Score(Manhattan(child), e.cost + 1)
    ensures Consistent(start, Entry(score, child, e.route + [lbl], e.cost + 1))
  {
    ReplaySnoc(start, e.route, MoveAt(k));
  }

  /** How `solve` ended: the route of a goal board popped from the frontier; or, the
      frontier having run empty, the route of the last board popped (what the loop leaves in
      ttl_route); or the bound on iterations of this model ran out. */
  datatype Outcome = Solved(route: seq<string>) | Exhausted(route: seq<string>) | OutOfFuel

  /** solve: best-first search from start. Pops an entry of least score; returns its route if
      its board is the goal; otherwise, unless the board has been expanded before, pushes its
      24 children with cost + 1 and the label appended to the route, and marks it visited.
      The loop runs at most fuel times. */
  method Solve(start: Grid, fuel: nat) returns (outcome: Outcome, ghost expanded: seq<Grid>)
    requires IsBoard(start)
    ensures outcome.Solved? ==>
      Replay(start, outcome.route).Some? && IsGoalBoard(Replay(start, outcome.route).value)
    ensures outcome.Exhausted? ==> Replay(start, outcome.route).Some?
    ensures IsGoalBoard(start) && fuel > 0 ==> outcome == Solved([])
    ensures forall i, j :: 0 <= i < j < |expanded| ==> expanded[i] != expanded[j]
    ensures forall b :: b in expanded ==> IsBoard(b) && !IsGoalBoard(b)
    ensures forall b :: b in expanded ==> exists route :: Replay(start, route) == Some(b)
  {
    var evaluation := EvalFunc(start, 0);
    var initial := Entry(evaluation, start, [], 0);
    var priorQue := [initial];
    var visSts: set<Grid> := {};
    expanded := [];
    var ttlRoute: seq<string> := [];
    var steps := 0;
    while |priorQue| > 0 && steps < fuel
      invariant forall e :: e in priorQue ==> Consistent(start, e)
      invariant Replay(start, ttlRoute).Some?
      invariant forall b :: b in visSts <==> b in expanded
      invariant forall i, j :: 0 <= i < j < |expanded| ==> expanded[i] != expanded[j]
      invariant forall b :: b in expanded ==> IsBoard(b) && !IsGoalBoard(b)
      invariant forall b :: b in expanded ==> exists route :: Replay(start, route) == Some(b)
      invariant steps == 0 ==> priorQue == [initial]
      invariant steps > 0 ==> !IsGoalBoard(start)
      decreases fuel - steps
    {
      var e, rest := PopMin(priorQue);
      assert Consistent(start, e);
      priorQue := rest;
      ttlRoute := e.route;
      var goal := IsGoal(e.board);
      if goal {
        outcome := Solved(e.route);
        return;
      }
      var children := Successors(e.board);
      if e.board !in visSts {
        for k := 0 to 24
          invariant forall x :: x in priorQue ==> Consistent(start, x)
        {
          var elmRoute := e.route;
          var successorSts := children[k].0;
          var extendedRoute := children[k].1;
          elmRoute := elmRoute + [extendedRoute];
          ManhattanZeroIffGoal(successorSts);
          var score := EvalFunc(successorSts, e.cost + 1);
          ChildConsistent(start, e, k, successorSts, extendedRoute, score);
          priorQue := priorQue + [Entry(score, successorSts, elmRoute, e.cost + 1)];
        }
        assert Replay(start, e.route) == Some(e.board);
        visSts := visSts + {e.board};
        expanded := expanded + [e.board];
      }
      steps := steps + 1;
    }
    if |priorQue| == 0 {
      outcome := Exhausted(ttlRoute);
    } else {
      outcome := OutOfFuel;
    }
  }
}
