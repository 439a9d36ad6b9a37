/** The 24 moves of the 5 x 5 puzzle, their labels ("R1" ... "Icc"), the board each one
    produces, and the replay of a route of labels. */
module Moves {
  import opened Grid
  import opened Rotate

  datatype Option<T> = None | Some(value: T)

  /** ROWS and COLS of solver2023.py. */
  const Rows: nat := 5
  const Cols: nat := 5

  /** A row or column number, 0 .. 4. */
  type Index = k: nat | k < 5

  /** A board is a 5 x 5 grid. */
  predicate IsBoard(g: Grid) {
    IsGrid(g, Rows, Cols)
  }

  /** Right(r) and Left(r) shift row r (labels R, L), Up(c) and Down(c) shift column c
      (labels U, D), and the last four turn the outer or inner ring. */
  datatype Move =
    | Right(row: Index) | Left(row: Index)
    | Up(col: Index) | Down(col: Index)
    | OuterCw | OuterCcw | InnerCw | InnerCcw

  /** The board a move produces, exactly as successors() computes it. */
  function Apply(m: Move, g: Grid): (b: Grid)
    requires IsBoard(g)
    ensures IsBoard(b)
  {
    match m
    case Right(r) => RowMoveShape(g, 5, 5, r); MoveRight(g, r)
    case Left(r) => RowMoveShape(g, 5, 5, r); MoveLeft(g, r)
    case Up(c) => MinLenOfGrid(g, 5, 5); ColumnUp(g, c)
    case Down(c) => MinLenOfGrid(g, 5, 5); ColumnDown(g, c)
    case OuterCw => ClockwiseAt(g); Clockwise(g)
    case OuterCcw => CounterClockwiseAt(g); CounterClockwise(g)
    case InnerCw => InnerClockwise(g)
    case InnerCcw => InnerCounterClockwise(g)
  }

  /** The move that undoes m. */
  function Inverse(m: Move): Move {
    match m
    case Right(r) => Left(r)
    case Left(r) => Right(r)
    case Up(c) => Down(c)
    case Down(c) => Up(c)
    case OuterCw => OuterCcw
    case OuterCcw => OuterCw
    case InnerCw => InnerCcw
    case InnerCcw => InnerCw
  }

  /** Every move is undone by its inverse. */
  lemma ApplyInverse(m: Move, g: Grid)
    requires IsBoard(g)
    ensures Apply(Inverse(m), Apply(m, g)) == g
  {
    match m
    case Right(r) => RowMovesInverse(g, r);
    case Left(r) => RowMovesInverse(g, r);
    case Up(c) => ColumnMovesInverse(g, 5, 5, c);
    case Down(c) => ColumnMovesInverse(g, 5, 5, c);
    case OuterCw => RingTurnsInverse(g);
    case OuterCcw => RingTurnsInverse(g);
    case InnerCw => InnerTurnsInverse(g);
    case InnerCcw => InnerTurnsInverse(g);
  }

  // ---------------------------------------------------------------------------------
  // Labels

  /** The digit of row or column k, counted from 1: `str(k + 1)`. */
  function Digit(k: Index): (c: char)
    ensures '1' <= c <= '5'
  {
    ('1' as int + k) as char
  }

  /** The label successors() pairs with a move: a letter and the 1-based row or column
      number, or one of the four ring labels. */
  function Label(m: Move): (l: string)
    ensures (|l| == 2 && l[0] in "RLUD" && '1' <= l[1] <= '5') || l in {"Oc", "Occ", "Ic", "Icc"}
  {
    match m
    case Right(r) => "R" + [Digit(r)]
    case Left(r) => "L" + [Digit(r)]
    case Up(c) => "U" + [Digit(c)]
    case Down(c) => "D" + [Digit(c)]
    case OuterCw => "Oc"
    case OuterCcw => "Occ"
    case InnerCw => "Ic"
    case InnerCcw => "Icc"
  }

  /** Reads a label back: R|L|U|D followed by 1-5, or Oc, Occ, Ic, Icc. */
  function ParseLabel(s: string): Option<Move> {
    if s == "Oc" then Some(OuterCw)
    else if s == "Occ" then Some(OuterCcw)
    else if s == "Ic" then Some(InnerCw)
    else if s == "Icc" then Some(InnerCcw)
    else if |s| == 2 && '1' <= s[1] <= '5' then
      var k := (s[1] as int - '1' as int) as Index;
      if s[0] == 'R' then Some(Right(k))
      else if s[0] == 'L' then Some(Left(k))
      else if s[0] == 'U' then Some(Up(k))
      else if s[0] == 'D' then Some(Down(k))
      else None
    else None
  }

  /** Labels and moves correspond one to one: parsing a label gives its move back, and a
      string parses to a move only if it is that move's label. */
  lemma LabelRoundTrip(m: Move, s: string)
    ensures ParseLabel(Label(m)) == Some(m)
    ensures ParseLabel(s) == Some(m) ==> s == Label(m)
  {
    match m {
      case Right(r) => assert Label(m)[1] == Digit(r);
      case Left(r) => assert Label(m)[1] == Digit(r);
      case Up(c) => assert Label(m)[1] == Digit(c);
      case Down(c) => assert Label(m)[1] == Digit(c);
      case _ =>
    }
    if ParseLabel(s) == Some(m) && |s| == 2 {
      assert s == [s[0], s[1]];
    }
  }

  lemma LabelsDistinct(m1: Move, m2: Move)
    requires m1 != m2
    ensures Label(m1) != Label(m2)
  {
    LabelRoundTrip(m1, Label(m1));
    LabelRoundTrip(m2, Label(m2));
  }

  // ---------------------------------------------------------------------------------
  // The order of successors()

  /** The k-th move successors() generates: R1, L1, ..., R5, L5, U1, D1, ..., U5, D5, Oc,
      Occ, Ic, Icc. */
  function MoveAt(k: nat): Move
    requires k < 24
  {
    if k < 10 then (if k % 2 == 0 then Right(k / 2) else Left(k / 2))
    else if k < 20 then (if k % 2 == 0 then Up((k - 10) / 2) else Down((k - 10) / 2))
    else if k == 20 then OuterCw
    else if k == 21 then OuterCcw
    else if k == 22 then InnerCw
    else InnerCcw
  }

  /** The position of a move in that order. */
  function MoveIndex(m: Move): (k: nat)
    ensures k < 24
  {
    match m
    case Right(r) => 2 * r
    case Left(r) => 2 * r + 1
    case Up(c) => 10 + 2 * c
    case Down(c) => 11 + 2 * c
    case OuterCw => 20
    case OuterCcw => 21
    case InnerCw => 22
    case InnerCcw => 23
  }

  /** Every move appears exactly once among the 24. */
  lemma MoveOrderBijective(m: Move, k: nat)
    requires k < 24
    ensures MoveAt(MoveIndex(m)) == m
    ensures MoveIndex(MoveAt(k)) == k
  {
  }

  /** The 24 labels, in order, are all different. */
  lemma SuccessorLabelsDistinct(k1: nat, k2: nat)
    requires k1 < 24 && k2 < 24 && k1 != k2
    ensures Label(MoveAt(k1)) != Label(MoveAt(k2))
  {
    MoveOrderBijective(MoveAt(k1), k1);
    MoveOrderBijective(MoveAt(k2), k2);
    LabelsDistinct(MoveAt(k1), MoveAt(k2));
  }

  // ---------------------------------------------------------------------------------
  // Which cell each move reads

  /** The cell of the parent board whose value a move puts at (i, j). */
  function Source(m: Move, i: Index, j: Index): (p: (Index, Index)) {
    match m
    case Right(r) => if i == r then (i, if j == 0 then 4 else j - 1) else (i, j)
    case Left(r) => if i == r then (i, if j == 4 then 0 else j + 1) else (i, j)
    case Up(c) => if j == c then (if i == 4 then 0 else i + 1, j) else (i, j)
    case Down(c) => if j == c then (if i == 0 then 4 else i - 1, j) else (i, j)
    case OuterCw => CwSource(5, i, j)
    case OuterCcw => CcwSource(5, i, j)
    case InnerCw =>
      if 0 < i < 4 && 0 < j < 4 then
        var p := CwSource(3, i - 1, j - 1); (p.0 + 1, p.1 + 1)
      else (i, j)
    case InnerCcw =>
      if 0 < i < 4 && 0 < j < 4 then
        var p := CcwSource(3, i - 1, j - 1); (p.0 + 1, p.1 + 1)
      else (i, j)
  }

  lemma InnerClockwiseAt(g: Grid, i: Index, j: Index)
    requires IsBoard(g)
    ensures Apply(InnerCw, g)[i][j] == g[Source(InnerCw, i, j).0][Source(InnerCw, i, j).1]
  {
    ClockwiseAt(Inner(g));
    if 0 < i < 4 && 0 < j < 4 {
      assert InnerClockwise(g)[i][j] == Clockwise(Inner(g))[i - 1][j - 1];
    }
  }

  lemma InnerCounterClockwiseAt(g: Grid, i: Index, j: Index)
    requires IsBoard(g)
    ensures Apply(InnerCcw, g)[i][j] == g[Source(InnerCcw, i, j).0][Source(InnerCcw, i, j).1]
  {
    CounterClockwiseAt(Inner(g));
    if 0 < i < 4 && 0 < j < 4 {
      assert InnerCounterClockwise(g)[i][j] == CounterClockwise(Inner(g))[i - 1][j - 1];
    }
  }

  lemma RowMoveAt(m: Move, g: Grid, i: Index, j: Index)
    requires IsBoard(g) && (m.Right? || m.Left?)
    ensures Apply(m, g)[i][j] == g[Source(m, i, j).0][Source(m, i, j).1]
  {
  }

  lemma ColumnMoveAt(m: Move, g: Grid, i: Index, j: Index)
    requires IsBoard(g) && (m.Up? || m.Down?)
    ensures Apply(m, g)[i][j] == g[Source(m, i, j).0][Source(m, i, j).1]
  {
    MinLenOfGrid(g, 5, 5);
    assert |g| == 5 && |g[0]| == 5;
    if m.Up? {
      var b := ColumnUp(g, m.col);
      assert Apply(m, g) == b && ShiftedUp(g, b, m.col);
      assert b[i][j] == if j != m.col then g[i][j] else if i == 4 then g[0][j] else g[i + 1][j];
    } else {
      var b := ColumnDown(g, m.col);
      assert Apply(m, g) == b && ShiftedDown(g, b, m.col);
      assert b[i][j] == if j != m.col then g[i][j] else if i == 0 then g[4][j] else g[i - 1][j];
    }
  }

  lemma OuterMoveAt(m: Move, g: Grid, i: Index, j: Index)
    requires IsBoard(g) && (m.OuterCw? || m.OuterCcw?)
    ensures Apply(m, g)[i][j] == g[Source(m, i, j).0][Source(m, i, j).1]
  {
    if m.OuterCw? {
      ClockwiseAt(g);
    } else {
      CounterClockwiseAt(g);
    }
  }

  /** Each move is exactly the permutation of cells that Source describes. */
  lemma ApplyAt(m: Move, g: Grid, i: Index, j: Index)
    requires IsBoard(g)
    ensures Apply(m, g)[i][j] == g[Source(m, i, j).0][Source(m, i, j).1]
  {
    if m.Right? || m.Left? {
      RowMoveAt(m, g, i, j);
    } else if m.Up? || m.Down? {
      ColumnMoveAt(m, g, i, j);
    } else if m.OuterCw? || m.OuterCcw? {
      OuterMoveAt(m, g, i, j);
    } else if m.InnerCw? {
      InnerClockwiseAt(g, i, j);
    } else {
      InnerCounterClockwiseAt(g, i, j);
    }
  }

  lemma RowSourceInverse(r: Index, i: Index, j: Index)
    ensures var p := Source(Right(r), i, j); Source(Left(r), p.0, p.1) == (i, j)
    ensures var p := Source(Left(r), i, j); Source(Right(r), p.0, p.1) == (i, j)
  {
  }

  lemma ColumnSourceInverse(c: Index, i: Index, j: Index)
    ensures var p := Source(Up(c), i, j); Source(Down(c), p.0, p.1) == (i, j)
    ensures var p := Source(Down(c), i, j); Source(Up(c), p.0, p.1) == (i, j)
  {
  }

  lemma OuterSourceInverse(i: Index, j: Index)
    ensures var p := Source(OuterCw, i, j); Source(OuterCcw, p.0, p.1) == (i, j)
    ensures var p := Source(OuterCcw, i, j); Source(OuterCw, p.0, p.1) == (i, j)
  {
    SourcesInverse(5, i, j);
  }

  lemma InnerCwSourceInverse(i: Index, j: Index)
    ensures var p := Source(InnerCw, i, j); Source(InnerCcw, p.0, p.1) == (i, j)
  {
    if 0 < i < 4 && 0 < j < 4 {
      var p := CwSource(3, i - 1, j - 1);
      SourcesInverse(3, i - 1, j - 1);
      assert Source(InnerCw, i, j) == (p.0 + 1, p.1 + 1);
      assert Source(InnerCcw, p.0 + 1, p.1 + 1) == (i, j);
    } else {
      assert Source(InnerCw, i, j) == (i, j);
    }
  }

  lemma InnerCcwSourceInverse(i: Index, j: Index)
    ensures var p := Source(InnerCcw, i, j); Source(InnerCw, p.0, p.1) == (i, j)
  {
    if 0 < i < 4 && 0 < j < 4 {
      var p := CcwSource(3, i - 1, j - 1);
      SourcesInverse(3, i - 1, j - 1);
      assert Source(InnerCcw, i, j) == (p.0 + 1, p.1 + 1);
      assert Source(InnerCw, p.0 + 1, p.1 + 1) == (i, j);
    } else {
      assert Source(InnerCcw, i, j) == (i, j);
    }
  }

  /** The inverse move reads the cells back: Source is a bijection on the 25 cells. */
  lemma SourceInverse(m: Move, i: Index, j: Index)
    ensures var p := Source(m, i, j); Source(Inverse(m), p.0, p.1) == (i, j)
  {
    match m
    case Right(r) => RowSourceInverse(r, i, j);
    case Left(r) => RowSourceInverse(r, i, j);
    case Up(c) => ColumnSourceInverse(c, i, j);
    case Down(c) => ColumnSourceInverse(c, i, j);
    case OuterCw => OuterSourceInverse(i, j);
    case OuterCcw => OuterSourceInverse(i, j);
    case InnerCw => InnerCwSourceInverse(i, j);
    case InnerCcw => InnerCcwSourceInverse(i, j);
  }

  // ---------------------------------------------------------------------------------
  // Moves only permute values

  /** The row of row-major position k. */
  function RowOf(k: nat): (i: Index)
    requires k < 25
    ensures 5 * i <= k < 5 * i + 5
  {
    if k < 5 then 0 else if k < 10 then 1 else if k < 15 then 2 else if k < 20 then 3 else 4
  }

  /** The column of row-major position k. */
  function ColOf(k: nat): (j: Index)
    requires k < 25
    ensures k == 5 * RowOf(k) + j
  {
    k - 5 * RowOf(k)
  }

  /** The row-major position of cell (i, j); RowOf and ColOf read it back. */
  function Pos(i: Index, j: Index): (k: nat)
    ensures k < 25 && RowOf(k) == i && ColOf(k) == j
  {
    5 * i + j
  }

  /** The 25 values of a board in row-major order. */
  function Flat(g: Grid): (s: seq<int>)
    requires IsBoard(g)
    ensures |s| == 25
  {
    seq(25, k requires 0 <= k < 25 => g[RowOf(k)][ColOf(k)])
  }

  /** The multiset of values on a board. */
  function Cells(g: Grid): multiset<int>
    requires IsBoard(g)
  {
    multiset(Flat(g))
  }

  /** A board holding each of 1 .. 25 exactly once. */
  predicate IsPermutationBoard(g: Grid) {
    IsBoard(g) && Cells(g) == multiset(seq(25, k => k + 1))
  }

  /** A sequence obtained from s by an injective choice of positions has the same
      multiset of values. */
  lemma {:induction false} PermutedMultiset(s: seq<int>, t: seq<int>, p: seq<nat>)
    requires |t| == |s| == |p|
    requires forall k :: 0 <= k < |p| ==> p[k] < |s|
    requires forall k1, k2 :: 0 <= k1 < k2 < |p| ==> p[k1] != p[k2]
    requires forall k :: 0 <= k < |t| ==> t[k] == s[p[k]]
    ensures multiset(t) == multiset(s)
  {
    if |s| > 0 {
      var n := |s| - 1;
      var m := p[n];
      var s' := s[..m] + s[m + 1..];
      var t' := t[..n];
      var p' := seq(n, k requires 0 <= k < n => if p[k] > m then p[k] - 1 else p[k]);
      forall k | 0 <= k < n ensures t'[k] == s'[p'[k]] {
        assert p[k] != m;
      }
      PermutedMultiset(s', t', p');
      assert s == s[..m] + [s[m]] + s[m + 1..];
      assert t == t' + [t[n]];
    }
  }

  /** For each row-major position of the new board, the row-major position it reads. */
  function Positions(m: Move): (p: seq<nat>)
    ensures |p| == 25 && forall k :: 0 <= k < 25 ==> p[k] < 25
  {
    seq(25, k requires 0 <= k < 25 => var q := Source(m, RowOf(k), ColOf(k)); Pos(q.0, q.1))
  }

  lemma PositionsRead(m: Move, g: Grid, k: nat)
    requires IsBoard(g) && k < 25
    ensures Flat(Apply(m, g))[k] == Flat(g)[Positions(m)[k]]
  {
    var i, j := RowOf(k), ColOf(k);
    var q := Source(m, i, j);
    ApplyAt(m, g, i, j);
    assert Positions(m)[k] == Pos(q.0, q.1);
    assert Flat(g)[Pos(q.0, q.1)] == g[q.0][q.1];
  }

  lemma PositionsInjective(m: Move, k1: nat, k2: nat)
    requires k1 < 25 && k2 < 25 && k1 != k2
    ensures Positions(m)[k1] != Positions(m)[k2]
  {
    var i1, j1, i2, j2 := RowOf(k1), ColOf(k1), RowOf(k2), ColOf(k2);
    assert (i1, j1) != (i2, j2);
    var q1, q2 := Source(m, i1, j1), Source(m, i2, j2);
    SourceInverse(m, i1, j1);
    SourceInverse(m, i2, j2);
    assert q1 != q2;
    assert Positions(m)[k1] == Pos(q1.0, q1.1) && Positions(m)[k2] == Pos(q2.0, q2.1);
  }

  /** Every move keeps the multiset of values on the board. */
  lemma ApplyKeepsCells(m: Move, g: Grid)
    requires IsBoard(g)
    ensures Cells(Apply(m, g)) == Cells(g)
  {
    var p := Positions(m);
    forall k | 0 <= k < 25 ensures Flat(Apply(m, g))[k] == Flat(g)[p[k]] {
      PositionsRead(m, g, k);
    }
    forall k1, k2 | 0 <= k1 < k2 < 25 ensures p[k1] != p[k2] {
      PositionsInjective(m, k1, k2);
    }
    PermutedMultiset(Flat(g), Flat(Apply(m, g)), p);
  }

  /** So a permutation of 1 .. 25 stays a permutation of 1 .. 25. */
  lemma ApplyKeepsPermutation(m: Move, g: Grid)
    requires IsPermutationBoard(g)
    ensures IsPermutationBoard(Apply(m, g))
  {
    ApplyKeepsCells(m, g);
  }

  // ---------------------------------------------------------------------------------
  // Routes

  /** The board reached by applying the labels of route in order, or None if a label is
      not one of the 24. */
  function Replay(g: Grid, route: seq<string>): (r: Option<Grid>)
    requires IsBoard(g)
    ensures r.Some? ==> IsBoard(r.value) && Cells(r.value) == Cells(g)
    decreases |route|
  {
    if route == [] then Some(g)
    else match ParseLabel(route[0])
      case None => None
      case Some(m) => ApplyKeepsCells(m, g); Replay(Apply(m, g), route[1..])
  }

  /** Extending a route by one label applies that label's move last. */
  lemma {:induction false} ReplaySnoc(g: Grid, route: seq<string>, m: Move)
    requires IsBoard(g) && Replay(g, route).Some?
    ensures Replay(g, route + [Label(m)]) == Some(Apply(m, Replay(g, route).value))
    decreases |route|
  {
    LabelRoundTrip(m, Label(m));
    if route == [] {
      assert [Label(m)][1..] == [];
    } else {
      var m0 := ParseLabel(route[0]).value;
      assert (route + [Label(m)])[1..] == route[1..] + [Label(m)];
      ReplaySnoc(Apply(m0, g), route[1..], m);
    }
  }
}
