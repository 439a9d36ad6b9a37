/** Rotation of the outer ring of a square grid by threading one "residual" cell down the
    four sides (move_clockwise / move_cclockwise of solver2023.py), and the same rotation
    applied to the inner sub-grid. */
module Rotate {
  import opened Grid

  /** b and out are what rotate_left leaves: rsdl inserted just before the last cell of
      row r and the first cell popped. The row shifts left by one, rsdl lands second to
      last, the last cell stays, the first cell is returned; other rows are unchanged. */
  ghost predicate IsLeftRotation(brd: Grid, r: nat, rsdl: int, b: Grid, out: int) {
    r < |brd| && |brd[r]| > 0 &&
    |b| == |brd| && (forall k :: 0 <= k < |brd| && k != r ==> b[k] == brd[k]) &&
    |b[r]| == |brd[r]| && b[r][|brd[r]| - 1] == brd[r][|brd[r]| - 1] &&
    (forall j :: 0 <= j < |brd[r]| - 2 ==> b[r][j] == brd[r][j + 1]) &&
    (|brd[r]| >= 2 ==> b[r][|brd[r]| - 2] == rsdl && out == brd[r][0]) &&
    (|brd[r]| == 1 ==> out == rsdl)
  }

  /** b and out are what rotate_right leaves: rsdl inserted just after the first cell of
      row r and the last cell popped. The row shifts right by one, rsdl lands second, the
      first cell stays, the last cell is returned; other rows are unchanged. */
  ghost predicate IsRightRotation(brd: Grid, r: nat, rsdl: int, b: Grid, out: int) {
    r < |brd| && |brd[r]| > 0 &&
    |b| == |brd| && (forall k :: 0 <= k < |brd| && k != r ==> b[k] == brd[k]) &&
    |b[r]| == |brd[r]| && b[r][0] == brd[r][0] &&
    (forall j :: 2 <= j < |brd[r]| ==> b[r][j] == brd[r][j - 1]) &&
    (|brd[r]| >= 2 ==> b[r][1] == rsdl && out == brd[r][|brd[r]| - 1]) &&
    (|brd[r]| == 1 ==> out == rsdl)
  }

  /** rotate_left: row r of brd is replaced in place and the popped cell returned. */
  method RotateLeft(brd: Grid, r: nat, rsdl: int) returns (b: Grid, out: int)
    requires r < |brd| && |brd[r]| > 0
    ensures IsLeftRotation(brd, r, rsdl, b, out)
  {
    var row := brd[r];
    var grown := row[..|row| - 1] + [rsdl] + [row[|row| - 1]];
    out := grown[0];
    b := brd[r := grown[1..]];
  }

  /** rotate_right: row r of brd is replaced in place and the popped cell returned. */
  method RotateRight(brd: Grid, r: nat, rsdl: int) returns (b: Grid, out: int)
    requires r < |brd| && |brd[r]| > 0
    ensures IsRightRotation(brd, r, rsdl, b, out)
  {
    var row := brd[r];
    var grown := [row[0]] + [rsdl] + row[1..];
    out := grown[|grown| - 1];
    b := brd[r := grown[..|grown| - 1]];
  }

  /** The cell whose value moves into (i, j) when the ring of an n x n grid turns one
      step clockwise: the top row shifts right, the right column down, the bottom row
      left and the left column up; interior cells keep their value. */
  function CwSource(n: nat, i: nat, j: nat): (p: (nat, nat))
    requires n >= 2 && i < n && j < n
    ensures p.0 < n && p.1 < n
  {
    if i == 0 && j > 0 then (0, j - 1)
    else if j == n - 1 && i > 0 then (i - 1, n - 1)
    else if i == n - 1 && j < n - 1 then (n - 1, j + 1)
    else if j == 0 && i < n - 1 then (i + 1, 0)
    else (i, j)
  }

  /** The cell whose value moves into (i, j) when the ring turns one step counter-clockwise. */
  function CcwSource(n: nat, i: nat, j: nat): (p: (nat, nat))
    requires n >= 2 && i < n && j < n
    ensures p.0 < n && p.1 < n
  {
    if i == 0 && j < n - 1 then (0, j + 1)
    else if j == 0 && i > 0 then (i - 1, 0)
    else if i == n - 1 && j > 0 then (n - 1, j - 1)
    else if j == n - 1 && i < n - 1 then (i + 1, n - 1)
    else (i, j)
  }

  /** The two cell maps are inverse to each other. */
  lemma SourcesInverse(n: nat, i: nat, j: nat)
    requires n >= 2 && i < n && j < n
    ensures CcwSource(n, CwSource(n, i, j).0, CwSource(n, i, j).1) == (i, j)
    ensures CwSource(n, CcwSource(n, i, j).0, CcwSource(n, i, j).1) == (i, j)
  {
  }

  /** The outer ring of a square grid turned one step clockwise. */
  function Clockwise(g: Grid): (c: Grid)
    requires IsGrid(g, |g|, |g|) && |g| >= 2
  {
    var n := |g|;
    seq(n, i requires 0 <= i < n =>
      seq(n, j requires 0 <= j < n => g[CwSource(n, i, j).0][CwSource(n, i, j).1]))
  }

  /** The outer ring of a square grid turned one step counter-clockwise. */
  function CounterClockwise(g: Grid): (c: Grid)
    requires IsGrid(g, |g|, |g|) && |g| >= 2
  {
    var n := |g|;
    seq(n, i requires 0 <= i < n =>
      seq(n, j requires 0 <= j < n => g[CcwSource(n, i, j).0][CcwSource(n, i, j).1]))
  }

  lemma ClockwiseAt(g: Grid)
    requires IsGrid(g, |g|, |g|) && |g| >= 2
    ensures IsGrid(Clockwise(g), |g|, |g|)
    ensures forall i, j :: 0 <= i < |g| && 0 <= j < |g| ==>
      Clockwise(g)[i][j] == g[CwSource(|g|, i, j).0][CwSource(|g|, i, j).1]
  {
  }

  lemma CounterClockwiseAt(g: Grid)
    requires IsGrid(g, |g|, |g|) && |g| >= 2
    ensures IsGrid(CounterClockwise(g), |g|, |g|)
    ensures forall i, j :: 0 <= i < |g| && 0 <= j < |g| ==>
      CounterClockwise(g)[i][j] == g[CcwSource(|g|, i, j).0][CcwSource(|g|, i, j).1]
  {
  }

  /** Whether cell (i, j) lies on one of the first `sides` sides in the order the source
      treats them: top row, right column, bottom row, left column. */
  predicate OnSides(n: nat, i: nat, j: nat, sides: nat) {
    (sides >= 1 && i == 0) || (sides >= 2 && j == n - 1) ||
    (sides >= 3 && i == n - 1) || (sides >= 4 && j == 0)
  }

  /** b is g with the cells of the first `sides` sides already turned clockwise. */
  ghost predicate CwDone(b: Grid, g: Grid, n: nat, sides: nat)
    requires IsGrid(g, n, n) && n >= 2
  {
    IsGrid(b, n, n) &&
    forall i, j :: 0 <= i < n && 0 <= j < n ==>
      b[i][j] == if OnSides(n, i, j, sides) then g[CwSource(n, i, j).0][CwSource(n, i, j).1]
                 else g[i][j]
  }

  /** b is g with the cells of the first `sides` sides, in the counter-clockwise order
      (top row, left column, bottom row, right column), already turned. */
  ghost predicate CcwDone(b: Grid, g: Grid, n: nat, sides: nat)
    requires IsGrid(g, n, n) && n >= 2
  {
    IsGrid(b, n, n) &&
    forall i, j :: 0 <= i < n && 0 <= j < n ==>
      b[i][j] == if OnSides(n, i, n - 1 - j, sides) then g[CcwSource(n, i, j).0][CcwSource(n, i, j).1]
                 else g[i][j]
  }

  // The four sides of move_clockwise, one lemma each.

  lemma CwTop(g: Grid, n: nat)
    requires IsGrid(g, n, n) && n >= 2
    ensures CwDone(g[0 := ([g[1][0]] + g[0])[..n]], g, n, 1)
  {
  }

  lemma CwRight(g: Grid, n: nat, b1: Grid, rsdl: int, b3: Grid, out: int)
    requires IsGrid(g, n, n) && n >= 2
    requires CwDone(b1, g, n, 1) && rsdl == g[0][n - 1]
    requires IsGrid(Transpose(b1), n, n) && IsRightRotation(Transpose(b1), n - 1, rsdl, b3, out)
    ensures IsGrid(b3, n, n) && CwDone(Transpose(b3), g, n, 2) && out == g[n - 1][n - 1]
  {
    var b2 := Transpose(b1);
    TransposeShape(b3, n, n);
    var b4 := Transpose(b3);
    forall i, j | 0 <= i < n && 0 <= j < n
      ensures b4[i][j] == if OnSides(n, i, j, 2) then g[CwSource(n, i, j).0][CwSource(n, i, j).1]
                          else g[i][j]
    {
      assert b4[i][j] == b3[j][i];
      if j != n - 1 {
        assert b3[j][i] == b2[j][i] == b1[i][j];
      } else if i >= 2 {
        assert b3[j][i] == b2[j][i - 1] == b1[i - 1][j];
      } else if i == 0 {
        assert b3[j][i] == b2[j][i] == b1[i][j];
      }
    }
    assert b2[n - 1][n - 1] == b1[n - 1][n - 1];
  }

  lemma CwBottom(g: Grid, n: nat, b4: Grid, rsdl: int, b5: Grid, out: int)
    requires IsGrid(g, n, n) && n >= 2
    requires CwDone(b4, g, n, 2) && rsdl == g[n - 1][n - 1]
    requires IsLeftRotation(b4, n - 1, rsdl, b5, out)
    ensures CwDone(b5, g, n, 3) && out == g[n - 1][0]
  {
    assert b4[n - 1][0] == g[n - 1][0];
  }

  lemma CwLeft(g: Grid, n: nat, b5: Grid, rsdl: int, b7: Grid, out: int)
    requires IsGrid(g, n, n) && n >= 2
    requires CwDone(b5, g, n, 3) && rsdl == g[n - 1][0]
    requires IsGrid(Transpose(b5), n, n) && IsLeftRotation(Transpose(b5), 0, rsdl, b7, out)
    ensures IsGrid(b7, n, n) && Transpose(b7) == Clockwise(g)
  {
    var b6 := Transpose(b5);
    TransposeShape(b7, n, n);
    var b8 := Transpose(b7);
    forall i, j | 0 <= i < n && 0 <= j < n
      ensures b8[i][j] == g[CwSource(n, i, j).0][CwSource(n, i, j).1]
    {
      assert b8[i][j] == b7[j][i];
      if j != 0 {
        assert b7[j][i] == b6[j][i] == b5[i][j];
      } else if i < n - 2 {
        assert b7[j][i] == b6[j][i + 1] == b5[i + 1][j];
      } else if i == n - 1 {
        assert b7[j][i] == b6[j][i] == b5[i][j];
      }
    }
    ClockwiseAt(g);
    GridExt(b8, Clockwise(g), n, n);
  }

  /** move_clockwise: the top row takes the cell below its left end and shifts right,
      popping a residual; the residual is then threaded down the right column, along the
      bottom row and up the left column, with a transpose before and after each column. */
  method MoveClockwise(sts: Grid) returns (brd: Grid)
    requires IsGrid(sts, |sts|, |sts|) && |sts| >= 2
    ensures brd == Clockwise(sts)
  {
    var n := |sts|;
    brd := sts;
    var top := [brd[1][0]] + brd[0];
    var rsdl := top[|top| - 1];
    brd := brd[0 := top[..|top| - 1]];
    CwTop(sts, n);
    var b1 := brd;
    TransposeShape(b1, n, n);
    brd := Transpose(brd);
    var out;
    brd, out := RotateRight(brd, n - 1, rsdl);
    CwRight(sts, n, b1, rsdl, brd, out);
    rsdl := out;
    brd := Transpose(brd);
    var b4 := brd;
    brd, out := RotateLeft(brd, n - 1, rsdl);
    CwBottom(sts, n, b4, rsdl, brd, out);
    rsdl := out;
    var b5 := brd;
    TransposeShape(b5, n, n);
    brd := Transpose(brd);
    brd, out := RotateLeft(brd, 0, rsdl);
    CwLeft(sts, n, b5, rsdl, brd, out);
    rsdl := out;
    brd := Transpose(brd);
  }

  // The four sides of move_cclockwise, one lemma each.

  lemma CcwTop(g: Grid, n: nat)
    requires IsGrid(g, n, n) && n >= 2
    ensures CcwDone(g[0 := (g[0] + [g[1][n - 1]])[1..]], g, n, 1)
  {
  }

  lemma CcwLeft(g: Grid, n: nat, b1: Grid, rsdl: int, b3: Grid, out: int)
    requires IsGrid(g, n, n) && n >= 2
    requires CcwDone(b1, g, n, 1) && rsdl == g[0][0]
    requires IsGrid(Transpose(b1), n, n) && IsRightRotation(Transpose(b1), 0, rsdl, b3, out)
    ensures IsGrid(b3, n, n) && CcwDone(Transpose(b3), g, n, 2) && out == g[n - 1][0]
  {
    var b2 := Transpose(b1);
    TransposeShape(b3, n, n);
    var b4 := Transpose(b3);
    forall i, j | 0 <= i < n && 0 <= j < n
      ensures b4[i][j] == if OnSides(n, i, n - 1 - j, 2) then g[CcwSource(n, i, j).0][CcwSource(n, i, j).1]
                          else g[i][j]
    {
      assert b4[i][j] == b3[j][i];
      if j != 0 {
        assert b3[j][i] == b2[j][i] == b1[i][j];
      } else if i >= 2 {
        assert b3[j][i] == b2[j][i - 1] == b1[i - 1][j];
      } else if i == 0 {
        assert b3[j][i] == b2[j][i] == b1[i][j];
      }
    }
    assert b2[0][n - 1] == b1[n - 1][0];
  }

  lemma CcwBottom(g: Grid, n: nat, b4: Grid, rsdl: int, b5: Grid, out: int)
    requires IsGrid(g, n, n) && n >= 2
    requires CcwDone(b4, g, n, 2) && rsdl == g[n - 1][0]
    requires IsRightRotation(b4, n - 1, rsdl, b5, out)
    ensures CcwDone(b5, g, n, 3) && out == g[n - 1][n - 1]
  {
    assert b4[n - 1][n - 1] == g[n - 1][n - 1];
  }

  lemma CcwRight(g: Grid, n: nat, b5: Grid, rsdl: int, b7: Grid, out: int)
    requires IsGrid(g, n, n) && n >= 2
    requires CcwDone(b5, g, n, 3) && rsdl == g[n - 1][n - 1]
    requires IsGrid(Transpose(b5), n, n) && IsLeftRotation(Transpose(b5), n - 1, rsdl, b7, out)
    ensures IsGrid(b7, n, n) && Transpose(b7) == CounterClockwise(g)
  {
    var b6 := Transpose(b5);
    TransposeShape(b7, n, n);
    var b8 := Transpose(b7);
    forall i, j | 0 <= i < n && 0 <= j < n
      ensures b8[i][j] == g[CcwSource(n, i, j).0][CcwSource(n, i, j).1]
    {
      assert b8[i][j] == b7[j][i];
      if j != n - 1 {
        assert b7[j][i] == b6[j][i] == b5[i][j];
      } else if i < n - 2 {
        assert b7[j][i] == b6[j][i + 1] == b5[i + 1][j];
      } else if i == n - 1 {
        assert b7[j][i] == b6[j][i] == b5[i][j];
      }
    }
    CounterClockwiseAt(g);
    GridExt(b8, CounterClockwise(g), n, n);
  }

  /** move_cclockwise: the mirror image of MoveClockwise (top row left, left column down,
      bottom row right, right column up). */
  method MoveCClockwise(sts: Grid) returns (brd: Grid)
    requires IsGrid(sts, |sts|, |sts|) && |sts| >= 2
    ensures brd == CounterClockwise(sts)
  {
    var n := |sts|;
    brd := sts;
    var top := brd[0] + [brd[1][n - 1]];
    var rsdl := top[0];
    brd := brd[0 := top[1..]];
    CcwTop(sts, n);
    var b1 := brd;
    TransposeShape(b1, n, n);
    brd := Transpose(brd);
    var out;
    brd, out := RotateRight(brd, 0, rsdl);
    CcwLeft(sts, n, b1, rsdl, brd, out);
    rsdl := out;
    brd := Transpose(brd);
    var b4 := brd;
    brd, out := RotateRight(brd, n - 1, rsdl);
    CcwBottom(sts, n, b4, rsdl, brd, out);
    rsdl := out;
    var b5 := brd;
    TransposeShape(b5, n, n);
    brd := Transpose(brd);
    brd, out := RotateLeft(brd, n - 1, rsdl);
    CcwRight(sts, n, b5, rsdl, brd, out);
    rsdl := out;
    brd := Transpose(brd);
  }

  /** Clockwise and CounterClockwise undo each other. */
  lemma RingTurnsInverse(g: Grid)
    requires IsGrid(g, |g|, |g|) && |g| >= 2
    ensures CounterClockwise(Clockwise(g)) == g
    ensures Clockwise(CounterClockwise(g)) == g
  {
    var n := |g|;
    ClockwiseAt(g);
    CounterClockwiseAt(g);
    var c, cc := Clockwise(g), CounterClockwise(g);
    ClockwiseAt(cc);
    CounterClockwiseAt(c);
    forall i, j | 0 <= i < n && 0 <= j < n
      ensures CounterClockwise(c)[i][j] == g[i][j] && Clockwise(cc)[i][j] == g[i][j]
    {
      SourcesInverse(n, i, j);
    }
    GridExt(CounterClockwise(c), g, n, n);
    GridExt(Clockwise(cc), g, n, n);
  }

  /** The k-th cell of the ring of an n x n grid, walking clockwise from the top-left
      corner: along the top row, down the right column, back along the bottom row and up
      the left column. */
  function RingCell(n: nat, k: nat): (p: (nat, nat))
    requires n >= 2 && k < 4 * (n - 1)
    ensures p.0 < n && p.1 < n && OnSides(n, p.0, p.1, 4)
  {
    if k < n - 1 then (0, k)
    else if k < 2 * (n - 1) then (k - (n - 1), n - 1)
    else if k < 3 * (n - 1) then (n - 1, 3 * (n - 1) - k)
    else (4 * (n - 1) - k, 0)
  }

  /** The position of a ring cell in the clockwise walk. */
  function RingIndex(n: nat, i: nat, j: nat): (k: nat)
    requires n >= 2 && i < n && j < n && OnSides(n, i, j, 4)
    ensures k < 4 * (n - 1)
  {
    if i == 0 && j < n - 1 then j
    else if j == n - 1 && i < n - 1 then (n - 1) + i
    else if i == n - 1 && j > 0 then 3 * (n - 1) - j
    else 4 * (n - 1) - i
  }

  /** The walk visits every ring cell exactly once: RingIndex undoes RingCell ... */
  lemma RingIndexOfCell(n: nat, k: nat)
    requires n >= 2 && k < 4 * (n - 1)
    ensures RingIndex(n, RingCell(n, k).0, RingCell(n, k).1) == k
  {
  }

  /** ... and RingCell undoes RingIndex. */
  lemma RingCellOfIndex(n: nat, i: nat, j: nat)
    requires n >= 2 && i < n && j < n && OnSides(n, i, j, 4)
    ensures RingCell(n, RingIndex(n, i, j)) == (i, j)
  {
  }

  /** The ring of a square grid read as a cyclic sequence of 4(n - 1) values. */
  function Ring(g: Grid): (s: seq<int>)
    requires IsGrid(g, |g|, |g|) && |g| >= 2
    ensures |s| == 4 * (|g| - 1)
  {
    var n := |g|;
    seq(4 * (n - 1), k requires 0 <= k < 4 * (n - 1) => g[RingCell(n, k).0][RingCell(n, k).1])
  }

  /** Clockwise turns the ring sequence one place to the right (its last value comes
      first) and leaves every interior cell unchanged. */
  lemma ClockwiseTurnsRing(g: Grid)
    requires IsGrid(g, |g|, |g|) && |g| >= 2
    ensures IsGrid(Clockwise(g), |g|, |g|)
    ensures var r := Ring(g);
      Ring(Clockwise(g)) == r[|r| - 1..] + r[..|r| - 1]
    ensures forall i, j :: 0 < i < |g| - 1 && 0 < j < |g| - 1 ==> Clockwise(g)[i][j] == g[i][j]
  {
    var n := |g|;
    ClockwiseAt(g);
    var r, rc := Ring(g), Ring(Clockwise(g));
    var L := 4 * (n - 1);
    forall k | 0 <= k < L ensures rc[k] == (r[L - 1..] + r[..L - 1])[k] {
      var p := RingCell(n, k);
      var q := if k == 0 then RingCell(n, L - 1) else RingCell(n, k - 1);
      assert CwSource(n, p.0, p.1) == q;
    }
  }

  /** CounterClockwise turns the ring sequence one place to the left (its first value goes
      last) and leaves every interior cell unchanged. */
  lemma CounterClockwiseTurnsRing(g: Grid)
    requires IsGrid(g, |g|, |g|) && |g| >= 2
    ensures IsGrid(CounterClockwise(g), |g|, |g|)
    ensures var r := Ring(g);
      Ring(CounterClockwise(g)) == r[1..] + r[..1]
    ensures forall i, j :: 0 < i < |g| - 1 && 0 < j < |g| - 1 ==> CounterClockwise(g)[i][j] == g[i][j]
  {
    var n := |g|;
    CounterClockwiseAt(g);
    var r, rc := Ring(g), Ring(CounterClockwise(g));
    var L := 4 * (n - 1);
    forall k | 0 <= k < L ensures rc[k] == (r[1..] + r[..1])[k] {
      var p := RingCell(n, k);
      var q := if k == L - 1 then RingCell(n, 0) else RingCell(n, k + 1);
      assert CcwSource(n, p.0, p.1) == q;
    }
  }

  /** `sts[1:-1, 1:-1]`: the grid without its outer border. */
  function Inner(g: Grid): (s: Grid)
    requires IsGrid(g, |g|, |g|) && |g| >= 2
    ensures IsGrid(s, |g| - 2, |g| - 2)
    ensures forall i, j :: 0 <= i < |g| - 2 && 0 <= j < |g| - 2 ==> s[i][j] == g[i + 1][j + 1]
  {
    var m := |g| - 2;
    seq(m, i requires 0 <= i < m => seq(m, j requires 0 <= j < m => g[i + 1][j + 1]))
  }

  /** `sts[1:-1, 1:-1] = s`: g with its inner sub-grid overwritten by s. */
  function Embed(g: Grid, s: Grid): (e: Grid)
    requires IsGrid(g, |g|, |g|) && |g| >= 2 && IsGrid(s, |g| - 2, |g| - 2)
    ensures IsGrid(e, |g|, |g|)
    ensures forall i, j :: 0 <= i < |g| && 0 <= j < |g| ==>
      e[i][j] == if 0 < i < |g| - 1 && 0 < j < |g| - 1 then s[i - 1][j - 1] else g[i][j]
  {
    var n := |g|;
    seq(n, i requires 0 <= i < n => seq(n, j requires 0 <= j < n =>
      if 0 < i < n - 1 && 0 < j < n - 1 then s[i - 1][j - 1] else g[i][j]))
  }

  /** The inner ring (the ring of the inner sub-grid) turned one step clockwise. */
  function InnerClockwise(g: Grid): (c: Grid)
    requires IsGrid(g, |g|, |g|) && |g| >= 4
  {
    Embed(g, Clockwise(Inner(g)))
  }

  /** The inner ring turned one step counter-clockwise. */
  function InnerCounterClockwise(g: Grid): (c: Grid)
    requires IsGrid(g, |g|, |g|) && |g| >= 4
  {
    Embed(g, CounterClockwise(Inner(g)))
  }

  /** move_inner_ring_clockwise: cut out the inner sub-grid, turn its ring clockwise with
      move_clockwise and write it back. */
  method MoveInnerRingClockwise(brd: Grid) returns (sts: Grid)
    requires IsGrid(brd, |brd|, |brd|) && |brd| >= 4
    ensures sts == InnerClockwise(brd)
  {
    var inner := Inner(brd);
    inner := MoveClockwise(inner);
    sts := Embed(brd, inner);
  }

  /** move_inner_ring_cc_clockwise: the same with move_cclockwise. */
  method MoveInnerRingCClockwise(brd: Grid) returns (sts: Grid)
    requires IsGrid(brd, |brd|, |brd|) && |brd| >= 4
    ensures sts == InnerCounterClockwise(brd)
  {
    var inner := Inner(brd);
    inner := MoveCClockwise(inner);
    sts := Embed(brd, inner);
  }

  /** Writing back the inner sub-grid one has cut out changes nothing, and cutting out
      what was written gives it back. */
  lemma InnerEmbed(g: Grid, s: Grid)
    requires IsGrid(g, |g|, |g|) && |g| >= 2 && IsGrid(s, |g| - 2, |g| - 2)
    ensures Embed(g, Inner(g)) == g
    ensures Inner(Embed(g, s)) == s
  {
    GridExt(Embed(g, Inner(g)), g, |g|, |g|);
    GridExt(Inner(Embed(g, s)), s, |g| - 2, |g| - 2);
  }

  /** The inner clockwise turn keeps the outer border and every cell inside the inner ring,
      and turns the inner ring's sequence one place to the right. */
  lemma InnerClockwiseCells(g: Grid)
    requires IsGrid(g, |g|, |g|) && |g| >= 4
    ensures IsGrid(InnerClockwise(g), |g|, |g|)
    ensures forall i, j :: 0 <= i < |g| && 0 <= j < |g| && OnSides(|g|, i, j, 4) ==>
      InnerClockwise(g)[i][j] == g[i][j]
    ensures forall i, j :: 1 < i < |g| - 2 && 1 < j < |g| - 2 ==> InnerClockwise(g)[i][j] == g[i][j]
    ensures Inner(InnerClockwise(g)) == Clockwise(Inner(g))
    ensures var r := Ring(Inner(g));
      Ring(Inner(InnerClockwise(g))) == r[|r| - 1..] + r[..|r| - 1]
  {
    ClockwiseTurnsRing(Inner(g));
    InnerEmbed(g, Clockwise(Inner(g)));
  }

  /** The inner counter-clockwise turn keeps the outer border and every cell inside the
      inner ring, and turns the inner ring's sequence one place to the left. */
  lemma InnerCounterClockwiseCells(g: Grid)
    requires IsGrid(g, |g|, |g|) && |g| >= 4
    ensures IsGrid(InnerCounterClockwise(g), |g|, |g|)
    ensures forall i, j :: 0 <= i < |g| && 0 <= j < |g| && OnSides(|g|, i, j, 4) ==>
      InnerCounterClockwise(g)[i][j] == g[i][j]
    ensures forall i, j :: 1 < i < |g| - 2 && 1 < j < |g| - 2 ==> InnerCounterClockwise(g)[i][j] == g[i][j]
    ensures Inner(InnerCounterClockwise(g)) == CounterClockwise(Inner(g))
    ensures var r := Ring(Inner(g));
      Ring(Inner(InnerCounterClockwise(g))) == r[1..] + r[..1]
  {
    CounterClockwiseTurnsRing(Inner(g));
    InnerEmbed(g, CounterClockwise(Inner(g)));
  }

  /** The two inner turns undo each other. */
  lemma InnerTurnsInverse(g: Grid)
    requires IsGrid(g, |g|, |g|) && |g| >= 4
    ensures IsGrid(InnerClockwise(g), |g|, |g|) && InnerCounterClockwise(InnerClockwise(g)) == g
    ensures IsGrid(InnerCounterClockwise(g), |g|, |g|) && InnerClockwise(InnerCounterClockwise(g)) == g
  {
    var s := Inner(g);
    ClockwiseAt(s);
    CounterClockwiseAt(s);
    InnerEmbed(g, Clockwise(s));
    InnerEmbed(g, CounterClockwise(s));
    RingTurnsInverse(s);
    var a := InnerClockwise(g);
    var b := InnerCounterClockwise(g);
    assert Inner(a) == Clockwise(s);
    assert Inner(b) == CounterClockwise(s);
    assert Embed(a, s) == g by { GridExt(Embed(a, s), g, |g|, |g|); }
    assert Embed(b, s) == g by { GridExt(Embed(b, s), g, |g|, |g|); }
  }
}
