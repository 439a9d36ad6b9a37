/** Grids of integers as lists of rows, the row moves and transposition of the puzzle
    solver (solver2023.py). A grid is a value: every move returns a new grid. */
module Grid {

  type Grid = seq<seq<int>>

  /** g has h rows, each of width w. */
  predicate IsGrid(g: Grid, h: nat, w: nat) {
    |g| == h && forall i :: 0 <= i < h ==> |g[i]| == w
  }

  /** Two h x w grids with the same cells are equal. */
  lemma GridExt(a: Grid, b: Grid, h: nat, w: nat)
    requires IsGrid(a, h, w) && IsGrid(b, h, w)
    requires forall i, j :: 0 <= i < h && 0 <= j < w ==> a[i][j] == b[i][j]
    ensures a == b
  {
    forall i | 0 <= i < h ensures a[i] == b[i] {
      assert |a[i]| == |b[i]|;
    }
  }

  /** The length of the shortest row: how many columns `zip(*g)` produces. */
  function MinLen(g: Grid): (m: nat)
    ensures forall i :: 0 <= i < |g| ==> m <= |g[i]|
    ensures |g| == 0 ==> m == 0
  {
    if |g| == 0 then 0
    else if |g| == 1 then |g[0]|
    else
      var rest := MinLen(g[1..]);
      assert forall i :: 1 <= i < |g| ==> g[1..][i - 1] == g[i];
      if |g[0]| <= rest then |g[0]| else rest
  }

  /** With at least one row, zip yields as many columns as the shortest row has cells. */
  lemma {:induction false} MinLenAttained(g: Grid)
    requires |g| > 0
    ensures exists i :: 0 <= i < |g| && MinLen(g) == |g[i]|
  {
    if |g| > 1 {
      MinLenAttained(g[1..]);
      var k :| 0 <= k < |g| - 1 && MinLen(g[1..]) == |g[1..][k]|;
      if MinLen(g) != |g[0]| {
        assert MinLen(g) == |g[k + 1]|;
      }
    } else {
      assert MinLen(g) == |g[0]|;
    }
  }

  /** On an h x w grid with at least one row, zip yields exactly w columns. */
  lemma {:induction false} MinLenOfGrid(g: Grid, h: nat, w: nat)
    requires IsGrid(g, h, w) && h > 0
    ensures MinLen(g) == w
  {
    if h > 1 {
      MinLenOfGrid(g[1..], h - 1, w);
    }
  }

  /** `[list(col) for col in zip(*g)]`: column j of g becomes row j; zip stops at the
      shortest row. */
  function Transpose(g: Grid): (t: Grid)
    ensures |t| == MinLen(g)
    ensures forall j :: 0 <= j < |t| ==> |t[j]| == |g|
    ensures forall j, i :: 0 <= j < |t| && 0 <= i < |g| ==> t[j][i] == g[i][j]
  {
    seq(MinLen(g), j requires 0 <= j < MinLen(g) =>
      seq(|g|, i requires 0 <= i < |g| => g[i][j]))
  }

  /** Transposing an h x w grid (h, w >= 1) gives a w x h grid. */
  lemma TransposeShape(g: Grid, h: nat, w: nat)
    requires IsGrid(g, h, w) && h > 0
    ensures IsGrid(Transpose(g), w, h)
  {
    MinLenOfGrid(g, h, w);
  }

  /** Transposition is an involution on grids with at least one row and one column. */
  lemma TransposeInvolution(g: Grid, h: nat, w: nat)
    requires IsGrid(g, h, w) && h > 0 && w > 0
    ensures Transpose(Transpose(g)) == g
  {
    var t := Transpose(g);
    TransposeShape(g, h, w);
    TransposeShape(t, w, h);
    var tt := Transpose(t);
    forall i | 0 <= i < h ensures tt[i] == g[i] {
      assert |tt[i]| == |g[i]|;
      forall j | 0 <= j < w ensures tt[i][j] == g[i][j] {
        assert tt[i][j] == t[j][i];
      }
    }
  }

  /** Row r rotated one cell to the left: its first cell moves to the back. */
  function MoveLeft(g: Grid, r: nat): (b: Grid)
    requires r < |g|
    ensures |b| == |g| && |b[r]| == |g[r]|
    ensures forall k :: 0 <= k < |g| && k != r ==> b[k] == g[k]
    ensures forall j :: 0 <= j < |g[r]| - 1 ==> b[r][j] == g[r][j + 1]
    ensures |g[r]| > 0 ==> b[r][|g[r]| - 1] == g[r][0]
  {
    var row := g[r];
    g[r := if row == [] then [] else row[1..] + row[..1]]
  }

  /** Row r rotated one cell to the right: its last cell moves to the front. */
  function MoveRight(g: Grid, r: nat): (b: Grid)
    requires r < |g|
    ensures |b| == |g| && |b[r]| == |g[r]|
    ensures forall k :: 0 <= k < |g| && k != r ==> b[k] == g[k]
    ensures forall j :: 1 <= j < |g[r]| ==> b[r][j] == g[r][j - 1]
    ensures |g[r]| > 0 ==> b[r][0] == g[r][|g[r]| - 1]
  {
    var row := g[r];
    g[r := if row == [] then [] else row[|row| - 1..] + row[..|row| - 1]]
  }

  /** A row move keeps the shape of the grid. */
  lemma RowMoveShape(g: Grid, h: nat, w: nat, r: nat)
    requires IsGrid(g, h, w) && r < h
    ensures IsGrid(MoveLeft(g, r), h, w) && IsGrid(MoveRight(g, r), h, w)
  {
  }

  /** MoveRight undoes MoveLeft on the same row, and vice versa. */
  lemma RowMovesInverse(g: Grid, r: nat)
    requires r < |g|
    ensures MoveRight(MoveLeft(g, r), r) == g
    ensures MoveLeft(MoveRight(g, r), r) == g
  {
    var a := MoveRight(MoveLeft(g, r), r);
    var b := MoveLeft(MoveRight(g, r), r);
    assert a[r] == g[r];
    assert b[r] == g[r];
  }

  /** b is g with column c moved up one cell, when g is a rectangular grid with at least
      one row: the top cell of the column wraps to the bottom, every other cell keeps its
      place and b has g's shape. */
  predicate ShiftedUp(g: Grid, b: Grid, c: nat) {
    |g| > 0 && IsGrid(g, |g|, |g[0]|) ==>
      IsGrid(b, |g|, |g[0]|) &&
      forall i, j :: 0 <= i < |g| && 0 <= j < |g[0]| ==>
        b[i][j] == (if j != c then g[i][j] else if i == |g| - 1 then g[0][c] else g[i + 1][c])
  }

  /** b is g with column c moved down one cell: the bottom cell wraps to the top. */
  predicate ShiftedDown(g: Grid, b: Grid, c: nat) {
    |g| > 0 && IsGrid(g, |g|, |g[0]|) ==>
      IsGrid(b, |g|, |g[0]|) &&
      forall i, j :: 0 <= i < |g| && 0 <= j < |g[0]| ==>
        b[i][j] == (if j != c then g[i][j] else if i == 0 then g[|g| - 1][c] else g[i - 1][c])
  }

  /** Transpose, row-left on row c, transpose shifts column c up. */
  lemma ColumnUpCells(g: Grid, c: nat)
    requires c < MinLen(g)
    ensures ShiftedUp(g, Transpose(MoveLeft(Transpose(g), c)), c)
  {
    if |g| > 0 && IsGrid(g, |g|, |g[0]|) {
      var h, w := |g|, |g[0]|;
      TransposeShape(g, h, w);
      var t := Transpose(g);
      RowMoveShape(t, w, h, c);
      var m := MoveLeft(t, c);
      TransposeShape(m, w, h);
      var b := Transpose(m);
      forall i, j | 0 <= i < h && 0 <= j < w
        ensures b[i][j] == if j != c then g[i][j] else if i == h - 1 then g[0][c] else g[i + 1][c]
      {
        assert b[i][j] == m[j][i];
        if j != c {
          assert m[j] == t[j];
        } else if i == h - 1 {
          assert m[c][h - 1] == t[c][0];
        } else {
          assert m[c][i] == t[c][i + 1];
        }
      }
    }
  }

  /** Transpose, row-right on row c, transpose shifts column c down. */
  lemma ColumnDownCells(g: Grid, c: nat)
    requires c < MinLen(g)
    ensures ShiftedDown(g, Transpose(MoveRight(Transpose(g), c)), c)
  {
    if |g| > 0 && IsGrid(g, |g|, |g[0]|) {
      var h, w := |g|, |g[0]|;
      TransposeShape(g, h, w);
      var t := Transpose(g);
      RowMoveShape(t, w, h, c);
      var m := MoveRight(t, c);
      TransposeShape(m, w, h);
      var b := Transpose(m);
      forall i, j | 0 <= i < h && 0 <= j < w
        ensures b[i][j] == if j != c then g[i][j] else if i == 0 then g[h - 1][c] else g[i - 1][c]
      {
        assert b[i][j] == m[j][i];
        if j != c {
          assert m[j] == t[j];
        } else if i == 0 {
          assert m[c][0] == t[c][h - 1];
        } else {
          assert m[c][i] == t[c][i - 1];
        }
      }
    }
  }

  /** Column c shifted up one cell (label U), built as solver2023.py builds it: the
      transpose of a row-left move on the transposed grid. On an h x w grid it moves the
      column's top cell to the bottom and leaves every other column unchanged. */
  function ColumnUp(g: Grid, c: nat): (b: Grid)
    requires c < MinLen(g)
    ensures ShiftedUp(g, b, c)
  {
    ColumnUpCells(g, c);
    Transpose(MoveLeft(Transpose(g), c))
  }

  /** Column c shifted down one cell (label D): the bottom cell wraps to the top. */
  function ColumnDown(g: Grid, c: nat): (b: Grid)
    requires c < MinLen(g)
    ensures ShiftedDown(g, b, c)
  {
    ColumnDownCells(g, c);
    Transpose(MoveRight(Transpose(g), c))
  }

  /** ColumnDown undoes ColumnUp on the same column, and vice versa. */
  lemma ColumnMovesInverse(g: Grid, h: nat, w: nat, c: nat)
    requires IsGrid(g, h, w) && h > 0 && c < w
    ensures MinLen(g) == w
    ensures MinLen(ColumnUp(g, c)) == w && ColumnDown(ColumnUp(g, c), c) == g
    ensures MinLen(ColumnDown(g, c)) == w && ColumnUp(ColumnDown(g, c), c) == g
  {
    TransposeShape(g, h, w);
    var t := Transpose(g);
    RowMoveShape(t, w, h, c);
    var ml, mr := MoveLeft(t, c), MoveRight(t, c);
    TransposeShape(ml, w, h);
    TransposeShape(mr, w, h);
    TransposeInvolution(ml, w, h);
    TransposeInvolution(mr, w, h);
    MinLenOfGrid(Transpose(ml), h, w);
    MinLenOfGrid(Transpose(mr), h, w);
    RowMovesInverse(t, c);
    TransposeInvolution(g, h, w);
  }
}
