/** Sums of a per-cell quantity over the interior of a grid, taken in the
    row-major order the engine's loops visit the cells. They state the
    volume balance of a time step. */
module Sums {
  import opened Grid

  /** The sum of w over cells (i, 1) .. (i, j-1). */
  function RowSum(s: seq<Cell>, rows: int, cols: int, w: Cell -> real, i: int, j: int): real
    requires |s| == rows * cols && 1 <= i < rows - 1
    requires 1 <= j && (j == 1 || j <= cols - 1)
    decreases j
  {
    if j == 1 then 0.0 else RowSum(s, rows, cols, w, i, j - 1) + w(At(s, rows, cols, i, j - 1))
  }

  /** The sum of w over the interior cells of rows 1 .. i-1. */
  function RowsSum(s: seq<Cell>, rows: int, cols: int, w: Cell -> real, i: int): real
    requires |s| == rows * cols
    requires 1 <= i && (i == 1 || i <= rows - 1)
    decreases i
  {
    if i == 1 then 0.0 else RowsSum(s, rows, cols, w, i - 1) + RowSum(s, rows, cols, w, i - 1, LastCol(cols))
  }

  /** The sum of w over every interior cell. */
  function InteriorSum(s: seq<Cell>, rows: int, cols: int, w: Cell -> real): real
    requires |s| == rows * cols
  {
    RowsSum(s, rows, cols, w, LastRow(rows))
  }

  /** At every interior position, f of the cell in t is g plus h of the cell in s. */
  ghost predicate Pointwise(s: seq<Cell>, t: seq<Cell>, rows: int, cols: int, f: Cell -> real, g: Cell -> real, h: Cell -> real)
    requires |s| == rows * cols && |t| == rows * cols
  {
    forall x, y :: Interior(rows, cols, x, y) ==>
      f(At(t, rows, cols, x, y)) == g(At(s, rows, cols, x, y)) + h(At(s, rows, cols, x, y))
  }

  lemma {:induction false} RowPointwise(s: seq<Cell>, t: seq<Cell>, rows: int, cols: int,
                                        f: Cell -> real, g: Cell -> real, h: Cell -> real, i: int, j: int)
    requires |s| == rows * cols && |t| == rows * cols && 1 <= i < rows - 1
    requires 1 <= j && (j == 1 || j <= cols - 1)
    requires Pointwise(s, t, rows, cols, f, g, h)
    ensures RowSum(t, rows, cols, f, i, j) == RowSum(s, rows, cols, g, i, j) + RowSum(s, rows, cols, h, i, j)
    decreases j
  {
    if j > 1 {
      RowPointwise(s, t, rows, cols, f, g, h, i, j - 1);
      assert Interior(rows, cols, i, j - 1);
    }
  }

  lemma {:induction false} RowsPointwise(s: seq<Cell>, t: seq<Cell>, rows: int, cols: int,
                                         f: Cell -> real, g: Cell -> real, h: Cell -> real, i: int)
    requires |s| == rows * cols && |t| == rows * cols
    requires 1 <= i && (i == 1 || i <= rows - 1)
    requires Pointwise(s, t, rows, cols, f, g, h)
    ensures RowsSum(t, rows, cols, f, i) == RowsSum(s, rows, cols, g, i) + RowsSum(s, rows, cols, h, i)
    decreases i
  {
    if i > 1 {
      RowsPointwise(s, t, rows, cols, f, g, h, i - 1);
      RowPointwise(s, t, rows, cols, f, g, h, i - 1, LastCol(cols));
    }
  }

  /** Sums follow a pointwise relation between two grids. */
  lemma SumPointwise(s: seq<Cell>, t: seq<Cell>, rows: int, cols: int, f: Cell -> real, g: Cell -> real, h: Cell -> real)
    requires |s| == rows * cols && |t| == rows * cols
    requires Pointwise(s, t, rows, cols, f, g, h)
    ensures InteriorSum(t, rows, cols, f) == InteriorSum(s, rows, cols, g) + InteriorSum(s, rows, cols, h)
  {
    RowsPointwise(s, t, rows, cols, f, g, h, LastRow(rows));
  }

  lemma {:induction false} RowZero(s: seq<Cell>, rows: int, cols: int, w: Cell -> real, i: int, j: int)
    requires |s| == rows * cols && 1 <= i < rows - 1
    requires 1 <= j && (j == 1 || j <= cols - 1)
    requires forall x, y :: Interior(rows, cols, x, y) ==> w(At(s, rows, cols, x, y)) == 0.0
    ensures RowSum(s, rows, cols, w, i, j) == 0.0
    decreases j
  {
    if j > 1 {
      RowZero(s, rows, cols, w, i, j - 1);
      assert Interior(rows, cols, i, j - 1);
    }
  }

  lemma {:induction false} RowsZero(s: seq<Cell>, rows: int, cols: int, w: Cell -> real, i: int)
    requires |s| == rows * cols
    requires 1 <= i && (i == 1 || i <= rows - 1)
    requires forall x, y :: Interior(rows, cols, x, y) ==> w(At(s, rows, cols, x, y)) == 0.0
    ensures RowsSum(s, rows, cols, w, i) == 0.0
    decreases i
  {
    if i > 1 {
      RowsZero(s, rows, cols, w, i - 1);
      RowZero(s, rows, cols, w, i - 1, LastCol(cols));
    }
  }

  /** A quantity that vanishes on the interior sums to zero. */
  lemma SumZero(s: seq<Cell>, rows: int, cols: int, w: Cell -> real)
    requires |s| == rows * cols
    requires forall x, y :: Interior(rows, cols, x, y) ==> w(At(s, rows, cols, x, y)) == 0.0
    ensures InteriorSum(s, rows, cols, w) == 0.0
  {
    RowsZero(s, rows, cols, w, LastRow(rows));
  }

  /** The zero quantity. */
  function Zero(c: Cell): real {
    0.0
  }

  /** Two grids whose interior cells agree on w have the same row sums. */
  lemma RowSame(s: seq<Cell>, t: seq<Cell>, rows: int, cols: int, w: Cell -> real, i: int, j: int)
    requires |s| == rows * cols && |t| == rows * cols && 1 <= i < rows - 1
    requires 1 <= j && (j == 1 || j <= cols - 1)
    requires forall x, y :: Interior(rows, cols, x, y) ==> w(At(t, rows, cols, x, y)) == w(At(s, rows, cols, x, y))
    ensures RowSum(t, rows, cols, w, i, j) == RowSum(s, rows, cols, w, i, j)
  {
    RowPointwise(s, t, rows, cols, w, w, Zero, i, j);
    RowZero(s, rows, cols, Zero, i, j);
  }

  /** Two grids whose interior cells agree on w have the same sum of w. */
  lemma SumSame(s: seq<Cell>, t: seq<Cell>, rows: int, cols: int, w: Cell -> real)
    requires |s| == rows * cols && |t| == rows * cols
    requires forall x, y :: Interior(rows, cols, x, y) ==> w(At(t, rows, cols, x, y)) == w(At(s, rows, cols, x, y))
    ensures InteriorSum(t, rows, cols, w) == InteriorSum(s, rows, cols, w)
  {
    SumPointwise(s, t, rows, cols, w, w, Zero);
    SumZero(s, rows, cols, Zero);
  }

  lemma {:induction false} RowUpdate(s: seq<Cell>, rows: int, cols: int, w: Cell -> real, i: int, j: int,
                                     x: int, y: int, c: Cell)
    requires |s| == rows * cols && 1 <= i < rows - 1
    requires 1 <= j && (j == 1 || j <= cols - 1)
    requires InGrid(rows, cols, x, y)
    ensures RowSum(s[Idx(rows, cols, x, y) := c], rows, cols, w, i, j)
            == RowSum(s, rows, cols, w, i, j)
               + (if x == i && 1 <= y < j then w(c) - w(At(s, rows, cols, x, y)) else 0.0)
    decreases j
  {
    if j > 1 {
      RowUpdate(s, rows, cols, w, i, j - 1, x, y, c);
      AtUpdate(s, rows, cols, x, y, c, i, j - 1);
    }
  }

  lemma {:induction false} RowsUpdate(s: seq<Cell>, rows: int, cols: int, w: Cell -> real, i: int,
                                      x: int, y: int, c: Cell)
    requires |s| == rows * cols
    requires 1 <= i && (i == 1 || i <= rows - 1)
    requires InGrid(rows, cols, x, y)
    ensures RowsSum(s[Idx(rows, cols, x, y) := c], rows, cols, w, i)
            == RowsSum(s, rows, cols, w, i)
               + (if Interior(rows, cols, x, y) && x < i then w(c) - w(At(s, rows, cols, x, y)) else 0.0)
    decreases i
  {
    if i > 1 {
      RowsUpdate(s, rows, cols, w, i - 1, x, y, c);
      RowUpdate(s, rows, cols, w, i - 1, LastCol(cols), x, y, c);
    }
  }

  /** Writing one cell changes the sum by the change at that cell when it
      is interior, and not at all when it is on the border. */
  lemma SumUpdate(s: seq<Cell>, rows: int, cols: int, w: Cell -> real, x: int, y: int, c: Cell)
    requires |s| == rows * cols && InGrid(rows, cols, x, y)
    ensures InteriorSum(s[Idx(rows, cols, x, y) := c], rows, cols, w)
            == InteriorSum(s, rows, cols, w)
               + (if Interior(rows, cols, x, y) then w(c) - w(At(s, rows, cols, x, y)) else 0.0)
  {
    RowsUpdate(s, rows, cols, w, LastRow(rows), x, y, c);
  }

  /** At every interior position, f of the cell is q times g of the cell. */
  ghost predicate Scaled(s: seq<Cell>, rows: int, cols: int, f: Cell -> real, g: Cell -> real, q: real)
    requires |s| == rows * cols
  {
    forall x, y :: Interior(rows, cols, x, y) ==> f(At(s, rows, cols, x, y)) == q * g(At(s, rows, cols, x, y))
  }

  lemma {:induction false} RowScale(s: seq<Cell>, rows: int, cols: int, f: Cell -> real, g: Cell -> real, q: real, i: int, j: int)
    requires |s| == rows * cols && 1 <= i < rows - 1
    requires 1 <= j && (j == 1 || j <= cols - 1)
    requires Scaled(s, rows, cols, f, g, q)
    ensures RowSum(s, rows, cols, f, i, j) == q * RowSum(s, rows, cols, g, i, j)
    decreases j
  {
    if j > 1 {
      RowScale(s, rows, cols, f, g, q, i, j - 1);
      assert Interior(rows, cols, i, j - 1);
      Distribute(q, RowSum(s, rows, cols, g, i, j - 1), g(At(s, rows, cols, i, j - 1)));
    }
  }

  lemma {:induction false} RowsScale(s: seq<Cell>, rows: int, cols: int, f: Cell -> real, g: Cell -> real, q: real, i: int)
    requires |s| == rows * cols
    requires 1 <= i && (i == 1 || i <= rows - 1)
    requires Scaled(s, rows, cols, f, g, q)
    ensures RowsSum(s, rows, cols, f, i) == q * RowsSum(s, rows, cols, g, i)
    decreases i
  {
    if i > 1 {
      RowsScale(s, rows, cols, f, g, q, i - 1);
      RowScale(s, rows, cols, f, g, q, i - 1, LastCol(cols));
      Distribute(q, RowsSum(s, rows, cols, g, i - 1), RowSum(s, rows, cols, g, i - 1, LastCol(cols)));
    }
  }

  /** A constant factor comes out of the sum. */
  lemma SumScale(s: seq<Cell>, rows: int, cols: int, f: Cell -> real, g: Cell -> real, q: real)
    requires |s| == rows * cols
    requires Scaled(s, rows, cols, f, g, q)
    ensures InteriorSum(s, rows, cols, f) == q * InteriorSum(s, rows, cols, g)
  {
    RowsScale(s, rows, cols, f, g, q, LastRow(rows));
  }

  lemma Distribute(q: real, a: real, b: real)
    ensures q * (a + b) == q * a + q * b
  {
  }
}
