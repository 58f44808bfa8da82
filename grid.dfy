/** The cell record and the row-major layout shared by every part of the
    simulator (src/scalaf.h is not part of this model; the field list is the
    one src/scalaf.c reads and writes). */
module Grid {

  /** One grid point. `exits` and `isVent` are C `int`s; every other field is
      a C `double`, modelled as a mathematical real. */
  datatype Cell = Cell(
    altitude: real,
    thickness: real,
    temperature: real,
    yieldStress: real,
    viscosity: real,
    exits: int,
    isVent: int,
    inboundV: real,
    outboundV: real,
    inboundQ: real)

  /** The halo cell written on every border position of the padded grid:
      an unreachable "sky" altitude of 100000 and every other field 0. */
  const Sentinel: Cell := Cell(100000.0, 0.0, 0.0, 0.0, 0.0, 0, 0, 0.0, 0.0, 0.0)

  predicate InGrid(rows: int, cols: int, i: int, j: int) {
    0 <= i < rows && 0 <= j < cols
  }

  /** The positions the engine's loops visit: `1 <= i < rows-1`, `1 <= j < cols-1`. */
  predicate Interior(rows: int, cols: int, i: int, j: int) {
    1 <= i < rows - 1 && 1 <= j < cols - 1
  }

  predicate OnBorder(rows: int, cols: int, i: int, j: int) {
    InGrid(rows, cols, i, j) && !Interior(rows, cols, i, j)
  }

  /** The last column bound of a row: `columnas - 1`, or 1 when there is no interior column. */
  function LastCol(cols: int): int {
    if cols >= 2 then cols - 1 else 1
  }

  /** The last row bound: `filas - 1`, or 1 when there is no interior row. */
  function LastRow(rows: int): int {
    if rows >= 2 then rows - 1 else 1
  }

  /** Row-major offset `i * cols + j` of a position; it always lies inside the buffer. */
  function Idx(rows: int, cols: int, i: int, j: int): (k: nat)
    requires InGrid(rows, cols, i, j)
    ensures k < rows * cols
  {
    IndexBound(rows, cols, i, j);
    i * cols + j
  }

  /** The cell at position (i, j) of a row-major grid. */
  function At(s: seq<Cell>, rows: int, cols: int, i: int, j: int): Cell
    requires |s| == rows * cols && InGrid(rows, cols, i, j)
  {
    s[Idx(rows, cols, i, j)]
  }

  lemma MulMono(a: int, b: int, c: int)
    requires a <= b && 0 <= c
    ensures a * c <= b * c
  {
    assert b * c - a * c == (b - a) * c;
  }

  lemma IndexBound(rows: int, cols: int, i: int, j: int)
    requires InGrid(rows, cols, i, j)
    ensures 0 <= i * cols + j < rows * cols
  {
    MulMono(0, i, cols);
    MulMono(i, rows - 1, cols);
    assert (rows - 1) * cols == rows * cols - cols;
  }

  /** Distinct positions have distinct offsets. */
  lemma IndexInjective(cols: int, i1: int, j1: int, i2: int, j2: int)
    requires 0 <= j1 < cols && 0 <= j2 < cols
    requires i1 * cols + j1 == i2 * cols + j2
    ensures i1 == i2 && j1 == j2
  {
    assert (i1 + 1) * cols == i1 * cols + cols;
    assert (i2 + 1) * cols == i2 * cols + cols;
    if i1 < i2 {
      MulMono(i1 + 1, i2, cols);
    } else if i2 < i1 {
      MulMono(i2 + 1, i1, cols);
    }
  }

  /** Every offset of the buffer is the offset of exactly the position (k / cols, k % cols). */
  lemma IndexDecompose(rows: int, cols: int, k: int)
    requires 0 <= k < rows * cols && 0 < cols
    ensures InGrid(rows, cols, k / cols, k % cols)
    ensures Idx(rows, cols, k / cols, k % cols) == k
  {
    var q, r := k / cols, k % cols;
    assert k == q * cols + r;
    if q < 0 {
      MulMono(q, -1, cols);
    }
    if q >= rows {
      MulMono(rows, q, cols);
    }
  }

  lemma DivIdx(rows: int, cols: int, i: int, j: int)
    requires InGrid(rows, cols, i, j)
    ensures Idx(rows, cols, i, j) / cols == i && Idx(rows, cols, i, j) % cols == j
  {
    var k := Idx(rows, cols, i, j);
    IndexDecompose(rows, cols, k);
    IndexInjective(cols, k / cols, k % cols, i, j);
  }

  /** Writing one position leaves every other position as it was. */
  lemma AtUpdate(s: seq<Cell>, rows: int, cols: int, i: int, j: int, x: Cell, bi: int, bj: int)
    requires |s| == rows * cols && InGrid(rows, cols, i, j) && InGrid(rows, cols, bi, bj)
    ensures At(s[Idx(rows, cols, i, j) := x], rows, cols, bi, bj)
            == if bi == i && bj == j then x else At(s, rows, cols, bi, bj)
  {
    if Idx(rows, cols, i, j) == Idx(rows, cols, bi, bj) {
      IndexInjective(cols, i, j, bi, bj);
    }
  }

  /** Two grids that agree at every position are equal. */
  lemma {:induction false} SamePositions(s: seq<Cell>, t: seq<Cell>, rows: int, cols: int)
    requires 0 <= rows && 0 <= cols
    requires |s| == rows * cols && |t| == rows * cols
    requires forall i, j :: InGrid(rows, cols, i, j) ==> At(s, rows, cols, i, j) == At(t, rows, cols, i, j)
    ensures s == t
  {
    forall k | 0 <= k < |s|
      ensures s[k] == t[k]
    {
      IndexDecompose(rows, cols, k);
      assert At(s, rows, cols, k / cols, k % cols) == At(t, rows, cols, k / cols, k % cols);
    }
  }
}
