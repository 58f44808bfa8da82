/** Vent placement (placeCraters, src/scalaf.c:29-42): every crater whose
    coordinates fall inside the grid marks its cell as a vent; the others are
    skipped without notice. */
module Craters {
  import opened Grid

  /** A crater position read from the craters file: `x` is the row, `y` the column. */
  datatype Point2D = Point2D(x: int, y: int)

  /** The effect of one crater on the grid. */
  function MarkVent(s: seq<Cell>, rows: int, cols: int, p: Point2D): (r: seq<Cell>)
    requires |s| == rows * cols
    ensures |r| == |s|
  {
    if -1 < p.x < rows && -1 < p.y < cols then
      var k := Idx(rows, cols, p.x, p.y);
      s[k := s[k].(isVent := 1)]
    else s
  }

  /** The grid after the first n craters of P, in order. */
  function PlaceAll(s: seq<Cell>, P: seq<Point2D>, rows: int, cols: int, n: int): (r: seq<Cell>)
    requires |s| == rows * cols && n <= |P|
    ensures |r| == |s|
    decreases n
  {
    if n <= 0 then s else MarkVent(PlaceAll(s, P, rows, cols, n - 1), rows, cols, P[n - 1])
  }

  /** Some crater among the first n targets position (i, j). */
  predicate Targeted(P: seq<Point2D>, n: int, i: int, j: int)
    requires n <= |P|
  {
    exists t :: 0 <= t < n && P[t].x == i && P[t].y == j
  }

  /** placeCraters. The C function is declared to return an `int` but
      returns nothing; the model returns nothing either. */
  method PlaceCraters(a: array<Cell>, P: seq<Point2D>, totalRows: int, totalColumns: int, totalCraters: int)
    requires a.Length == totalRows * totalColumns && totalCraters <= |P|
    modifies a
    ensures a[..] == PlaceAll(old(a[..]), P, totalRows, totalColumns, totalCraters)
  {
    var i := 0;
    while i < totalCraters
      invariant i <= totalCraters || i == 0
      invariant a[..] == PlaceAll(old(a[..]), P, totalRows, totalColumns, i)
    {
      var craterRow := P[i].x;
      var craterColumn := P[i].y;
      if craterRow > -1 && craterRow < totalRows {
        if craterColumn > -1 && craterColumn < totalColumns {
          var k := Idx(totalRows, totalColumns, craterRow, craterColumn);
          a[k] := a[k].(isVent := 1);
        }
      }
      i := i + 1;
    }
  }

  /** Exactly the targeted in-range cells become vents; every other cell,
      and every other field of a vent cell, is unchanged. */
  lemma {:induction false} PlaceAllAt(s: seq<Cell>, P: seq<Point2D>, rows: int, cols: int, n: int, i: int, j: int)
    requires |s| == rows * cols && n <= |P| && InGrid(rows, cols, i, j)
    ensures At(PlaceAll(s, P, rows, cols, n), rows, cols, i, j)
            == if Targeted(P, n, i, j) then At(s, rows, cols, i, j).(isVent := 1) else At(s, rows, cols, i, j)
    decreases n
  {
    if n > 0 {
      var prev := PlaceAll(s, P, rows, cols, n - 1);
      PlaceAllAt(s, P, rows, cols, n - 1, i, j);
      var p := P[n - 1];
      if -1 < p.x < rows && -1 < p.y < cols {
        AtUpdate(prev, rows, cols, p.x, p.y, prev[Idx(rows, cols, p.x, p.y)].(isVent := 1), i, j);
      }
      if Targeted(P, n, i, j) && !Targeted(P, n - 1, i, j) {
        assert P[n - 1].x == i && P[n - 1].y == j;
      }
      if Targeted(P, n - 1, i, j) {
        var t :| 0 <= t < n - 1 && P[t].x == i && P[t].y == j;
        assert 0 <= t < n && P[t].x == i && P[t].y == j;
      }
    }
  }

  /** Placing the same craters twice is the same as placing them once. */
  lemma PlaceAllIdempotent(s: seq<Cell>, P: seq<Point2D>, rows: int, cols: int, n: int)
    requires 0 <= rows && 0 <= cols && |s| == rows * cols && n <= |P|
    ensures PlaceAll(PlaceAll(s, P, rows, cols, n), P, rows, cols, n) == PlaceAll(s, P, rows, cols, n)
  {
    var once := PlaceAll(s, P, rows, cols, n);
    var twice := PlaceAll(once, P, rows, cols, n);
    forall i, j | InGrid(rows, cols, i, j)
      ensures At(twice, rows, cols, i, j) == At(once, rows, cols, i, j)
    {
      PlaceAllAt(s, P, rows, cols, n, i, j);
      PlaceAllAt(once, P, rows, cols, n, i, j);
    }
    SamePositions(twice, once, rows, cols);
  }

  /** The order of the craters does not matter: any two crater lists that
      target the same positions mark the same cells. */
  lemma PlaceAllOrderFree(s: seq<Cell>, P: seq<Point2D>, n: int, Q: seq<Point2D>, m: int, rows: int, cols: int)
    requires 0 <= rows && 0 <= cols && |s| == rows * cols && n <= |P| && m <= |Q|
    requires forall i, j :: InGrid(rows, cols, i, j) ==> (Targeted(P, n, i, j) <==> Targeted(Q, m, i, j))
    ensures PlaceAll(s, P, rows, cols, n) == PlaceAll(s, Q, rows, cols, m)
  {
    var x, y := PlaceAll(s, P, rows, cols, n), PlaceAll(s, Q, rows, cols, m);
    forall i, j | InGrid(rows, cols, i, j)
      ensures At(x, rows, cols, i, j) == At(y, rows, cols, i, j)
    {
      PlaceAllAt(s, P, rows, cols, n, i, j);
      PlaceAllAt(s, Q, rows, cols, m, i, j);
    }
    SamePositions(x, y, rows, cols);
  }
}
