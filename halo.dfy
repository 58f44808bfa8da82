/** Halo padding (preFuncion, src/scalaf.c:124-205) and halo stripping with the
    per-process row range (postFuncion, src/scalaf.c:210-252). */
module Halo {
  import opened Grid
  import opened Partition

  /** What preFuncion keeps of an input cell: altitude, thickness,
      temperature and isVent; yield, viscosity, exits and the three
      accumulators are zeroed. */
  function HaloCopy(c: Cell): Cell {
    Cell(c.altitude, c.thickness, c.temperature, 0.0, 0.0, 0, c.isVent, 0.0, 0.0, 0.0)
  }

  /** The cell preFuncion writes at position (i, j) of the (rows+2) x (cols+2) grid. */
  function PadAt(s: seq<Cell>, rows: int, cols: int, i: int, j: int): Cell
    requires 0 <= rows && 0 <= cols && |s| == rows * cols
    requires InGrid(rows + 2, cols + 2, i, j)
  {
    if i == 0 || i == rows + 1 || j == 0 || j == cols + 1 then Sentinel
    else HaloCopy(At(s, rows, cols, i - 1, j - 1))
  }

  /** The padded grid, as a row-major sequence. */
  function Pad(s: seq<Cell>, rows: int, cols: int): (r: seq<Cell>)
    requires 0 <= rows && 0 <= cols && |s| == rows * cols
    ensures |r| == (rows + 2) * (cols + 2)
  {
    seq((rows + 2) * (cols + 2), k requires 0 <= k < (rows + 2) * (cols + 2) =>
      IndexDecompose(rows + 2, cols + 2, k);
      PadAt(s, rows, cols, k / (cols + 2), k % (cols + 2)))
  }

  lemma PadPositions(s: seq<Cell>, rows: int, cols: int, i: int, j: int)
    requires 0 <= rows && 0 <= cols && |s| == rows * cols
    requires InGrid(rows + 2, cols + 2, i, j)
    ensures At(Pad(s, rows, cols), rows + 2, cols + 2, i, j) == PadAt(s, rows, cols, i, j)
  {
    DivIdx(rows + 2, cols + 2, i, j);
  }

  /** Interior cell (i+1, j+1) of the padded grid carries the altitude,
      thickness, temperature and isVent of input cell (i, j) and zero in
      every derived and accumulator field. */
  lemma PadInterior(s: seq<Cell>, rows: int, cols: int, i: int, j: int)
    requires 0 <= rows && 0 <= cols && |s| == rows * cols
    requires InGrid(rows, cols, i, j)
    ensures var p, g := At(Pad(s, rows, cols), rows + 2, cols + 2, i + 1, j + 1), At(s, rows, cols, i, j);
      && p.altitude == g.altitude && p.thickness == g.thickness
      && p.temperature == g.temperature && p.isVent == g.isVent
      && p.yieldStress == 0.0 && p.viscosity == 0.0 && p.exits == 0
      && p.inboundV == 0.0 && p.outboundV == 0.0 && p.inboundQ == 0.0
  {
    PadPositions(s, rows, cols, i + 1, j + 1);
  }

  /** Every cell of row 0, row rows+1, column 0 or column cols+1 is the sentinel. */
  lemma PadBorder(s: seq<Cell>, rows: int, cols: int, i: int, j: int)
    requires 0 <= rows && 0 <= cols && |s| == rows * cols
    requires OnBorder(rows + 2, cols + 2, i, j)
    ensures var p := At(Pad(s, rows, cols), rows + 2, cols + 2, i, j);
      && p.altitude == 100000.0 && p.thickness == 0.0 && p.temperature == 0.0 && p.isVent == 0
      && p.yieldStress == 0.0 && p.viscosity == 0.0 && p.exits == 0
      && p.inboundV == 0.0 && p.outboundV == 0.0 && p.inboundQ == 0.0
  {
    PadPositions(s, rows, cols, i, j);
  }

  /** preFuncion: build the padded grid in a scratch buffer B, then copy it to C.
      `f` counts the input row, as in the source. */
  method PreFuncion(filas: int, columnas: int, a: array<Cell>, c: array<Cell>)
    requires 0 <= filas && 0 <= columnas
    requires a.Length == filas * columnas
    requires c.Length == (filas + 2) * (columnas + 2)
    modifies c
    ensures c[..] == Pad(old(a[..]), filas, columnas)
  {
    var width := columnas + 2;
    var b := new Cell[(filas + 2) * width];
    var f := 0;
    var i := 0;
    while i < filas + 2
      invariant 0 <= i <= filas + 2
      invariant f == if i == 0 then 0 else if i <= filas then i - 1 else filas
      invariant forall k :: 0 <= k < i * width && k < b.Length ==> b[k] == Pad(a[..], filas, columnas)[k]
    {
      if !(i == 0 || i == filas + 1) {
        PadInnerRow(filas, columnas, a, b, i, f);
        f := f + 1;
      } else {
        PadOuterRow(filas, columnas, a, b, i);
      }
      i := i + 1;
    }
    // memcpy(C, B, ...)
    forall k | 0 <= k < c.Length {
      c[k] := b[k];
    }
  }

  /** The `j` loop of preFuncion for an inner row `i` (input row `f`): sentinels
      in columns 0 and columnas+1, copies of input cells (f, 0..columnas-1)
      in between. */
  method PadInnerRow(filas: int, columnas: int, a: array<Cell>, b: array<Cell>, i: int, f: int)
    requires 0 <= filas && 0 <= columnas
    requires a.Length == filas * columnas && b.Length == (filas + 2) * (columnas + 2) && a != b
    requires 1 <= i <= filas && f == i - 1
    requires forall k :: 0 <= k < i * (columnas + 2) && k < b.Length ==> b[k] == Pad(a[..], filas, columnas)[k]
    modifies b
    ensures forall k :: 0 <= k < (i + 1) * (columnas + 2) && k < b.Length ==> b[k] == Pad(a[..], filas, columnas)[k]
    ensures forall k :: (i + 1) * (columnas + 2) <= k < b.Length ==> b[k] == old(b[k])
  {
    ghost var s := a[..];
    ghost var padded := Pad(s, filas, columnas);
    var width := columnas + 2;
    var base := i * width;
    var col := 0;
    var j := 0;
    while j < width
      invariant 0 <= j <= width
      invariant col == if j == 0 then 0 else if j <= columnas then j - 1 else columnas
      invariant forall k :: 0 <= k < base + j && k < b.Length ==> b[k] == padded[k]
      invariant forall k :: base + j <= k < b.Length ==> b[k] == old(b[k])
    {
      var k := Idx(filas + 2, width, i, j);
      var cell: Cell;
      if !(j == 0 || j == columnas + 1) {
        cell := HaloCopy(a[Idx(filas, columnas, f, col)]);
        col := col + 1;
      } else {
        cell := Sentinel;
      }
      assert cell == padded[k] by {
        PadPositions(s, filas, columnas, i, j);
      }
      b[k] := cell;
      j := j + 1;
    }
    assert (i + 1) * width == base + width;
  }

  /** The `j` loop of preFuncion for row 0 and row filas+1: all sentinels. */
  method PadOuterRow(filas: int, columnas: int, a: array<Cell>, b: array<Cell>, i: int)
    requires 0 <= filas && 0 <= columnas
    requires a.Length == filas * columnas && b.Length == (filas + 2) * (columnas + 2) && a != b
    requires i == 0 || i == filas + 1
    requires forall k :: 0 <= k < i * (columnas + 2) && k < b.Length ==> b[k] == Pad(a[..], filas, columnas)[k]
    modifies b
    ensures forall k :: 0 <= k < (i + 1) * (columnas + 2) && k < b.Length ==> b[k] == Pad(a[..], filas, columnas)[k]
    ensures forall k :: (i + 1) * (columnas + 2) <= k < b.Length ==> b[k] == old(b[k])
  {
    var width := columnas + 2;
    for j := 0 to width
      invariant forall k :: 0 <= k < i * width + j && k < b.Length ==> b[k] == Pad(a[..], filas, columnas)[k]
      invariant forall k :: i * width + j <= k < b.Length ==> b[k] == old(b[k])
    {
      PadPositions(a[..], filas, columnas, i, j);
      b[Idx(filas + 2, width, i, j)] := Sentinel;
    }
    assert (i + 1) * width == i * width + width;
  }

  /** Entry k of the block that postFuncion fills for process `rank` of `size`
      in the (filas-2) x (columnas-2) result: with [lo, hi) the rank's row
      range, entry (r, c) takes every field but inboundQ from padded cell
      (lo + r + rowOffset, c + 1); inboundQ, and every entry past the block,
      keep what the buffer `buf` held. The source reads with rowOffset 0;
      rowOffset 1 is the evidently intended strip. */
  function StripEntry(a: seq<Cell>, buf: seq<Cell>, filas: int, columnas: int,
                      rank: int, size: int, rowOffset: int, k: int): Cell
    requires 2 <= filas && 2 <= columnas && |a| == filas * columnas
    requires |buf| == (filas - 2) * (columnas - 2)
    requires 0 <= rank < size && 0 <= rowOffset <= 1
    requires 0 <= k < |buf|
  {
    PartitionBounds(filas - 2, size, rank);
    var lo, hi := StartRow(filas - 2, size, rank), EndRow(filas - 2, size, rank);
    var n := columnas - 2;
    if k < (hi - lo) * n then
      IndexDecompose(hi - lo, n, k);
      a[Idx(filas, columnas, lo + k / n + rowOffset, k % n + 1)].(inboundQ := buf[k].inboundQ)
    else buf[k]
  }

  function Strip(a: seq<Cell>, buf: seq<Cell>, filas: int, columnas: int,
                 rank: int, size: int, rowOffset: int): (r: seq<Cell>)
    requires 2 <= filas && 2 <= columnas && |a| == filas * columnas
    requires |buf| == (filas - 2) * (columnas - 2)
    requires 0 <= rank < size && 0 <= rowOffset <= 1
    ensures |r| == |buf|
  {
    seq(|buf|, k requires 0 <= k < |buf| => StripEntry(a, buf, filas, columnas, rank, size, rowOffset, k))
  }

  /** postFuncion as written (src/scalaf.c:210-245): the process `rank` of
      `size` copies padded rows [start_row, end_row) into the buffer B,
      dropping column 0 and column columnas-1. B is the block that the source
      obtains from malloc; what it held stays where nothing is written.
      The rows are not shifted past the halo, so rank 0 copies the top
      border row (see StripAsWrittenReadsHalo). */
  method PostFuncion(filas: int, columnas: int, a: array<Cell>, b: array<Cell>, rank: int, size: int)
    requires 2 <= filas && 2 <= columnas
    requires a.Length == filas * columnas && b.Length == (filas - 2) * (columnas - 2) && a != b
    requires 0 <= rank < size
    modifies b
    ensures b[..] == Strip(a[..], old(b[..]), filas, columnas, rank, size, 0)
  {
    StripRange(filas, columnas, a, b, rank, size, 0);
  }

  /** postFuncion with rows read past the top halo row (`A[(i+1) * columnas + j]`). */
  method PostFuncionCorrected(filas: int, columnas: int, a: array<Cell>, b: array<Cell>, rank: int, size: int)
    requires 2 <= filas && 2 <= columnas
    requires a.Length == filas * columnas && b.Length == (filas - 2) * (columnas - 2) && a != b
    requires 0 <= rank < size
    modifies b
    ensures b[..] == Strip(a[..], old(b[..]), filas, columnas, rank, size, 1)
  {
    StripRange(filas, columnas, a, b, rank, size, 1);
  }

  /** Entry (r, c) of a rank's block, read through StripEntry. */
  lemma StripEntryAt(a: seq<Cell>, buf: seq<Cell>, filas: int, columnas: int,
                     rank: int, size: int, rowOffset: int, lo: int, hi: int, r: int, c: int)
    requires 2 <= filas && 2 <= columnas && |a| == filas * columnas
    requires |buf| == (filas - 2) * (columnas - 2)
    requires 0 <= rank < size && 0 <= rowOffset <= 1
    requires lo == StartRow(filas - 2, size, rank) && hi == EndRow(filas - 2, size, rank)
    requires 0 <= lo <= hi <= filas - 2
    requires 0 <= r < hi - lo && 0 <= c < columnas - 2
    ensures Idx(hi - lo, columnas - 2, r, c) < |buf|
    ensures StripEntry(a, buf, filas, columnas, rank, size, rowOffset, Idx(hi - lo, columnas - 2, r, c))
            == a[Idx(filas, columnas, lo + r + rowOffset, c + 1)].(inboundQ := buf[Idx(hi - lo, columnas - 2, r, c)].inboundQ)
  {
    MulMono(hi - lo, filas - 2, columnas - 2);
    DivIdx(hi - lo, columnas - 2, r, c);
  }

  /** Row i of a rank's block: its n_columnas entries start at offset
      (i - start_row) * n_columnas and copy the inner columns of padded row
      i + rowOffset. */
  lemma StripRowEntries(a: seq<Cell>, buf: seq<Cell>, filas: int, columnas: int,
                        rank: int, size: int, rowOffset: int, i: int)
    requires 2 <= filas && 2 <= columnas && |a| == filas * columnas
    requires |buf| == (filas - 2) * (columnas - 2)
    requires 0 <= rank < size && 0 <= rowOffset <= 1
    requires 0 <= i < filas - 2 && StartRow(filas - 2, size, rank) <= i < EndRow(filas - 2, size, rank)
    ensures var base := (i - StartRow(filas - 2, size, rank)) * (columnas - 2);
      && 0 <= base && base + (columnas - 2) <= |buf|
      && forall k :: base <= k < base + (columnas - 2) && k < |buf| ==>
           Strip(a, buf, filas, columnas, rank, size, rowOffset)[k]
           == a[Idx(filas, columnas, i + rowOffset, k - base + 1)].(inboundQ := buf[k].inboundQ)
  {
    PartitionBounds(filas - 2, size, rank);
    var lo, hi := StartRow(filas - 2, size, rank), EndRow(filas - 2, size, rank);
    var n := columnas - 2;
    var base := (i - lo) * n;
    BlockRow(lo, hi, filas - 2, n, i);
    forall k | base <= k < base + n && k < |buf|
      ensures Strip(a, buf, filas, columnas, rank, size, rowOffset)[k]
              == a[Idx(filas, columnas, i + rowOffset, k - base + 1)].(inboundQ := buf[k].inboundQ)
    {
      StripEntryAt(a, buf, filas, columnas, rank, size, rowOffset, lo, hi, i - lo, k - base);
    }
  }

  /** Row r of a block of rows [lo, hi) of width n lies inside the block. */
  lemma BlockRow(lo: int, hi: int, rows: int, n: int, i: int)
    requires 0 <= lo <= i < hi <= rows && 0 <= n
    ensures 0 <= (i - lo) * n && (i - lo) * n + n <= (hi - lo) * n <= rows * n
  {
    MulMono(0, i - lo, n);
    MulMono(i - lo + 1, hi - lo, n);
    MulMono(hi - lo, rows, n);
    assert (i - lo + 1) * n == (i - lo) * n + n;
  }

  /** The partition arithmetic and the `i` loop of postFuncion; padded row
      i + rowOffset is read for result row i. */
  method StripRange(filas: int, columnas: int, a: array<Cell>, b: array<Cell>, rank: int, size: int, rowOffset: int)
    requires 2 <= filas && 2 <= columnas
    requires a.Length == filas * columnas && b.Length == (filas - 2) * (columnas - 2) && a != b
    requires 0 <= rank < size && 0 <= rowOffset <= 1
    modifies b
    ensures b[..] == Strip(a[..], old(b[..]), filas, columnas, rank, size, rowOffset)
  {
    ghost var buf := b[..];
    ghost var want := Strip(a[..], buf, filas, columnas, rank, size, rowOffset);
    var n_columnas := columnas - 2;
    var start_row, end_row := RowRange(filas - 2, size, rank);
    ghost var done := 0;
    for i := start_row to end_row
      invariant done == (i - start_row) * n_columnas
      invariant forall k :: 0 <= k < done && k < b.Length ==> b[k] == want[k]
      invariant forall k :: done <= k < b.Length ==> b[k] == buf[k]
    {
      var base := (i - start_row) * n_columnas;
      StripRowEntries(a[..], buf, filas, columnas, rank, size, rowOffset, i);
      StripRow(filas, columnas, a, b, buf, want, rowOffset, i, base);
      NextBlockRow(i, start_row, n_columnas);
      done := done + n_columnas;
    }
    forall k | done <= k < b.Length
      ensures want[k] == buf[k]
    {
      StripTail(a[..], buf, filas, columnas, rank, size, rowOffset, start_row, end_row, k);
    }
  }

  /** The next row of a block starts n entries further on. */
  lemma NextBlockRow(i: int, lo: int, n: int)
    ensures (i + 1 - lo) * n == (i - lo) * n + n
  {
  }

  /** Past the rank's block, the strip keeps what the buffer held. */
  lemma StripTail(a: seq<Cell>, buf: seq<Cell>, filas: int, columnas: int,
                  rank: int, size: int, rowOffset: int, lo: int, hi: int, k: int)
    requires 2 <= filas && 2 <= columnas && |a| == filas * columnas
    requires |buf| == (filas - 2) * (columnas - 2)
    requires 0 <= rank < size && 0 <= rowOffset <= 1
    requires lo == StartRow(filas - 2, size, rank) && hi == EndRow(filas - 2, size, rank)
    requires 0 <= k < |buf| && (hi - lo) * (columnas - 2) <= k
    ensures StripEntry(a, buf, filas, columnas, rank, size, rowOffset, k) == buf[k]
  {
  }

  /** The `j` loop of postFuncion for result row i: column 0 and column
      columnas-1 are skipped, `c` counts the columns written, and entry
      base + c receives padded cell (i + rowOffset, c + 1). */
  method StripRow(filas: int, columnas: int, a: array<Cell>, b: array<Cell>, ghost buf: seq<Cell>,
                  ghost want: seq<Cell>, rowOffset: int, i: int, base: int)
    requires 2 <= columnas && a.Length == filas * columnas && a != b
    requires |buf| == b.Length && |want| == b.Length
    requires 0 <= i + rowOffset < filas
    requires 0 <= base && base + columnas - 2 <= b.Length
    requires forall k :: base <= k < base + columnas - 2 ==>
               want[k] == a[Idx(filas, columnas, i + rowOffset, k - base + 1)].(inboundQ := buf[k].inboundQ)
    requires forall k :: 0 <= k < base ==> b[k] == want[k]
    requires forall k :: base <= k < b.Length ==> b[k] == buf[k]
    modifies b
    ensures forall k :: 0 <= k < base + columnas - 2 ==> b[k] == want[k]
    ensures forall k :: base + columnas - 2 <= k < b.Length ==> b[k] == buf[k]
  {
    var n_columnas := columnas - 2;
    var c := 0;
    for j := 0 to columnas
      invariant c == if j == 0 then 0 else if j <= n_columnas then j - 1 else n_columnas
      invariant forall k :: 0 <= k < base + c ==> b[k] == want[k]
      invariant forall k :: base + c <= k < b.Length ==> b[k] == buf[k]
    {
      if !(j == 0 || j >= columnas - 1) {
        b[base + c] := a[Idx(filas, columnas, i + rowOffset, j)].(inboundQ := b[base + c].inboundQ);
        c := c + 1;
      }
    }
  }

  /** With at least one input row, process 0 owns at least one row. */
  lemma FirstRankNonEmpty(rows: int, size: int)
    requires 1 <= rows && 1 <= size
    ensures StartRow(rows, size, 0) == 0 && 1 <= EndRow(rows, size, 0)
  {
    if rows / size == 0 {
      assert rows == size * (rows / size) + rows % size;
    }
  }

  /** postFuncion as written, on a padded grid: the first entry process 0
      writes is the halo cell above the grid (altitude 100000, no lava),
      not input cell (0, 0). */
  lemma StripAsWrittenReadsHalo(g: seq<Cell>, rows: int, cols: int, buf: seq<Cell>, size: int)
    requires 1 <= rows && 1 <= cols && |g| == rows * cols && |buf| == rows * cols && 1 <= size
    ensures var r := Strip(Pad(g, rows, cols), buf, rows + 2, cols + 2, 0, size, 0);
      r[0].altitude == 100000.0 && r[0].thickness == 0.0 && r[0].temperature == 0.0
  {
    var a := Pad(g, rows, cols);
    var lo, hi := StartRow(rows, size, 0), EndRow(rows, size, 0);
    FirstRankNonEmpty(rows, size);
    PartitionBounds(rows, size, 0);
    StripEntryAt(a, buf, rows + 2, cols + 2, 0, size, 0, lo, hi, 0, 0);
    assert Idx(hi - lo, cols, 0, 0) == 0;
    PadPositions(g, rows, cols, 0, 1);
    assert a[Idx(rows + 2, cols + 2, 0, 1)] == Sentinel;
  }

  /** Hence, as written, padding the stripped grid does not give back the
      padded input: cell (1, 1) differs as soon as input cell (0, 0) is not
      at altitude 100000. */
  lemma StripAsWrittenBreaksRoundTrip(g: seq<Cell>, rows: int, cols: int, buf: seq<Cell>)
    requires 1 <= rows && 1 <= cols && |g| == rows * cols && |buf| == rows * cols
    requires At(g, rows, cols, 0, 0).altitude != 100000.0
    ensures Pad(Strip(Pad(g, rows, cols), buf, rows + 2, cols + 2, 0, 1, 0), rows, cols) != Pad(g, rows, cols)
  {
    var t := Strip(Pad(g, rows, cols), buf, rows + 2, cols + 2, 0, 1, 0);
    StripAsWrittenReadsHalo(g, rows, cols, buf, 1);
    PadPositions(t, rows, cols, 1, 1);
    PadPositions(g, rows, cols, 1, 1);
    assert At(Pad(t, rows, cols), rows + 2, cols + 2, 1, 1).altitude != At(Pad(g, rows, cols), rows + 2, cols + 2, 1, 1).altitude;
  }

  /** The corrected strip on a padded grid: entry (r, c) of process rank's
      block is input cell (start_row + r, c) as preFuncion copied it, with
      the buffer's inboundQ. */
  lemma StripCorrectedCopiesRows(g: seq<Cell>, rows: int, cols: int, buf: seq<Cell>,
                                 rank: int, size: int, lo: int, hi: int, r: int, c: int)
    requires 0 <= rows && 1 <= cols && |g| == rows * cols && |buf| == rows * cols
    requires 0 <= rank < size
    requires lo == StartRow(rows, size, rank) && hi == EndRow(rows, size, rank)
    requires 0 <= lo <= hi <= rows
    requires 0 <= r < hi - lo && 0 <= c < cols
    ensures Idx(rows, cols, r, c) < |buf|
    ensures Strip(Pad(g, rows, cols), buf, rows + 2, cols + 2, rank, size, 1)[Idx(rows, cols, r, c)]
            == HaloCopy(At(g, rows, cols, lo + r, c)).(inboundQ := buf[Idx(rows, cols, r, c)].inboundQ)
  {
    StripEntryAt(Pad(g, rows, cols), buf, rows + 2, cols + 2, rank, size, 1, lo, hi, r, c);
    PadPositions(g, rows, cols, lo + r + 1, c + 1);
  }

  /** A single process (size 1) with the corrected strip: padding the
      stripped grid gives the padded input back. preFuncion and the
      corrected postFuncion are inverse on everything preFuncion keeps. */
  lemma StripPadRoundTrip(g: seq<Cell>, rows: int, cols: int, buf: seq<Cell>)
    requires 0 <= rows && 0 <= cols && |g| == rows * cols && |buf| == rows * cols
    ensures Pad(Strip(Pad(g, rows, cols), buf, rows + 2, cols + 2, 0, 1, 1), rows, cols) == Pad(g, rows, cols)
  {
    var t := Strip(Pad(g, rows, cols), buf, rows + 2, cols + 2, 0, 1, 1);
    var pt, pg, height, width := Pad(t, rows, cols), Pad(g, rows, cols), rows + 2, cols + 2;
    PartitionLast(rows, 1);
    forall i, j | InGrid(height, width, i, j)
      ensures At(pt, height, width, i, j) == At(pg, height, width, i, j)
    {
      PadPositions(t, rows, cols, i, j);
      PadPositions(g, rows, cols, i, j);
      if !(i == 0 || i == rows + 1 || j == 0 || j == cols + 1) {
        StripEntryAt(Pad(g, rows, cols), buf, rows + 2, cols + 2, 0, 1, 1, 0, rows, i - 1, j - 1);
        PadPositions(g, rows, cols, i, j);
      }
    }
    SamePositions(pt, pg, height, width);
  }
}
