/** The four whole-grid passes of FuncionPrincipal (src/scalaf.c:261-522).
    Each pass visits the interior cells `1 <= i < filas-1`,
    `1 <= j < columnas-1` in row-major order and updates the grid in place;
    a pass is specified as the left fold of its per-cell step over that
    order, and the loops are proved to compute it. */
module Sweep {
  import opened Grid
  import opened Physics

  datatype Pass = Reset | Topology | Flow | Consolidation(corrected: bool)

  /** The number of positions the `l` and `m` loops visit around a cell,
      the cell itself (direction 4) included. */
  const Neighbourhood: int := 9

  /** Neighbour `d` (0 <= d < 9) of row i: the `l` loop runs -1, 0, 1 and `d = 3*(l+1) + (m+1)`. */
  function NRow(i: int, d: int): int {
    i + d / 3 - 1
  }

  /** Neighbour `d` of column j: the `m` loop runs -1, 0, 1. */
  function NCol(j: int, d: int): int {
    j + d % 3 - 1
  }

  /** Every cell that can open a flow gate has a viscosity to divide by. */
  predicate ViscOk(s: seq<Cell>) {
    forall k :: 0 <= k < |s| ==> s[k].yieldStress != 0.0 ==> s[k].viscosity != 0.0
  }

  /** An open gate means a non-zero yield stress. */
  lemma YieldsNonZero(cfg: Config, aref: real, href: real, n: Cell)
    requires Yields(cfg, aref, href, n)
    ensures n.yieldStress != 0.0
  {
    if n.yieldStress == 0.0 {
      ZeroYieldClosed(cfg, aref, href, n);
    }
  }

  // ----- Pass 2: counting exits (src/scalaf.c:286-317) -----

  /** The comparison of centre (i, j), whose altitude and thickness were
      read as aref and href, with neighbour d: a neighbour that yields and
      stands higher gains one exit. */
  function ExitStep(cfg: Config, s: seq<Cell>, rows: int, cols: int, aref: real, href: real,
                    i: int, j: int, d: int): (r: seq<Cell>)
    requires |s| == rows * cols && Interior(rows, cols, i, j) && 0 <= d < 9
    ensures |r| == |s|
  {
    if d == 4 then s
    else
      var ni, nj := NRow(i, d), NCol(j, d);
      var n := At(s, rows, cols, ni, nj);
      if Yields(cfg, aref, href, n) && Higher(aref, href, n) then
        s[Idx(rows, cols, ni, nj) := n.(exits := n.exits + 1)]
      else s
  }

  /** Exit counting at one comparison: the neighbour gains one exit exactly
      when it yields and its lava surface is higher; no other cell changes. */
  lemma ExitCounted(cfg: Config, s: seq<Cell>, rows: int, cols: int, aref: real, href: real,
                    i: int, j: int, d: int, x: int, y: int)
    requires |s| == rows * cols && Interior(rows, cols, i, j) && 0 <= d < 9 && d != 4
    requires InGrid(rows, cols, x, y)
    ensures var n := At(s, rows, cols, NRow(i, d), NCol(j, d));
      var c, r := At(s, rows, cols, x, y), At(ExitStep(cfg, s, rows, cols, aref, href, i, j, d), rows, cols, x, y);
      if x == NRow(i, d) && y == NCol(j, d) && Yields(cfg, aref, href, n) && Higher(aref, href, n)
      then r == c.(exits := c.exits + 1)
      else r == c
  {
    var ni, nj := NRow(i, d), NCol(j, d);
    var n := At(s, rows, cols, ni, nj);
    if Yields(cfg, aref, href, n) && Higher(aref, href, n) {
      AtUpdate(s, rows, cols, ni, nj, n.(exits := n.exits + 1), x, y);
    }
  }

  /** The grid after the comparisons with neighbours 0 .. d-1. */
  function ExitsFrom(cfg: Config, s: seq<Cell>, rows: int, cols: int, aref: real, href: real,
                     i: int, j: int, d: int): (r: seq<Cell>)
    requires |s| == rows * cols && Interior(rows, cols, i, j) && 0 <= d <= 9
    ensures |r| == |s|
    decreases j, d
  {
    if d == 0 then s
    else ExitStep(cfg, ExitsFrom(cfg, s, rows, cols, aref, href, i, j, d - 1), rows, cols, aref, href, i, j, d - 1)
  }

  /** t differs from s at most in the exit counts. */
  predicate OnlyExits(s: seq<Cell>, t: seq<Cell>) {
    |t| == |s| && forall k :: 0 <= k < |s| ==> t[k] == s[k].(exits := t[k].exits)
  }

  /** A comparison of pass 2 changes at most one exit count. */
  lemma ExitStepOnlyExits(cfg: Config, s: seq<Cell>, rows: int, cols: int, aref: real, href: real,
                          i: int, j: int, d: int)
    requires |s| == rows * cols && Interior(rows, cols, i, j) && 0 <= d < 9
    ensures OnlyExits(s, ExitStep(cfg, s, rows, cols, aref, href, i, j, d))
  {
    var t := ExitStep(cfg, s, rows, cols, aref, href, i, j, d);
    if d != 4 {
      var ni, nj := NRow(i, d), NCol(j, d);
      var n := At(s, rows, cols, ni, nj);
      if Yields(cfg, aref, href, n) && Higher(aref, href, n) {
        forall k | 0 <= k < |s|
          ensures t[k] == s[k].(exits := t[k].exits)
        {
        }
      }
    }
  }

  /** Pass 2 at one cell changes exit counts only. */
  lemma {:induction false} ExitsFromOnlyExits(cfg: Config, s: seq<Cell>, rows: int, cols: int, aref: real, href: real,
                                              i: int, j: int, d: int)
    requires |s| == rows * cols && Interior(rows, cols, i, j) && 0 <= d <= 9
    ensures OnlyExits(s, ExitsFrom(cfg, s, rows, cols, aref, href, i, j, d))
    decreases d
  {
    if d > 0 {
      var t := ExitsFrom(cfg, s, rows, cols, aref, href, i, j, d - 1);
      ExitsFromOnlyExits(cfg, s, rows, cols, aref, href, i, j, d - 1);
      ExitStepOnlyExits(cfg, t, rows, cols, aref, href, i, j, d - 1);
    }
  }

  // ----- Pass 3: vents and outflows (src/scalaf.c:323-445) -----

  /** A vent receives `eruptionRate * deltat` of volume and its heat. */
  function VentStep(cfg: Config, s: seq<Cell>, rows: int, cols: int, i: int, j: int): (r: seq<Cell>)
    requires |s| == rows * cols && Interior(rows, cols, i, j)
    ensures |r| == |s|
  {
    var c := At(s, rows, cols, i, j);
    if c.isVent == 1 then
      s[Idx(rows, cols, i, j) := c.(inboundV := c.inboundV + VentVolume(cfg), inboundQ := c.inboundQ + VentHeat(cfg))]
    else s
  }

  /** A vent gains exactly `eruptionRate * deltat` of inbound volume and
      its heat; no other cell and no other field changes. */
  lemma VentInjects(cfg: Config, s: seq<Cell>, rows: int, cols: int, i: int, j: int, x: int, y: int)
    requires |s| == rows * cols && Interior(rows, cols, i, j) && InGrid(rows, cols, x, y)
    ensures var c, r := At(s, rows, cols, x, y), At(VentStep(cfg, s, rows, cols, i, j), rows, cols, x, y);
      if x == i && y == j && c.isVent == 1
      then r == c.(inboundV := c.inboundV + VentVolume(cfg), inboundQ := c.inboundQ + VentHeat(cfg))
      else r == c
  {
    var c := At(s, rows, cols, i, j);
    if c.isVent == 1 {
      AtUpdate(s, rows, cols, i, j,
               c.(inboundV := c.inboundV + VentVolume(cfg), inboundQ := c.inboundQ + VentHeat(cfg)), x, y);
    }
  }

  /** The comparison of centre (i, j) with neighbour d: when the gate is
      open the volume deltaV is added to the neighbour's outboundV and to
      the centre's inboundV, and its heat to the centre's inboundQ. */
  function FlowStep(cfg: Config, s: seq<Cell>, rows: int, cols: int, aref: real, href: real,
                    i: int, j: int, d: int): (r: seq<Cell>)
    requires |s| == rows * cols && Interior(rows, cols, i, j) && 0 <= d < 9 && ViscOk(s)
    ensures |r| == |s| && ViscOk(r)
  {
    if d == 4 then s
    else
      var ni, nj := NRow(i, d), NCol(j, d);
      var n := At(s, rows, cols, ni, nj);
      if !Yields(cfg, aref, href, n) then s
      else
        YieldsNonZero(cfg, aref, href, n);
        var dv := DeltaV(cfg, aref, href, n);
        var s1 := s[Idx(rows, cols, ni, nj) := n.(outboundV := n.outboundV + dv)];
        var c := At(s1, rows, cols, i, j);
        s1[Idx(rows, cols, i, j) := c.(inboundV := c.inboundV + dv,
                                       inboundQ := c.inboundQ + Advected(cfg, dv, n.temperature))]
  }

  /** One open gate: the volume deltaV is added both to the neighbour's
      outboundV and to the centre's inboundV, the heat it carries to the
      centre's inboundQ, and every other cell is left alone. A closed gate
      changes nothing. */
  lemma FlowMovesVolume(cfg: Config, s: seq<Cell>, rows: int, cols: int, aref: real, href: real,
                        i: int, j: int, d: int, x: int, y: int)
    requires |s| == rows * cols && Interior(rows, cols, i, j) && 0 <= d < 9 && d != 4 && ViscOk(s)
    requires InGrid(rows, cols, x, y)
    ensures Yields(cfg, aref, href, At(s, rows, cols, NRow(i, d), NCol(j, d)))
            ==> At(s, rows, cols, NRow(i, d), NCol(j, d)).viscosity != 0.0
    ensures var n := At(s, rows, cols, NRow(i, d), NCol(j, d));
      var c, r := At(s, rows, cols, x, y), At(FlowStep(cfg, s, rows, cols, aref, href, i, j, d), rows, cols, x, y);
      if !Yields(cfg, aref, href, n) then r == c
      else if x == NRow(i, d) && y == NCol(j, d)
      then r == c.(outboundV := c.outboundV + DeltaV(cfg, aref, href, n))
      else if x == i && y == j
      then r == c.(inboundV := c.inboundV + DeltaV(cfg, aref, href, n),
                   inboundQ := c.inboundQ + Advected(cfg, DeltaV(cfg, aref, href, n), n.temperature))
      else r == c
  {
    var ni, nj := NRow(i, d), NCol(j, d);
    var n := At(s, rows, cols, ni, nj);
    if Yields(cfg, aref, href, n) {
      YieldsNonZero(cfg, aref, href, n);
      var dv := DeltaV(cfg, aref, href, n);
      var n' := n.(outboundV := n.outboundV + dv);
      var s1 := s[Idx(rows, cols, ni, nj) := n'];
      AtUpdate(s, rows, cols, ni, nj, n', x, y);
      AtUpdate(s, rows, cols, ni, nj, n', i, j);
      var c := At(s1, rows, cols, i, j);
      AtUpdate(s1, rows, cols, i, j, c.(inboundV := c.inboundV + dv,
                                        inboundQ := c.inboundQ + Advected(cfg, dv, n.temperature)), x, y);
    }
  }

  /** A step that keeps every cell's rheology keeps ViscOk. */
  lemma FlowKeepsViscOk(s: seq<Cell>, r: seq<Cell>)
    requires |r| == |s| && ViscOk(s)
    requires forall k :: 0 <= k < |s| ==> r[k].yieldStress == s[k].yieldStress && r[k].viscosity == s[k].viscosity
    ensures ViscOk(r)
  {
  }

  /** The grid after the comparisons with neighbours 0 .. d-1. */
  function FlowFrom(cfg: Config, s: seq<Cell>, rows: int, cols: int, aref: real, href: real,
                    i: int, j: int, d: int): (r: seq<Cell>)
    requires |s| == rows * cols && Interior(rows, cols, i, j) && 0 <= d <= 9 && ViscOk(s)
    ensures |r| == |s| && ViscOk(r)
    decreases j, d
  {
    if d == 0 then s
    else
      var t := FlowFrom(cfg, s, rows, cols, aref, href, i, j, d - 1);
      FlowStep(cfg, t, rows, cols, aref, href, i, j, d - 1)
  }

  // ----- One interior cell of each pass -----

  /** The work a pass does at interior cell (i, j). */
  function CellStep(p: Pass, cfg: Config, s: seq<Cell>, rows: int, cols: int, i: int, j: int): (r: seq<Cell>)
    requires ValidConfig(cfg) && |s| == rows * cols && Interior(rows, cols, i, j)
    requires p == Flow ==> ViscOk(s)
    ensures |r| == |s| && (ViscOk(s) ==> ViscOk(r))
  {
    var k := Idx(rows, cols, i, j);
    match p
    case Reset => s[k := ResetCell(cfg, s[k])]
    case Topology =>
      ExitsFromOnlyExits(cfg, s, rows, cols, s[k].altitude, s[k].thickness, i, j, Neighbourhood);
      ExitsFrom(cfg, s, rows, cols, s[k].altitude, s[k].thickness, i, j, Neighbourhood)
    case Flow =>
      var t := VentStep(cfg, s, rows, cols, i, j);
      FlowFrom(cfg, t, rows, cols, t[k].altitude, t[k].thickness, i, j, Neighbourhood)
    case Consolidation(corrected) => s[k := Consolidate(cfg, s[k], corrected)]
  }

  /** Row i after its cells (i, 1) .. (i, j-1). */
  function CellsDone(p: Pass, cfg: Config, s: seq<Cell>, rows: int, cols: int, i: int, j: int): (r: seq<Cell>)
    requires ValidConfig(cfg) && |s| == rows * cols && 1 <= i < rows - 1
    requires 1 <= j && (j == 1 || j <= cols - 1)
    requires p == Flow ==> ViscOk(s)
    ensures |r| == |s| && (ViscOk(s) ==> ViscOk(r))
    decreases j
  {
    if j == 1 then s
    else CellStep(p, cfg, CellsDone(p, cfg, s, rows, cols, i, j - 1), rows, cols, i, j - 1)
  }

  /** The grid after rows 1 .. i-1. */
  function RowsDone(p: Pass, cfg: Config, s: seq<Cell>, rows: int, cols: int, i: int): (r: seq<Cell>)
    requires ValidConfig(cfg) && |s| == rows * cols
    requires 1 <= i && (i == 1 || i <= rows - 1)
    requires p == Flow ==> ViscOk(s)
    ensures |r| == |s| && (ViscOk(s) ==> ViscOk(r))
    decreases i
  {
    if i == 1 then s
    else CellsDone(p, cfg, RowsDone(p, cfg, s, rows, cols, i - 1), rows, cols, i - 1, LastCol(cols))
  }

  /** A whole pass. */
  function RunSweep(p: Pass, cfg: Config, s: seq<Cell>, rows: int, cols: int): (r: seq<Cell>)
    requires ValidConfig(cfg) && |s| == rows * cols
    requires p == Flow ==> ViscOk(s)
    ensures |r| == |s| && (ViscOk(s) ==> ViscOk(r))
  {
    RowsDone(p, cfg, s, rows, cols, LastRow(rows))
  }

  // ----- The loops -----

  /** The `i` and `j` loops shared by the four passes. */
  method SweepPass(p: Pass, cfg: Config, a: array<Cell>, filas: int, columnas: int)
    requires ValidConfig(cfg) && a.Length == filas * columnas
    requires p == Flow ==> ViscOk(a[..])
    modifies a
    ensures a[..] == RunSweep(p, cfg, old(a[..]), filas, columnas)
  {
    ghost var s := a[..];
    var i := 1;
    while i < filas - 1
      invariant 1 <= i && (i == 1 || i <= filas - 1)
      invariant a[..] == RowsDone(p, cfg, s, filas, columnas, i)
    {
      NextRow(p, cfg, a, filas, columnas, i, s);
      i := i + 1;
    }
  }

  /** One more row of the pass over s. */
  method NextRow(p: Pass, cfg: Config, a: array<Cell>, filas: int, columnas: int, i: int, ghost s: seq<Cell>)
    requires ValidConfig(cfg) && |s| == filas * columnas && 1 <= i < filas - 1
    requires p == Flow ==> ViscOk(s)
    requires a[..] == RowsDone(p, cfg, s, filas, columnas, i)
    modifies a
    ensures a[..] == RowsDone(p, cfg, s, filas, columnas, i + 1)
  {
    SweepRow(p, cfg, a, filas, columnas, i);
  }

  /** The `j` loop of a pass for row i. */
  method SweepRow(p: Pass, cfg: Config, a: array<Cell>, filas: int, columnas: int, i: int)
    requires ValidConfig(cfg) && a.Length == filas * columnas && 1 <= i < filas - 1
    requires p == Flow ==> ViscOk(a[..])
    modifies a
    ensures a[..] == CellsDone(p, cfg, old(a[..]), filas, columnas, i, LastCol(columnas))
  {
    ghost var t := a[..];
    var j := 1;
    while j < columnas - 1
      invariant 1 <= j && (j == 1 || j <= columnas - 1)
      invariant a[..] == CellsDone(p, cfg, t, filas, columnas, i, j)
    {
      NextCell(p, cfg, a, filas, columnas, i, j, t);
      j := j + 1;
    }
    assert j == LastCol(columnas);
  }

  /** One more cell of row i. */
  method NextCell(p: Pass, cfg: Config, a: array<Cell>, filas: int, columnas: int, i: int, j: int, ghost t: seq<Cell>)
    requires ValidConfig(cfg) && |t| == filas * columnas && Interior(filas, columnas, i, j)
    requires p == Flow ==> ViscOk(t)
    requires a[..] == CellsDone(p, cfg, t, filas, columnas, i, j)
    modifies a
    ensures a[..] == CellsDone(p, cfg, t, filas, columnas, i, j + 1)
  {
    PassCell(p, cfg, a, filas, columnas, i, j);
  }

  /** The loop body of each pass at cell (i, j). */
  method PassCell(p: Pass, cfg: Config, a: array<Cell>, filas: int, columnas: int, i: int, j: int)
    requires ValidConfig(cfg) && a.Length == filas * columnas && Interior(filas, columnas, i, j)
    requires p == Flow ==> ViscOk(a[..])
    modifies a
    ensures a[..] == CellStep(p, cfg, old(a[..]), filas, columnas, i, j)
  {
    var k := Idx(filas, columnas, i, j);
    match p
    case Reset =>
      a[k] := a[k].(viscosity := cfg.visc(a[k].temperature), yieldStress := cfg.yieldStress(a[k].temperature),
                    inboundV := 0.0, inboundQ := 0.0, outboundV := 0.0, exits := 0);
    case Topology =>
      TopologyCell(cfg, a, filas, columnas, i, j);
    case Flow =>
      FlowCell(cfg, a, filas, columnas, i, j);
    case Consolidation(corrected) =>
      ConsolidateCell(cfg, a, filas, columnas, i, j, corrected);
  }

  /** Pass 2 at (i, j): the `l` and `m` loops over the eight neighbours. */
  method TopologyCell(cfg: Config, a: array<Cell>, filas: int, columnas: int, i: int, j: int)
    requires a.Length == filas * columnas && Interior(filas, columnas, i, j)
    modifies a
    ensures a[..] == ExitsFrom(cfg, old(a[..]), filas, columnas, old(a[Idx(filas, columnas, i, j)]).altitude,
                               old(a[Idx(filas, columnas, i, j)]).thickness, i, j, Neighbourhood)
  {
    ghost var s := a[..];
    var Href := a[Idx(filas, columnas, i, j)].thickness;
    var Aref := a[Idx(filas, columnas, i, j)].altitude;
    var l := -1;
    while l < 2
      invariant -1 <= l <= 2
      invariant a[..] == ExitsFrom(cfg, s, filas, columnas, Aref, Href, i, j, 3 * (l + 1))
    {
      TopologyRow(cfg, a, filas, columnas, Aref, Href, i, j, l, s);
      l := l + 1;
    }
  }

  /** The `m` loop for neighbour row i+l. */
  method TopologyRow(cfg: Config, a: array<Cell>, filas: int, columnas: int, Aref: real, Href: real,
              i: int, j: int, l: int, ghost s: seq<Cell>)
    requires a.Length == filas * columnas && |s| == filas * columnas && Interior(filas, columnas, i, j)
    requires -1 <= l <= 1
    requires a[..] == ExitsFrom(cfg, s, filas, columnas, Aref, Href, i, j, 3 * (l + 1))
    modifies a
    ensures a[..] == ExitsFrom(cfg, s, filas, columnas, Aref, Href, i, j, 3 * (l + 1) + 3)
  {
    var m := -1;
    while m < 2
      invariant -1 <= m <= 2
      invariant a[..] == ExitsFrom(cfg, s, filas, columnas, Aref, Href, i, j, 3 * (l + 1) + (m + 1))
    {
      TopologyNeighbour(cfg, a, filas, columnas, Aref, Href, i, j, l, m);
      m := m + 1;
    }
  }

  /** The comparison of (i, j) with neighbour (i+l, j+m) in pass 2. */
  method TopologyNeighbour(cfg: Config, a: array<Cell>, filas: int, columnas: int, Aref: real, Href: real,
                           i: int, j: int, l: int, m: int)
    requires a.Length == filas * columnas && Interior(filas, columnas, i, j)
    requires -1 <= l <= 1 && -1 <= m <= 1
    modifies a
    ensures a[..] == ExitStep(cfg, old(a[..]), filas, columnas, Aref, Href, i, j, 3 * (l + 1) + (m + 1))
  {
    ghost var d := 3 * (l + 1) + (m + 1);
    assert NRow(i, d) == i + l && NCol(j, d) == j + m;
    if !(m == 0 && l == 0) {
      var ni := i + l;
      var nj := j + m;
      var k := Idx(filas, columnas, ni, nj);
      if Yields(cfg, Aref, Href, a[k]) {
        if Higher(Aref, Href, a[k]) {
          a[k] := a[k].(exits := a[k].exits + 1);
        }
      }
    }
  }

  /** The vent injection at the start of pass 3 at (i, j). */
  method VentCell(cfg: Config, a: array<Cell>, filas: int, columnas: int, i: int, j: int)
    requires a.Length == filas * columnas && Interior(filas, columnas, i, j)
    modifies a
    ensures a[..] == VentStep(cfg, old(a[..]), filas, columnas, i, j)
  {
    var ck := Idx(filas, columnas, i, j);
    if a[ck].isVent == 1 {
      var deltaV := VentVolume(cfg);
      a[ck] := a[ck].(inboundV := a[ck].inboundV + deltaV);
      var deltaQ_flu_vent := VentHeat(cfg);
      a[ck] := a[ck].(inboundQ := a[ck].inboundQ + deltaQ_flu_vent);
    }
  }

  /** Pass 3 at (i, j): the vent injection, then the `l` and `m` loops. */
  method FlowCell(cfg: Config, a: array<Cell>, filas: int, columnas: int, i: int, j: int)
    requires a.Length == filas * columnas && Interior(filas, columnas, i, j) && ViscOk(a[..])
    modifies a
    ensures var t := VentStep(cfg, old(a[..]), filas, columnas, i, j);
      var k := Idx(filas, columnas, i, j);
      a[..] == FlowFrom(cfg, t, filas, columnas, t[k].altitude, t[k].thickness, i, j, Neighbourhood)
  {
    VentCell(cfg, a, filas, columnas, i, j);
    var ck := Idx(filas, columnas, i, j);
    ghost var s := a[..];
    FlowKeepsViscOk(old(a[..]), s);
    var Href := a[ck].thickness;
    var Aref := a[ck].altitude;
    var l := -1;
    while l < 2
      invariant -1 <= l <= 2
      invariant a[..] == FlowFrom(cfg, s, filas, columnas, Aref, Href, i, j, 3 * (l + 1))
    {
      FlowRow(cfg, a, filas, columnas, Aref, Href, i, j, l, s);
      l := l + 1;
    }
  }

  /** The `m` loop for neighbour row i+l. */
  method FlowRow(cfg: Config, a: array<Cell>, filas: int, columnas: int, Aref: real, Href: real,
              i: int, j: int, l: int, ghost s: seq<Cell>)
    requires a.Length == filas * columnas && |s| == filas * columnas && Interior(filas, columnas, i, j) && ViscOk(s)
    requires -1 <= l <= 1
    requires a[..] == FlowFrom(cfg, s, filas, columnas, Aref, Href, i, j, 3 * (l + 1))
    modifies a
    ensures a[..] == FlowFrom(cfg, s, filas, columnas, Aref, Href, i, j, 3 * (l + 1) + 3)
  {
    var m := -1;
    while m < 2
      invariant -1 <= m <= 2
      invariant a[..] == FlowFrom(cfg, s, filas, columnas, Aref, Href, i, j, 3 * (l + 1) + (m + 1))
    {
      ghost var d := 3 * (l + 1) + (m + 1);
      FlowNeighbour(cfg, a, filas, columnas, Aref, Href, i, j, l, m);
      assert a[..] == FlowFrom(cfg, s, filas, columnas, Aref, Href, i, j, d + 1);
      m := m + 1;
    }
  }

  /** The comparison of (i, j) with neighbour (i+l, j+m) in pass 3. */
  method FlowNeighbour(cfg: Config, a: array<Cell>, filas: int, columnas: int, Aref: real, Href: real,
                       i: int, j: int, l: int, m: int)
    requires a.Length == filas * columnas && Interior(filas, columnas, i, j) && ViscOk(a[..])
    requires -1 <= l <= 1 && -1 <= m <= 1
    modifies a
    ensures a[..] == FlowStep(cfg, old(a[..]), filas, columnas, Aref, Href, i, j, 3 * (l + 1) + (m + 1))
  {
    ghost var d := 3 * (l + 1) + (m + 1);
    assert NRow(i, d) == i + l && NCol(j, d) == j + m;
    if !(m == 0 && l == 0) {
      var ck := Idx(filas, columnas, i, j);
      var nk := Idx(filas, columnas, i + l, j + m);
      if Yields(cfg, Aref, Href, a[nk]) {
        YieldsNonZero(cfg, Aref, Href, a[nk]);
        var deltaV := DeltaV(cfg, Aref, Href, a[nk]);
        a[nk] := a[nk].(outboundV := a[nk].outboundV + deltaV);
        a[ck] := a[ck].(inboundV := a[ck].inboundV + deltaV);
        a[ck] := a[ck].(inboundQ := a[ck].inboundQ + Advected(cfg, deltaV, a[nk].temperature));
      }
    }
  }

  /** Pass 4 at (i, j), with the source's locals. */
  method ConsolidateCell(cfg: Config, a: array<Cell>, filas: int, columnas: int, i: int, j: int, corrected: bool)
    requires ValidConfig(cfg) && a.Length == filas * columnas && Interior(filas, columnas, i, j)
    modifies a
    ensures var k := Idx(filas, columnas, i, j);
      a[..] == old(a[..])[k := Consolidate(cfg, old(a[k]), corrected)]
  {
    var k := Idx(filas, columnas, i, j);
    var thickness_0 := a[k].thickness;
    var temperature_0 := a[k].temperature;
    var Q_base := if corrected then BaseHeatCorrected(cfg, a[k]) else BaseHeat(cfg, a[k]);
    var deltaQ_rad := Radiation(cfg, thickness_0, temperature_0);
    a[k] := a[k].(thickness := NewThickness(cfg, a[k]));
    var deltaQ_flu_in := a[k].inboundQ;
    var deltaQ_flu_out := Advected(cfg, a[k].outboundV, temperature_0);
    var deltaQ_flu := deltaQ_flu_in - deltaQ_flu_out;
    var deltaQ := Q_base + deltaQ_flu + deltaQ_rad;
    assert deltaQ == TotalHeat(cfg, old(a[k]), corrected);
    if a[k].thickness > Eps8 {
      ColumnCapacityNonZero(cfg, a[k].thickness);
      a[k] := a[k].(temperature := deltaQ / ColumnCapacity(cfg, a[k].thickness));
    } else {
      a[k] := a[k].(temperature := Ambient);
    }
  }
}
