/** What each pass of FuncionPrincipal may change. Reset and Consolidation
    touch only the cell they visit, so their result is known pointwise;
    Topology changes only exit counts and Flow only the three accumulators,
    and neither reaches a border cell whose yield stress is zero. */
module Frames {
  import opened Grid
  import opened Physics
  import opened Sweep

  /** t differs from s at most in inboundV, outboundV and inboundQ. */
  predicate OnlyFlows(s: seq<Cell>, t: seq<Cell>) {
    |t| == |s| && forall k :: 0 <= k < |s| ==>
      t[k] == s[k].(inboundV := t[k].inboundV, outboundV := t[k].outboundV, inboundQ := t[k].inboundQ)
  }

  /** The border of the padded grid never opens a flow gate. */
  ghost predicate BorderInert(s: seq<Cell>, rows: int, cols: int)
    requires |s| == rows * cols
  {
    forall i, j :: OnBorder(rows, cols, i, j) ==> At(s, rows, cols, i, j).yieldStress == 0.0
  }

  /** s and t hold the same cells on the border. */
  ghost predicate SameBorder(s: seq<Cell>, t: seq<Cell>, rows: int, cols: int)
    requires |s| == rows * cols && |t| == rows * cols
  {
    forall i, j :: OnBorder(rows, cols, i, j) ==> At(t, rows, cols, i, j) == At(s, rows, cols, i, j)
  }

  /** A neighbour of an interior cell lies in the grid. */
  lemma NeighbourInGrid(rows: int, cols: int, i: int, j: int, d: int)
    requires Interior(rows, cols, i, j) && 0 <= d < 9
    ensures InGrid(rows, cols, NRow(i, d), NCol(j, d))
  {
  }

  /** A cell that opens its gate is never on an inert border. */
  lemma OpenGateInterior(cfg: Config, s: seq<Cell>, rows: int, cols: int, aref: real, href: real, x: int, y: int)
    requires |s| == rows * cols && InGrid(rows, cols, x, y) && BorderInert(s, rows, cols)
    requires Yields(cfg, aref, href, At(s, rows, cols, x, y))
    ensures Interior(rows, cols, x, y)
  {
    YieldsNonZero(cfg, aref, href, At(s, rows, cols, x, y));
  }

  /** Writing an interior position leaves the border as it was. */
  lemma InteriorWriteKeepsBorder(s: seq<Cell>, rows: int, cols: int, x: int, y: int, c: Cell)
    requires |s| == rows * cols && Interior(rows, cols, x, y)
    ensures SameBorder(s, s[Idx(rows, cols, x, y) := c], rows, cols)
  {
    forall i, j | OnBorder(rows, cols, i, j)
      ensures At(s[Idx(rows, cols, x, y) := c], rows, cols, i, j) == At(s, rows, cols, i, j)
    {
      AtUpdate(s, rows, cols, x, y, c, i, j);
    }
  }

  // ----- Topology -----

  lemma ExitStepKeepsBorder(cfg: Config, s: seq<Cell>, rows: int, cols: int, aref: real, href: real,
                            i: int, j: int, d: int)
    requires |s| == rows * cols && Interior(rows, cols, i, j) && 0 <= d < 9 && BorderInert(s, rows, cols)
    ensures SameBorder(s, ExitStep(cfg, s, rows, cols, aref, href, i, j, d), rows, cols)
  {
    if d != 4 {
      var ni, nj := NRow(i, d), NCol(j, d);
      NeighbourInGrid(rows, cols, i, j, d);
      var n := At(s, rows, cols, ni, nj);
      if Yields(cfg, aref, href, n) && Higher(aref, href, n) {
        OpenGateInterior(cfg, s, rows, cols, aref, href, ni, nj);
        InteriorWriteKeepsBorder(s, rows, cols, ni, nj, n.(exits := n.exits + 1));
      }
    }
  }

  lemma {:induction false} ExitsFromKeepsBorder(cfg: Config, s: seq<Cell>, rows: int, cols: int, aref: real, href: real,
                                                i: int, j: int, d: int)
    requires |s| == rows * cols && Interior(rows, cols, i, j) && 0 <= d <= 9 && BorderInert(s, rows, cols)
    ensures SameBorder(s, ExitsFrom(cfg, s, rows, cols, aref, href, i, j, d), rows, cols)
    decreases d
  {
    if d > 0 {
      var t := ExitsFrom(cfg, s, rows, cols, aref, href, i, j, d - 1);
      ExitsFromKeepsBorder(cfg, s, rows, cols, aref, href, i, j, d - 1);
      ExitStepKeepsBorder(cfg, t, rows, cols, aref, href, i, j, d - 1);
    }
  }

  // ----- Flow -----

  /** A comparison of pass 3 changes the accumulators only. */
  lemma FlowStepOnlyFlows(cfg: Config, s: seq<Cell>, rows: int, cols: int, aref: real, href: real,
                          i: int, j: int, d: int)
    requires |s| == rows * cols && Interior(rows, cols, i, j) && 0 <= d < 9 && ViscOk(s)
    ensures OnlyFlows(s, FlowStep(cfg, s, rows, cols, aref, href, i, j, d))
  {
    var t := FlowStep(cfg, s, rows, cols, aref, href, i, j, d);
    if d != 4 {
      var ni, nj := NRow(i, d), NCol(j, d);
      var n := At(s, rows, cols, ni, nj);
      if Yields(cfg, aref, href, n) {
        forall k | 0 <= k < |s|
          ensures t[k] == s[k].(inboundV := t[k].inboundV, outboundV := t[k].outboundV, inboundQ := t[k].inboundQ)
        {
        }
      }
    }
  }

  lemma {:induction false} FlowFromOnlyFlows(cfg: Config, s: seq<Cell>, rows: int, cols: int, aref: real, href: real,
                                             i: int, j: int, d: int)
    requires |s| == rows * cols && Interior(rows, cols, i, j) && 0 <= d <= 9 && ViscOk(s)
    ensures OnlyFlows(s, FlowFrom(cfg, s, rows, cols, aref, href, i, j, d))
    decreases d
  {
    if d > 0 {
      var t := FlowFrom(cfg, s, rows, cols, aref, href, i, j, d - 1);
      FlowFromOnlyFlows(cfg, s, rows, cols, aref, href, i, j, d - 1);
      FlowStepOnlyFlows(cfg, t, rows, cols, aref, href, i, j, d - 1);
    }
  }

  lemma FlowStepKeepsBorder(cfg: Config, s: seq<Cell>, rows: int, cols: int, aref: real, href: real,
                            i: int, j: int, d: int)
    requires |s| == rows * cols && Interior(rows, cols, i, j) && 0 <= d < 9 && ViscOk(s) && BorderInert(s, rows, cols)
    ensures SameBorder(s, FlowStep(cfg, s, rows, cols, aref, href, i, j, d), rows, cols)
  {
    if d != 4 {
      var ni, nj := NRow(i, d), NCol(j, d);
      NeighbourInGrid(rows, cols, i, j, d);
      var n := At(s, rows, cols, ni, nj);
      if Yields(cfg, aref, href, n) {
        OpenGateInterior(cfg, s, rows, cols, aref, href, ni, nj);
        YieldsNonZero(cfg, aref, href, n);
        var dv := DeltaV(cfg, aref, href, n);
        var s1 := s[Idx(rows, cols, ni, nj) := n.(outboundV := n.outboundV + dv)];
        InteriorWriteKeepsBorder(s, rows, cols, ni, nj, n.(outboundV := n.outboundV + dv));
        var c := At(s1, rows, cols, i, j);
        InteriorWriteKeepsBorder(s1, rows, cols, i, j,
          c.(inboundV := c.inboundV + dv, inboundQ := c.inboundQ + Advected(cfg, dv, n.temperature)));
      }
    }
  }

  lemma {:induction false} FlowFromKeepsBorder(cfg: Config, s: seq<Cell>, rows: int, cols: int, aref: real, href: real,
                                               i: int, j: int, d: int)
    requires |s| == rows * cols && Interior(rows, cols, i, j) && 0 <= d <= 9 && ViscOk(s) && BorderInert(s, rows, cols)
    ensures SameBorder(s, FlowFrom(cfg, s, rows, cols, aref, href, i, j, d), rows, cols)
    decreases d
  {
    if d > 0 {
      var t := FlowFrom(cfg, s, rows, cols, aref, href, i, j, d - 1);
      FlowFromKeepsBorder(cfg, s, rows, cols, aref, href, i, j, d - 1);
      FlowStepKeepsBorder(cfg, t, rows, cols, aref, href, i, j, d - 1);
    }
  }

  // ----- Whole passes -----

  /** The per-cell frame of each pass. */
  ghost predicate PassFrame(p: Pass, s: seq<Cell>, t: seq<Cell>)
  {
    match p
    case Topology => OnlyExits(s, t)
    case Flow => OnlyFlows(s, t)
    case _ => true
  }

  lemma FrameTrans(p: Pass, a: seq<Cell>, b: seq<Cell>, c: seq<Cell>)
    requires PassFrame(p, a, b) && PassFrame(p, b, c)
    ensures PassFrame(p, a, c)
  {
  }

  lemma BorderTrans(a: seq<Cell>, b: seq<Cell>, c: seq<Cell>, rows: int, cols: int)
    requires |a| == rows * cols && |b| == rows * cols && |c| == rows * cols
    requires SameBorder(a, b, rows, cols) && SameBorder(b, c, rows, cols)
    ensures SameBorder(a, c, rows, cols)
  {
  }

  lemma InertKept(a: seq<Cell>, b: seq<Cell>, rows: int, cols: int)
    requires |a| == rows * cols && |b| == rows * cols
    requires SameBorder(a, b, rows, cols) && BorderInert(a, rows, cols)
    ensures BorderInert(b, rows, cols)
  {
  }

  lemma TopologyCellFrame(cfg: Config, s: seq<Cell>, rows: int, cols: int, i: int, j: int)
    requires ValidConfig(cfg) && |s| == rows * cols && Interior(rows, cols, i, j)
    requires BorderInert(s, rows, cols)
    ensures var t := CellStep(Topology, cfg, s, rows, cols, i, j);
      OnlyExits(s, t) && SameBorder(s, t, rows, cols)
  {
    var k := Idx(rows, cols, i, j);
    ExitsFromKeepsBorder(cfg, s, rows, cols, s[k].altitude, s[k].thickness, i, j, Neighbourhood);
    ExitsFromOnlyExits(cfg, s, rows, cols, s[k].altitude, s[k].thickness, i, j, Neighbourhood);
  }

  lemma FlowCellFrame(cfg: Config, s: seq<Cell>, rows: int, cols: int, i: int, j: int)
    requires ValidConfig(cfg) && |s| == rows * cols && Interior(rows, cols, i, j)
    requires ViscOk(s) && BorderInert(s, rows, cols)
    ensures var t := CellStep(Flow, cfg, s, rows, cols, i, j);
      OnlyFlows(s, t) && SameBorder(s, t, rows, cols)
  {
    var k := Idx(rows, cols, i, j);
    var t := VentStep(cfg, s, rows, cols, i, j);
    if s[k].isVent == 1 {
      InteriorWriteKeepsBorder(s, rows, cols, i, j, s[k].(inboundV := s[k].inboundV + VentVolume(cfg),
                                                          inboundQ := s[k].inboundQ + VentHeat(cfg)));
    }
    assert OnlyFlows(s, t);
    assert ViscOk(t);
    InertKept(s, t, rows, cols);
    var r := FlowFrom(cfg, t, rows, cols, t[k].altitude, t[k].thickness, i, j, Neighbourhood);
    FlowFromOnlyFlows(cfg, t, rows, cols, t[k].altitude, t[k].thickness, i, j, Neighbourhood);
    FlowFromKeepsBorder(cfg, t, rows, cols, t[k].altitude, t[k].thickness, i, j, Neighbourhood);
    FrameTrans(Flow, s, t, r);
    BorderTrans(s, t, r, rows, cols);
  }

  lemma CellStepFrame(p: Pass, cfg: Config, s: seq<Cell>, rows: int, cols: int, i: int, j: int)
    requires ValidConfig(cfg) && |s| == rows * cols && Interior(rows, cols, i, j)
    requires p == Topology || p == Flow
    requires p == Flow ==> ViscOk(s)
    requires BorderInert(s, rows, cols)
    ensures var t := CellStep(p, cfg, s, rows, cols, i, j);
      PassFrame(p, s, t) && SameBorder(s, t, rows, cols)
  {
    if p == Topology {
      TopologyCellFrame(cfg, s, rows, cols, i, j);
    } else {
      FlowCellFrame(cfg, s, rows, cols, i, j);
    }
  }

  /** One more cell step keeps the frame accumulated so far. */
  lemma ExtendFrame(p: Pass, cfg: Config, s: seq<Cell>, t: seq<Cell>, rows: int, cols: int, i: int, j: int)
    requires ValidConfig(cfg) && |s| == rows * cols && |t| == rows * cols && Interior(rows, cols, i, j)
    requires p == Topology || p == Flow
    requires p == Flow ==> ViscOk(t)
    requires BorderInert(s, rows, cols)
    requires PassFrame(p, s, t) && SameBorder(s, t, rows, cols)
    ensures PassFrame(p, s, CellStep(p, cfg, t, rows, cols, i, j))
    ensures SameBorder(s, CellStep(p, cfg, t, rows, cols, i, j), rows, cols)
  {
    InertKept(s, t, rows, cols);
    var r := CellStep(p, cfg, t, rows, cols, i, j);
    CellStepFrame(p, cfg, t, rows, cols, i, j);
    FrameTrans(p, s, t, r);
    BorderTrans(s, t, r, rows, cols);
  }

  lemma {:induction false} CellsDoneFrame(p: Pass, cfg: Config, s: seq<Cell>, rows: int, cols: int, i: int, j: int)
    requires ValidConfig(cfg) && |s| == rows * cols && 1 <= i < rows - 1
    requires 1 <= j && (j == 1 || j <= cols - 1)
    requires p == Topology || p == Flow
    requires p == Flow ==> ViscOk(s)
    requires BorderInert(s, rows, cols)
    ensures PassFrame(p, s, CellsDone(p, cfg, s, rows, cols, i, j))
    ensures SameBorder(s, CellsDone(p, cfg, s, rows, cols, i, j), rows, cols)
    decreases j
  {
    if j > 1 {
      CellsDoneFrame(p, cfg, s, rows, cols, i, j - 1);
      ExtendFrame(p, cfg, s, CellsDone(p, cfg, s, rows, cols, i, j - 1), rows, cols, i, j - 1);
    }
  }

  /** One more row keeps the frame accumulated so far. */
  lemma ExtendRowFrame(p: Pass, cfg: Config, s: seq<Cell>, t: seq<Cell>, rows: int, cols: int, i: int)
    requires ValidConfig(cfg) && |s| == rows * cols && |t| == rows * cols && 1 <= i < rows - 1
    requires p == Topology || p == Flow
    requires p == Flow ==> ViscOk(t)
    requires BorderInert(s, rows, cols)
    requires PassFrame(p, s, t) && SameBorder(s, t, rows, cols)
    ensures PassFrame(p, s, CellsDone(p, cfg, t, rows, cols, i, LastCol(cols)))
    ensures SameBorder(s, CellsDone(p, cfg, t, rows, cols, i, LastCol(cols)), rows, cols)
  {
    InertKept(s, t, rows, cols);
    var r := CellsDone(p, cfg, t, rows, cols, i, LastCol(cols));
    CellsDoneFrame(p, cfg, t, rows, cols, i, LastCol(cols));
    FrameTrans(p, s, t, r);
    BorderTrans(s, t, r, rows, cols);
  }

  lemma {:induction false} RowsDoneFrame(p: Pass, cfg: Config, s: seq<Cell>, rows: int, cols: int, i: int)
    requires ValidConfig(cfg) && |s| == rows * cols
    requires 1 <= i && (i == 1 || i <= rows - 1)
    requires p == Topology || p == Flow
    requires p == Flow ==> ViscOk(s)
    requires BorderInert(s, rows, cols)
    ensures PassFrame(p, s, RowsDone(p, cfg, s, rows, cols, i))
    ensures SameBorder(s, RowsDone(p, cfg, s, rows, cols, i), rows, cols)
    decreases i
  {
    if i > 1 {
      RowsDoneFrame(p, cfg, s, rows, cols, i - 1);
      ExtendRowFrame(p, cfg, s, RowsDone(p, cfg, s, rows, cols, i - 1), rows, cols, i - 1);
    }
  }

  /** Topology changes only exit counts and Flow only the accumulators, and
      neither touches an inert border. */
  lemma SweepFrame(p: Pass, cfg: Config, s: seq<Cell>, rows: int, cols: int)
    requires ValidConfig(cfg) && |s| == rows * cols
    requires p == Topology || p == Flow
    requires p == Flow ==> ViscOk(s)
    requires BorderInert(s, rows, cols)
    ensures var t := RunSweep(p, cfg, s, rows, cols);
      PassFrame(p, s, t) && SameBorder(s, t, rows, cols)
  {
    RowsDoneFrame(p, cfg, s, rows, cols, LastRow(rows));
  }

  // ----- Cell-local passes -----

  /** What Reset and Consolidation do to the one cell they visit. */
  function CellFn(p: Pass, cfg: Config, c: Cell): Cell
    requires ValidConfig(cfg) && (p == Reset || p.Consolidation?)
  {
    match p
    case Reset => ResetCell(cfg, c)
    case Consolidation(corrected) => Consolidate(cfg, c, corrected)
  }

  lemma {:induction false} LocalCellsDone(p: Pass, cfg: Config, s: seq<Cell>, rows: int, cols: int, i: int, j: int, x: int, y: int)
    requires ValidConfig(cfg) && |s| == rows * cols && 1 <= i < rows - 1
    requires 1 <= j && (j == 1 || j <= cols - 1)
    requires p == Reset || p.Consolidation?
    requires InGrid(rows, cols, x, y)
    ensures At(CellsDone(p, cfg, s, rows, cols, i, j), rows, cols, x, y)
            == if x == i && 1 <= y < j then CellFn(p, cfg, At(s, rows, cols, x, y)) else At(s, rows, cols, x, y)
    decreases j
  {
    if j > 1 {
      var t := CellsDone(p, cfg, s, rows, cols, i, j - 1);
      LocalCellsDone(p, cfg, s, rows, cols, i, j - 1, x, y);
      LocalCellsDone(p, cfg, s, rows, cols, i, j - 1, i, j - 1);
      AtUpdate(t, rows, cols, i, j - 1, CellFn(p, cfg, At(t, rows, cols, i, j - 1)), x, y);
    }
  }

  lemma {:induction false} LocalRowsDone(p: Pass, cfg: Config, s: seq<Cell>, rows: int, cols: int, i: int, x: int, y: int)
    requires ValidConfig(cfg) && |s| == rows * cols
    requires 1 <= i && (i == 1 || i <= rows - 1)
    requires p == Reset || p.Consolidation?
    requires InGrid(rows, cols, x, y)
    ensures At(RowsDone(p, cfg, s, rows, cols, i), rows, cols, x, y)
            == if Interior(rows, cols, x, y) && x < i then CellFn(p, cfg, At(s, rows, cols, x, y)) else At(s, rows, cols, x, y)
    decreases i
  {
    if i > 1 {
      var t := RowsDone(p, cfg, s, rows, cols, i - 1);
      LocalRowsDone(p, cfg, s, rows, cols, i - 1, x, y);
      LocalCellsDone(p, cfg, t, rows, cols, i - 1, LastCol(cols), x, y);
    }
  }

  /** Reset and Consolidation apply their cell function to every interior
      cell and leave every border cell as it was. */
  lemma LocalSweepAt(p: Pass, cfg: Config, s: seq<Cell>, rows: int, cols: int, x: int, y: int)
    requires ValidConfig(cfg) && |s| == rows * cols
    requires p == Reset || p.Consolidation?
    requires InGrid(rows, cols, x, y)
    ensures At(RunSweep(p, cfg, s, rows, cols), rows, cols, x, y)
            == if Interior(rows, cols, x, y) then CellFn(p, cfg, At(s, rows, cols, x, y)) else At(s, rows, cols, x, y)
  {
    LocalRowsDone(p, cfg, s, rows, cols, LastRow(rows), x, y);
  }
}
