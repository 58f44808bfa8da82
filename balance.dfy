/** Volume balance of a time step. Lava volume (thickness times cell area)
    summed over the interior changes in one step by exactly the volume the
    vents erupt: the flow pass only moves volume between cells, and the
    consolidation pass turns each cell's net inflow into thickness. */
module Balance {
  import opened Grid
  import opened Physics
  import opened Sweep
  import opened Frames
  import opened Sums
  import opened Engine

  /** The lava volume of a cell. */
  function Volume(cfg: Config): Cell -> real {
    (c: Cell) => c.thickness * CellArea(cfg)
  }

  /** The net volume a cell has accumulated in the flow pass. */
  function Net(c: Cell): real {
    c.inboundV - c.outboundV
  }

  /** The volume a vent adds per step; zero for any other cell. */
  function VentSupply(cfg: Config): Cell -> real {
    (c: Cell) => if c.isVent == 1 then VentVolume(cfg) else 0.0
  }

  /** One for a vent, zero for any other cell. */
  function VentMark(c: Cell): real {
    if c.isVent == 1 then 1.0 else 0.0
  }

  // ----- Frames carried to sums -----

  /** Changing only flows or exits leaves volume and vents as they were. */
  lemma FramedSums(cfg: Config, s: seq<Cell>, t: seq<Cell>, rows: int, cols: int)
    requires |s| == rows * cols && |t| == rows * cols
    requires OnlyFlows(s, t) || OnlyExits(s, t)
    ensures InteriorSum(t, rows, cols, Volume(cfg)) == InteriorSum(s, rows, cols, Volume(cfg))
    ensures InteriorSum(t, rows, cols, VentSupply(cfg)) == InteriorSum(s, rows, cols, VentSupply(cfg))
    ensures forall x, y :: Interior(rows, cols, x, y) ==>
              VentSupply(cfg)(At(t, rows, cols, x, y)) == VentSupply(cfg)(At(s, rows, cols, x, y))
  {
    forall x, y | Interior(rows, cols, x, y)
      ensures At(t, rows, cols, x, y).thickness == At(s, rows, cols, x, y).thickness
      ensures At(t, rows, cols, x, y).isVent == At(s, rows, cols, x, y).isVent
    {
      var k := Idx(rows, cols, x, y);
      assert t[k].thickness == s[k].thickness && t[k].isVent == s[k].isVent;
    }
    SumSame(s, t, rows, cols, Volume(cfg));
    SumSame(s, t, rows, cols, VentSupply(cfg));
  }

  /** Exits and flows are also left alone by the reset pass's border. */
  lemma LocalKeepsBorder(p: Pass, cfg: Config, s: seq<Cell>, rows: int, cols: int)
    requires ValidConfig(cfg) && |s| == rows * cols
    requires p == Reset || p.Consolidation?
    ensures SameBorder(s, RunSweep(p, cfg, s, rows, cols), rows, cols)
  {
    forall i, j | OnBorder(rows, cols, i, j)
      ensures At(RunSweep(p, cfg, s, rows, cols), rows, cols, i, j) == At(s, rows, cols, i, j)
    {
      LocalSweepAt(p, cfg, s, rows, cols, i, j);
    }
  }

  // ----- Pass 1 -----

  /** The reset pass zeroes every interior accumulator and keeps volume and vents. */
  lemma ResetSums(cfg: Config, s: seq<Cell>, rows: int, cols: int)
    requires ValidConfig(cfg) && |s| == rows * cols
    ensures var t := RunSweep(Reset, cfg, s, rows, cols);
      && InteriorSum(t, rows, cols, Net) == 0.0
      && InteriorSum(t, rows, cols, Volume(cfg)) == InteriorSum(s, rows, cols, Volume(cfg))
      && InteriorSum(t, rows, cols, VentSupply(cfg)) == InteriorSum(s, rows, cols, VentSupply(cfg))
  {
    var t := RunSweep(Reset, cfg, s, rows, cols);
    forall x, y | Interior(rows, cols, x, y)
      ensures At(t, rows, cols, x, y) == ResetCell(cfg, At(s, rows, cols, x, y))
    {
      LocalSweepAt(Reset, cfg, s, rows, cols, x, y);
    }
    SumZero(t, rows, cols, Net);
    SumSame(s, t, rows, cols, Volume(cfg));
    SumSame(s, t, rows, cols, VentSupply(cfg));
  }

  // ----- Pass 3 -----

  /** One open gate moves deltaV from the neighbour's account to the
      centre's: the interior net inflow is unchanged. */
  lemma FlowStepNet(cfg: Config, s: seq<Cell>, rows: int, cols: int, aref: real, href: real, i: int, j: int, d: int)
    requires |s| == rows * cols && Interior(rows, cols, i, j) && 0 <= d < 9 && ViscOk(s) && BorderInert(s, rows, cols)
    ensures InteriorSum(FlowStep(cfg, s, rows, cols, aref, href, i, j, d), rows, cols, Net) == InteriorSum(s, rows, cols, Net)
  {
    if d != 4 {
      var ni, nj := NRow(i, d), NCol(j, d);
      NeighbourInGrid(rows, cols, i, j, d);
      var n := At(s, rows, cols, ni, nj);
      if Yields(cfg, aref, href, n) {
        OpenGateInterior(cfg, s, rows, cols, aref, href, ni, nj);
        YieldsNonZero(cfg, aref, href, n);
        var dv := DeltaV(cfg, aref, href, n);
        var n' := n.(outboundV := n.outboundV + dv);
        var s1 := s[Idx(rows, cols, ni, nj) := n'];
        SumUpdate(s, rows, cols, Net, ni, nj, n');
        var c := At(s1, rows, cols, i, j);
        var c' := c.(inboundV := c.inboundV + dv, inboundQ := c.inboundQ + Advected(cfg, dv, n.temperature));
        SumUpdate(s1, rows, cols, Net, i, j, c');
      }
    }
  }

  lemma {:induction false} FlowFromNet(cfg: Config, s: seq<Cell>, rows: int, cols: int, aref: real, href: real,
                                       i: int, j: int, d: int)
    requires |s| == rows * cols && Interior(rows, cols, i, j) && 0 <= d <= 9 && ViscOk(s) && BorderInert(s, rows, cols)
    ensures InteriorSum(FlowFrom(cfg, s, rows, cols, aref, href, i, j, d), rows, cols, Net) == InteriorSum(s, rows, cols, Net)
    decreases d
  {
    if d > 0 {
      var t := FlowFrom(cfg, s, rows, cols, aref, href, i, j, d - 1);
      FlowFromNet(cfg, s, rows, cols, aref, href, i, j, d - 1);
      FlowFromKeepsBorder(cfg, s, rows, cols, aref, href, i, j, d - 1);
      InertKept(s, t, rows, cols);
      FlowStepNet(cfg, t, rows, cols, aref, href, i, j, d - 1);
    }
  }

  /** The flow pass at one interior cell adds exactly its vent supply to the interior net inflow. */
  lemma FlowCellNet(cfg: Config, s: seq<Cell>, rows: int, cols: int, i: int, j: int)
    requires ValidConfig(cfg) && |s| == rows * cols && Interior(rows, cols, i, j)
    requires ViscOk(s) && BorderInert(s, rows, cols)
    ensures InteriorSum(CellStep(Flow, cfg, s, rows, cols, i, j), rows, cols, Net)
            == InteriorSum(s, rows, cols, Net) + VentSupply(cfg)(At(s, rows, cols, i, j))
  {
    var k := Idx(rows, cols, i, j);
    var t := VentStep(cfg, s, rows, cols, i, j);
    if s[k].isVent == 1 {
      var c := s[k].(inboundV := s[k].inboundV + VentVolume(cfg), inboundQ := s[k].inboundQ + VentHeat(cfg));
      SumUpdate(s, rows, cols, Net, i, j, c);
      InteriorWriteKeepsBorder(s, rows, cols, i, j, c);
      InertKept(s, t, rows, cols);
    }
    assert InteriorSum(t, rows, cols, Net) == InteriorSum(s, rows, cols, Net) + VentSupply(cfg)(At(s, rows, cols, i, j));
    FlowKeepsViscOk(s, t);
    FlowFromNet(cfg, t, rows, cols, t[k].altitude, t[k].thickness, i, j, Neighbourhood);
    assert CellStep(Flow, cfg, s, rows, cols, i, j) == FlowFrom(cfg, t, rows, cols, t[k].altitude, t[k].thickness, i, j, Neighbourhood);
  }

  /** One more flow cell step adds that cell's supply. */
  lemma ExtendNet(p: Pass, cfg: Config, s: seq<Cell>, t: seq<Cell>, rows: int, cols: int, i: int, j: int)
    requires p == Flow
    requires ValidConfig(cfg) && |s| == rows * cols && |t| == rows * cols && Interior(rows, cols, i, j)
    requires ViscOk(t) && BorderInert(s, rows, cols)
    requires PassFrame(p, s, t) && SameBorder(s, t, rows, cols)
    ensures InteriorSum(CellStep(p, cfg, t, rows, cols, i, j), rows, cols, Net)
            == InteriorSum(t, rows, cols, Net) + VentSupply(cfg)(At(s, rows, cols, i, j))
  {
    assert OnlyFlows(s, t);
    InertKept(s, t, rows, cols);
    FlowCellNet(cfg, t, rows, cols, i, j);
    var k := Idx(rows, cols, i, j);
    assert t[k].isVent == s[k].isVent;
  }

  lemma {:induction false} FlowCellsNet(p: Pass, cfg: Config, s: seq<Cell>, rows: int, cols: int, i: int, j: int)
    requires p == Flow
    requires ValidConfig(cfg) && |s| == rows * cols && 1 <= i < rows - 1
    requires 1 <= j && (j == 1 || j <= cols - 1)
    requires ViscOk(s) && BorderInert(s, rows, cols)
    ensures InteriorSum(CellsDone(p, cfg, s, rows, cols, i, j), rows, cols, Net)
            == InteriorSum(s, rows, cols, Net) + RowSum(s, rows, cols, VentSupply(cfg), i, j)
    decreases j
  {
    if j > 1 {
      FlowCellsNet(p, cfg, s, rows, cols, i, j - 1);
      CellsDoneFrame(p, cfg, s, rows, cols, i, j - 1);
      ExtendNet(p, cfg, s, CellsDone(p, cfg, s, rows, cols, i, j - 1), rows, cols, i, j - 1);
    }
  }

  /** One more row of the flow pass adds that row's supply. */
  lemma ExtendRowNet(p: Pass, cfg: Config, s: seq<Cell>, t: seq<Cell>, rows: int, cols: int, i: int)
    requires p == Flow
    requires ValidConfig(cfg) && |s| == rows * cols && |t| == rows * cols && 1 <= i < rows - 1
    requires ViscOk(t) && BorderInert(s, rows, cols)
    requires PassFrame(p, s, t) && SameBorder(s, t, rows, cols)
    ensures InteriorSum(CellsDone(p, cfg, t, rows, cols, i, LastCol(cols)), rows, cols, Net)
            == InteriorSum(t, rows, cols, Net) + RowSum(s, rows, cols, VentSupply(cfg), i, LastCol(cols))
  {
    assert OnlyFlows(s, t);
    InertKept(s, t, rows, cols);
    FlowCellsNet(p, cfg, t, rows, cols, i, LastCol(cols));
    FramedSums(cfg, s, t, rows, cols);
    RowSame(s, t, rows, cols, VentSupply(cfg), i, LastCol(cols));
  }

  lemma {:induction false} FlowRowsNet(p: Pass, cfg: Config, s: seq<Cell>, rows: int, cols: int, i: int)
    requires p == Flow
    requires ValidConfig(cfg) && |s| == rows * cols
    requires 1 <= i && (i == 1 || i <= rows - 1)
    requires ViscOk(s) && BorderInert(s, rows, cols)
    ensures InteriorSum(RowsDone(p, cfg, s, rows, cols, i), rows, cols, Net)
            == InteriorSum(s, rows, cols, Net) + RowsSum(s, rows, cols, VentSupply(cfg), i)
    decreases i
  {
    if i > 1 {
      FlowRowsNet(p, cfg, s, rows, cols, i - 1);
      RowsDoneFrame(p, cfg, s, rows, cols, i - 1);
      ExtendRowNet(p, cfg, s, RowsDone(p, cfg, s, rows, cols, i - 1), rows, cols, i - 1);
    }
  }

  /** The flow pass adds the vents' supply to the interior net inflow and
      moves no thickness. */
  lemma FlowSums(cfg: Config, s: seq<Cell>, rows: int, cols: int)
    requires ValidConfig(cfg) && |s| == rows * cols
    requires ViscOk(s) && BorderInert(s, rows, cols)
    ensures var t := RunSweep(Flow, cfg, s, rows, cols);
      && InteriorSum(t, rows, cols, Net) == InteriorSum(s, rows, cols, Net) + InteriorSum(s, rows, cols, VentSupply(cfg))
      && InteriorSum(t, rows, cols, Volume(cfg)) == InteriorSum(s, rows, cols, Volume(cfg))
      && InteriorSum(t, rows, cols, VentSupply(cfg)) == InteriorSum(s, rows, cols, VentSupply(cfg))
  {
    FlowRowsNet(Flow, cfg, s, rows, cols, LastRow(rows));
    SweepFrame(Flow, cfg, s, rows, cols);
    FramedSums(cfg, s, RunSweep(Flow, cfg, s, rows, cols), rows, cols);
  }

  // ----- Pass 4 -----

  /** Consolidation turns each interior cell's net inflow into volume. */
  lemma ConsolidationSums(cfg: Config, s: seq<Cell>, rows: int, cols: int, corrected: bool)
    requires ValidConfig(cfg) && |s| == rows * cols
    ensures var t := RunSweep(Consolidation(corrected), cfg, s, rows, cols);
      InteriorSum(t, rows, cols, Volume(cfg)) == InteriorSum(s, rows, cols, Volume(cfg)) + InteriorSum(s, rows, cols, Net)
  {
    var t := RunSweep(Consolidation(corrected), cfg, s, rows, cols);
    forall x, y | Interior(rows, cols, x, y)
      ensures Volume(cfg)(At(t, rows, cols, x, y)) == Volume(cfg)(At(s, rows, cols, x, y)) + Net(At(s, rows, cols, x, y))
    {
      LocalSweepAt(Consolidation(corrected), cfg, s, rows, cols, x, y);
      ConsolidateVolume(cfg, At(s, rows, cols, x, y), corrected);
    }
    SumPointwise(s, t, rows, cols, Volume(cfg), Volume(cfg), Net);
  }

  // ----- The whole step -----

  lemma InertViscOk(s: seq<Cell>, rows: int, cols: int)
    requires |s| == rows * cols && BorderInert(s, rows, cols)
    ensures BorderViscOk(s, rows, cols)
  {
  }

  /** Volume balance: over one step the interior lava volume grows by the
      eruption volume of the interior vents, and by nothing else. */
  lemma StepVolumeBalance(cfg: Config, s: seq<Cell>, rows: int, cols: int, corrected: bool)
    requires ValidConfig(cfg) && 0 <= rows && 0 <= cols && |s| == rows * cols
    requires BorderInert(s, rows, cols)
    ensures InteriorSum(Step(cfg, s, rows, cols, corrected), rows, cols, Volume(cfg))
      == InteriorSum(s, rows, cols, Volume(cfg)) + InteriorSum(s, rows, cols, VentSupply(cfg))
  {
    InertViscOk(s, rows, cols);
    var reset := RunSweep(Reset, cfg, s, rows, cols);
    ResetSums(cfg, s, rows, cols);
    LocalKeepsBorder(Reset, cfg, s, rows, cols);
    InertKept(s, reset, rows, cols);
    ResetViscOk(cfg, s, rows, cols);
    var topology := RunSweep(Topology, cfg, reset, rows, cols);
    SweepFrame(Topology, cfg, reset, rows, cols);
    FramedSums(cfg, reset, topology, rows, cols);
    assert OnlyExits(reset, topology);
    SumSame(reset, topology, rows, cols, Net);
    InertKept(reset, topology, rows, cols);
    var flow := RunSweep(Flow, cfg, topology, rows, cols);
    FlowSums(cfg, topology, rows, cols);
    ConsolidationSums(cfg, flow, rows, cols, corrected);
  }

  /** Without vents in the interior a step conserves the interior lava volume. */
  lemma StepConservesVolume(cfg: Config, s: seq<Cell>, rows: int, cols: int, corrected: bool)
    requires ValidConfig(cfg) && 0 <= rows && 0 <= cols && |s| == rows * cols
    requires BorderInert(s, rows, cols)
    requires forall x, y :: Interior(rows, cols, x, y) ==> At(s, rows, cols, x, y).isVent != 1
    ensures InteriorSum(Step(cfg, s, rows, cols, corrected), rows, cols, Volume(cfg))
      == InteriorSum(s, rows, cols, Volume(cfg))
  {
    StepVolumeBalance(cfg, s, rows, cols, corrected);
    SumZero(s, rows, cols, VentSupply(cfg));
  }

  /** The supply is the eruption volume per step times the number of interior vents. */
  lemma SupplyIsVentCount(cfg: Config, s: seq<Cell>, rows: int, cols: int)
    requires |s| == rows * cols
    ensures InteriorSum(s, rows, cols, VentSupply(cfg)) == VentVolume(cfg) * InteriorSum(s, rows, cols, VentMark)
  {
    SumScale(s, rows, cols, VentSupply(cfg), VentMark, VentVolume(cfg));
  }
}
