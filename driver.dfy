/** The time-step loop of `main` (src/scalaf.c:879-899), and what a step
    keeps: the border, the ground (altitude and vents) and, over many
    steps, the volume balance. */
module Driver {
  import opened Grid
  import opened Physics
  import opened Sweep
  import opened Frames
  import opened Sums
  import opened Engine
  import opened Balance
  import opened Halo

  /** s and t agree on the terrain altitude and on the vent marks of every cell. */
  predicate SameGround(s: seq<Cell>, t: seq<Cell>) {
    |t| == |s| && forall k :: 0 <= k < |s| ==> t[k].altitude == s[k].altitude && t[k].isVent == s[k].isVent
  }

  lemma GroundTrans(a: seq<Cell>, b: seq<Cell>, c: seq<Cell>)
    requires SameGround(a, b) && SameGround(b, c)
    ensures SameGround(a, c)
  {
  }

  /** Reset and Consolidation keep the ground of every cell. */
  lemma LocalKeepsGround(p: Pass, cfg: Config, s: seq<Cell>, rows: int, cols: int)
    requires ValidConfig(cfg) && 0 <= rows && 0 <= cols && |s| == rows * cols
    requires p == Reset || p.Consolidation?
    ensures SameGround(s, RunSweep(p, cfg, s, rows, cols))
  {
    var t := RunSweep(p, cfg, s, rows, cols);
    forall k | 0 <= k < |s|
      ensures t[k].altitude == s[k].altitude && t[k].isVent == s[k].isVent
    {
      IndexDecompose(rows, cols, k);
      LocalSweepAt(p, cfg, s, rows, cols, k / cols, k % cols);
    }
  }

  /** Topology and Flow keep the ground of every cell. */
  lemma FramedKeepsGround(p: Pass, cfg: Config, s: seq<Cell>, rows: int, cols: int)
    requires ValidConfig(cfg) && |s| == rows * cols
    requires p == Topology || p == Flow
    requires p == Flow ==> ViscOk(s)
    requires BorderInert(s, rows, cols)
    ensures SameGround(s, RunSweep(p, cfg, s, rows, cols))
  {
    var t := RunSweep(p, cfg, s, rows, cols);
    SweepFrame(p, cfg, s, rows, cols);
    forall k | 0 <= k < |s|
      ensures t[k].altitude == s[k].altitude && t[k].isVent == s[k].isVent
    {
      if p == Topology {
        assert OnlyExits(s, t);
      } else {
        assert OnlyFlows(s, t);
      }
    }
  }

  /** FuncionPrincipal writes interior cells only: it leaves every border
      cell as it was, so the border stays inert. */
  lemma StepKeepsBorder(cfg: Config, s: seq<Cell>, rows: int, cols: int, corrected: bool)
    requires ValidConfig(cfg) && 0 <= rows && 0 <= cols && |s| == rows * cols
    requires BorderInert(s, rows, cols)
    ensures SameBorder(s, Step(cfg, s, rows, cols, corrected), rows, cols)
    ensures BorderInert(Step(cfg, s, rows, cols, corrected), rows, cols)
  {
    InertViscOk(s, rows, cols);
    var reset := RunSweep(Reset, cfg, s, rows, cols);
    LocalKeepsBorder(Reset, cfg, s, rows, cols);
    InertKept(s, reset, rows, cols);
    ResetViscOk(cfg, s, rows, cols);
    var topology := RunSweep(Topology, cfg, reset, rows, cols);
    SweepFrame(Topology, cfg, reset, rows, cols);
    BorderTrans(s, reset, topology, rows, cols);
    InertKept(s, topology, rows, cols);
    var flow := RunSweep(Flow, cfg, topology, rows, cols);
    SweepFrame(Flow, cfg, topology, rows, cols);
    BorderTrans(s, topology, flow, rows, cols);
    InertKept(s, flow, rows, cols);
    var last := RunSweep(Consolidation(corrected), cfg, flow, rows, cols);
    LocalKeepsBorder(Consolidation(corrected), cfg, flow, rows, cols);
    BorderTrans(s, flow, last, rows, cols);
    InertKept(s, last, rows, cols);
  }

  /** FuncionPrincipal never changes the altitude or the vent mark of any cell. */
  lemma StepKeepsGround(cfg: Config, s: seq<Cell>, rows: int, cols: int, corrected: bool)
    requires ValidConfig(cfg) && 0 <= rows && 0 <= cols && |s| == rows * cols
    requires BorderInert(s, rows, cols)
    ensures SameGround(s, Step(cfg, s, rows, cols, corrected))
  {
    InertViscOk(s, rows, cols);
    var reset := RunSweep(Reset, cfg, s, rows, cols);
    LocalKeepsGround(Reset, cfg, s, rows, cols);
    LocalKeepsBorder(Reset, cfg, s, rows, cols);
    InertKept(s, reset, rows, cols);
    ResetViscOk(cfg, s, rows, cols);
    var topology := RunSweep(Topology, cfg, reset, rows, cols);
    FramedKeepsGround(Topology, cfg, reset, rows, cols);
    SweepFrame(Topology, cfg, reset, rows, cols);
    InertKept(reset, topology, rows, cols);
    var flow := RunSweep(Flow, cfg, topology, rows, cols);
    FramedKeepsGround(Flow, cfg, topology, rows, cols);
    var last := RunSweep(Consolidation(corrected), cfg, flow, rows, cols);
    LocalKeepsGround(Consolidation(corrected), cfg, flow, rows, cols);
    GroundTrans(s, reset, topology);
    GroundTrans(s, topology, flow);
    GroundTrans(s, flow, last);
  }

  /** Grids with the same ground have the same vent supply. */
  lemma GroundSupply(cfg: Config, s: seq<Cell>, t: seq<Cell>, rows: int, cols: int)
    requires |s| == rows * cols && SameGround(s, t)
    ensures InteriorSum(t, rows, cols, VentSupply(cfg)) == InteriorSum(s, rows, cols, VentSupply(cfg))
  {
    forall x, y | Interior(rows, cols, x, y)
      ensures VentSupply(cfg)(At(t, rows, cols, x, y)) == VentSupply(cfg)(At(s, rows, cols, x, y))
    {
      var k := Idx(rows, cols, x, y);
      assert t[k].isVent == s[k].isVent;
    }
    SumSame(s, t, rows, cols, VentSupply(cfg));
  }

  // ----- The time-step loop -----

  /** The padded grid after n time steps. */
  function Iterate(cfg: Config, s: seq<Cell>, rows: int, cols: int, corrected: bool, n: nat): (r: seq<Cell>)
    requires ValidConfig(cfg) && 0 <= rows && 0 <= cols && |s| == rows * cols
    requires BorderInert(s, rows, cols)
    ensures |r| == |s| && BorderInert(r, rows, cols)
    decreases n
  {
    if n == 0 then s
    else
      var prev := Iterate(cfg, s, rows, cols, corrected, n - 1);
      InertViscOk(prev, rows, cols);
      StepKeepsBorder(cfg, prev, rows, cols, corrected);
      Step(cfg, prev, rows, cols, corrected)
  }

  /** Any number of steps keeps the border cells and the ground of every cell. */
  lemma {:induction false} IterateKeeps(cfg: Config, s: seq<Cell>, rows: int, cols: int, corrected: bool, n: nat)
    requires ValidConfig(cfg) && 0 <= rows && 0 <= cols && |s| == rows * cols
    requires BorderInert(s, rows, cols)
    ensures SameBorder(s, Iterate(cfg, s, rows, cols, corrected, n), rows, cols)
    ensures SameGround(s, Iterate(cfg, s, rows, cols, corrected, n))
    decreases n
  {
    if n > 0 {
      var prev := Iterate(cfg, s, rows, cols, corrected, n - 1);
      IterateKeeps(cfg, s, rows, cols, corrected, n - 1);
      StepKeepsBorder(cfg, prev, rows, cols, corrected);
      StepKeepsGround(cfg, prev, rows, cols, corrected);
      BorderTrans(s, prev, Iterate(cfg, s, rows, cols, corrected, n), rows, cols);
      GroundTrans(s, prev, Iterate(cfg, s, rows, cols, corrected, n));
    }
  }

  /** x added to itself n times, once per step. */
  function Times(n: nat, x: real): real {
    if n == 0 then 0.0 else Times(n - 1, x) + x
  }

  lemma {:induction false} TimesIsProduct(n: nat, x: real)
    ensures Times(n, x) == (n as real) * x
  {
    if n > 0 {
      TimesIsProduct(n - 1, x);
      assert ((n - 1) as real) * x + x == (n as real) * x;
    }
  }

  /** The balance of n steps as a repeated sum: each step adds the vents'
      eruption volume once. */
  lemma {:induction false} IterateVolumeSum(cfg: Config, s: seq<Cell>, rows: int, cols: int, corrected: bool, n: nat)
    requires ValidConfig(cfg) && 0 <= rows && 0 <= cols && |s| == rows * cols
    requires BorderInert(s, rows, cols)
    ensures InteriorSum(Iterate(cfg, s, rows, cols, corrected, n), rows, cols, Volume(cfg))
            == InteriorSum(s, rows, cols, Volume(cfg)) + Times(n, InteriorSum(s, rows, cols, VentSupply(cfg)))
    decreases n
  {
    if n > 0 {
      var prev := Iterate(cfg, s, rows, cols, corrected, n - 1);
      IterateVolumeSum(cfg, s, rows, cols, corrected, n - 1);
      IterateKeeps(cfg, s, rows, cols, corrected, n - 1);
      GroundSupply(cfg, s, prev, rows, cols);
      StepVolumeBalance(cfg, prev, rows, cols, corrected);
      assert Iterate(cfg, s, rows, cols, corrected, n) == Step(cfg, prev, rows, cols, corrected);
    }
  }

  /** After n steps the interior lava volume has grown by n times the
      eruption volume of the interior vents. */
  lemma IterateVolume(cfg: Config, s: seq<Cell>, rows: int, cols: int, corrected: bool, n: nat)
    requires ValidConfig(cfg) && 0 <= rows && 0 <= cols && |s| == rows * cols
    requires BorderInert(s, rows, cols)
    ensures InteriorSum(Iterate(cfg, s, rows, cols, corrected, n), rows, cols, Volume(cfg))
            == InteriorSum(s, rows, cols, Volume(cfg)) + (n as real) * InteriorSum(s, rows, cols, VentSupply(cfg))
  {
    IterateVolumeSum(cfg, s, rows, cols, corrected, n);
    TimesIsProduct(n, InteriorSum(s, rows, cols, VentSupply(cfg)));
  }

  /** The loop of `main`: `FuncionPrincipal(A, C)` then `memcpy(A, C)`, timeSteps
      times. `corrected` selects the engine with the corrected base heat. */
  method Simulate(cfg: Config, filas: int, columnas: int, a: array<Cell>, c: array<Cell>,
                  timeSteps: int, corrected: bool)
    requires ValidConfig(cfg) && 0 <= filas && 0 <= columnas
    requires a.Length == filas * columnas && c.Length == filas * columnas && a != c
    requires BorderInert(a[..], filas, columnas)
    modifies a, c
    ensures a[..] == Iterate(cfg, old(a[..]), filas, columnas, corrected, if timeSteps > 0 then timeSteps else 0)
    ensures timeSteps > 0 ==> c[..] == a[..]
    ensures timeSteps <= 0 ==> c[..] == old(c[..])
  {
    var i := 0;
    while i < timeSteps
      invariant 0 <= i <= (if timeSteps > 0 then timeSteps else 0)
      invariant a[..] == Iterate(cfg, old(a[..]), filas, columnas, corrected, i)
      invariant i > 0 ==> c[..] == a[..]
      invariant i == 0 ==> c[..] == old(c[..])
    {
      InertViscOk(a[..], filas, columnas);
      if corrected {
        FuncionPrincipalCorrected(cfg, filas, columnas, a, c);
      } else {
        FuncionPrincipal(cfg, filas, columnas, a, c);
      }
      CopyGrid(c, a);
      i := i + 1;
    }
  }

  /** The grid preFuncion builds has a sentinel border, which is inert. */
  lemma PadInert(g: seq<Cell>, rows: int, cols: int)
    requires 0 <= rows && 0 <= cols && |g| == rows * cols
    ensures BorderInert(Pad(g, rows, cols), rows + 2, cols + 2)
  {
    var height, width := rows + 2, cols + 2;
    forall i, j | OnBorder(height, width, i, j)
      ensures At(Pad(g, rows, cols), height, width, i, j).yieldStress == 0.0
    {
      PadBorder(g, rows, cols, i, j);
    }
  }
}
