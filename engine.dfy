/** One time step of the simulator (FuncionPrincipal, src/scalaf.c:261-524):
    the reset, topology, flow and consolidation passes run one after the
    other over the padded grid A, and A is then copied into C. */
module Engine {
  import opened Grid
  import opened Physics
  import opened Sweep
  import opened Frames

  /** Border cells are never reset, so a border cell that could open a
      gate must already carry a viscosity. */
  ghost predicate BorderViscOk(s: seq<Cell>, rows: int, cols: int)
    requires |s| == rows * cols
  {
    forall i, j :: OnBorder(rows, cols, i, j) ==>
      At(s, rows, cols, i, j).yieldStress != 0.0 ==> At(s, rows, cols, i, j).viscosity != 0.0
  }

  /** After the reset pass every cell that could open a gate has a viscosity. */
  lemma ResetViscOk(cfg: Config, s: seq<Cell>, rows: int, cols: int)
    requires ValidConfig(cfg) && 0 <= rows && 0 <= cols && |s| == rows * cols
    requires BorderViscOk(s, rows, cols)
    ensures ViscOk(RunSweep(Reset, cfg, s, rows, cols))
  {
    var r := RunSweep(Reset, cfg, s, rows, cols);
    forall k | 0 <= k < |r|
      ensures r[k].yieldStress != 0.0 ==> r[k].viscosity != 0.0
    {
      IndexDecompose(rows, cols, k);
      LocalSweepAt(Reset, cfg, s, rows, cols, k / cols, k % cols);
    }
  }

  /** The grid after one time step, as the four passes in order. */
  function Step(cfg: Config, s: seq<Cell>, rows: int, cols: int, corrected: bool): (r: seq<Cell>)
    requires ValidConfig(cfg) && 0 <= rows && 0 <= cols && |s| == rows * cols
    requires BorderViscOk(s, rows, cols)
    ensures |r| == |s|
  {
    var reset := RunSweep(Reset, cfg, s, rows, cols);
    ResetViscOk(cfg, s, rows, cols);
    var topology := RunSweep(Topology, cfg, reset, rows, cols);
    var flow := RunSweep(Flow, cfg, topology, rows, cols);
    RunSweep(Consolidation(corrected), cfg, flow, rows, cols)
  }

  /** FuncionPrincipal as written: the four passes on A, then `memcpy(C, A, ...)`. */
  method FuncionPrincipal(cfg: Config, filas: int, columnas: int, a: array<Cell>, c: array<Cell>)
    requires ValidConfig(cfg) && 0 <= filas && 0 <= columnas
    requires a.Length == filas * columnas && c.Length == filas * columnas && a != c
    requires BorderViscOk(a[..], filas, columnas)
    modifies a, c
    ensures a[..] == Step(cfg, old(a[..]), filas, columnas, false)
    ensures c[..] == a[..]
  {
    RunPasses(cfg, filas, columnas, a, c, false);
  }

  /** FuncionPrincipal with the corrected base heat of the consolidation pass. */
  method FuncionPrincipalCorrected(cfg: Config, filas: int, columnas: int, a: array<Cell>, c: array<Cell>)
    requires ValidConfig(cfg) && 0 <= filas && 0 <= columnas
    requires a.Length == filas * columnas && c.Length == filas * columnas && a != c
    requires BorderViscOk(a[..], filas, columnas)
    modifies a, c
    ensures a[..] == Step(cfg, old(a[..]), filas, columnas, true)
    ensures c[..] == a[..]
  {
    RunPasses(cfg, filas, columnas, a, c, true);
  }

  method RunPasses(cfg: Config, filas: int, columnas: int, a: array<Cell>, c: array<Cell>, corrected: bool)
    requires ValidConfig(cfg) && 0 <= filas && 0 <= columnas
    requires a.Length == filas * columnas && c.Length == filas * columnas && a != c
    requires BorderViscOk(a[..], filas, columnas)
    modifies a, c
    ensures a[..] == Step(cfg, old(a[..]), filas, columnas, corrected)
    ensures c[..] == a[..]
  {
    ghost var s := a[..];
    SweepPass(Reset, cfg, a, filas, columnas);
    ResetViscOk(cfg, s, filas, columnas);
    SweepPass(Topology, cfg, a, filas, columnas);
    SweepPass(Flow, cfg, a, filas, columnas);
    SweepPass(Consolidation(corrected), cfg, a, filas, columnas);
    CopyGrid(a, c);
  }

  /** `memcpy(dst, src, n * sizeof(mapCell))` */
  method CopyGrid(src: array<Cell>, dst: array<Cell>)
    requires src.Length == dst.Length && src != dst
    modifies dst
    ensures dst[..] == src[..]
  {
    var k := 0;
    while k < src.Length
      invariant 0 <= k <= src.Length
      invariant forall q :: 0 <= q < k ==> dst[q] == src[q]
    {
      dst[k] := src[k];
      k := k + 1;
    }
  }
}
