/** The cell-level physics of one engine step (FuncionPrincipal,
    src/scalaf.c:261-524), over mathematical reals. The rheology laws
    `visc` and `yield` (src/scalaf.c:17-25) and the square root are left
    abstract as fields of the configuration. */
module Physics {
  import opened Grid

  /** The run's initial conditions (`c0`) and the process-wide constants of
      src/scalaf.h, which is not part of this model: the constants are
      parameters here. */
  datatype Config = Config(
    eruptionTemperature: real,
    eruptionRate: real,
    cellWidth: real,
    deltat: real,
    density: real,
    gravity: real,
    heatCapacity: real,
    sbConst: real,
    emissivity: real,
    visc: real -> real,
    yieldStress: real -> real,
    sqrt: real -> real)

  /** What the formulas need to be defined over the reals: the consolidation
      pass divides by the cell area and by density * heatCapacity, and the
      outflow divides by a viscosity obtained from `visc`. The viscosity law
      of the source, a power of 10, is never zero. */
  ghost predicate ValidConfig(cfg: Config) {
    CellArea(cfg) != 0.0 && cfg.density != 0.0 && cfg.heatCapacity != 0.0
    && forall t :: cfg.visc(t) != 0.0
  }

  /** `1e-8`: the critical-thickness gate and the thickness below which a cell is empty. */
  const Eps8: real := 0.00000001
  /** `1e-4`: the thickness below which a cell does not radiate. */
  const Eps4: real := 0.0001
  /** Temperature given to a cell left empty. */
  const Ambient: real := 273.0

  function Abs(x: real): real {
    if x < 0.0 then -x else x
  }

  /** `cArea = cellWidth * cellWidth` */
  function CellArea(cfg: Config): real {
    cfg.cellWidth * cfg.cellWidth
  }

  /** Pass 1 on one cell: derived fields from the current temperature,
      counters and accumulators zeroed. */
  function ResetCell(cfg: Config, c: Cell): (r: Cell)
    ensures r.altitude == c.altitude && r.thickness == c.thickness
    ensures r.temperature == c.temperature && r.isVent == c.isVent
    ensures r.viscosity == cfg.visc(c.temperature) && r.yieldStress == cfg.yieldStress(c.temperature)
    ensures r.exits == 0 && r.inboundV == 0.0 && r.outboundV == 0.0 && r.inboundQ == 0.0
  {
    c.(viscosity := cfg.visc(c.temperature), yieldStress := cfg.yieldStress(c.temperature),
       inboundV := 0.0, inboundQ := 0.0, outboundV := 0.0, exits := 0)
  }

  /** `density * gravity * ((Acomp - Aref) - (Hcomp - Href))`, for the
      centre cell's altitude Aref and thickness Href and neighbour n. */
  function HcritDenominator(cfg: Config, aref: real, href: real, n: Cell): real {
    cfg.density * cfg.gravity * ((n.altitude - aref) - (n.thickness - href))
  }

  /** The neighbour's critical thickness of the Bingham flow law. */
  function Hcrit(cfg: Config, aref: real, href: real, n: Cell): real
    requires HcritDenominator(cfg, aref, href, n) != 0.0
  {
    var dA := n.altitude - aref;
    Abs((n.yieldStress * cfg.sqrt(dA * dA + cfg.cellWidth * cfg.cellWidth)) / HcritDenominator(cfg, aref, href, n))
  }

  /** `(Hcomp > Hcrit) && (Hcrit > 1e-8)`. With a zero denominator a
      non-zero numerator gives +inf after `fabs`, so `Hcomp > Hcrit` fails;
      a zero numerator gives NaN, so both fail. Either way the gate is
      closed. */
  predicate Yields(cfg: Config, aref: real, href: real, n: Cell) {
    HcritDenominator(cfg, aref, href, n) != 0.0
    && n.thickness > Hcrit(cfg, aref, href, n)
    && Hcrit(cfg, aref, href, n) > Eps8
  }

  /** `fabs(Hcomp + Acomp) > fabs(Href + Aref)`: the neighbour's lava surface is higher. */
  predicate Higher(aref: real, href: real, n: Cell) {
    Abs(n.thickness + n.altitude) > Abs(href + aref)
  }

  /** `h^3 - 1.5 h^2 + 0.5`, the Bingham velocity profile at `h = Hcomp / Hcrit`. */
  function Profile(h: real): real {
    h * h * h - 1.5 * h * h + 0.5
  }

  /** The Bingham volume the neighbour would send, shared among its exits. */
  function RawOutflow(cfg: Config, aref: real, href: real, n: Cell): real
    requires Yields(cfg, aref, href, n) && n.exits > 0 && n.viscosity != 0.0
  {
    var hc := Hcrit(cfg, aref, href, n);
    var h := n.thickness / hc;
    (1.0 / (n.exits as real)) * ((n.yieldStress * hc * hc * cfg.cellWidth) / (3.0 * n.viscosity))
      * Profile(h) * cfg.deltat
  }

  /** `maxV = deltaH * cArea / (2 * exits)`: the neighbour's share of half
      the volume difference. */
  function OutflowCap(cfg: Config, href: real, n: Cell): real
    requires n.exits > 0
  {
    ((n.thickness - href) * CellArea(cfg)) / (2.0 * (n.exits as real))
  }

  /** The volume neighbour n sends to the centre cell: the Bingham volume,
      cut down to the cap. */
  function Outflow(cfg: Config, aref: real, href: real, n: Cell): real
    requires Yields(cfg, aref, href, n) && n.exits > 0 && n.viscosity != 0.0
  {
    var raw := RawOutflow(cfg, aref, href, n);
    var maxV := OutflowCap(cfg, href, n);
    if maxV < raw then maxV else raw
  }

  /** The volume the comparison with neighbour n moves, once the gate is open:
      the outflow when n is higher and has exits, zero otherwise. */
  function DeltaV(cfg: Config, aref: real, href: real, n: Cell): real
    requires Yields(cfg, aref, href, n) && n.viscosity != 0.0
  {
    if Higher(aref, href, n) && n.exits > 0 then Outflow(cfg, aref, href, n) else 0.0
  }

  /** `deltaV = eruptionRate * deltat`: the volume a vent adds per step. */
  function VentVolume(cfg: Config): real {
    cfg.eruptionRate * cfg.deltat
  }

  /** Heat that arrives with the vent's volume. */
  function VentHeat(cfg: Config): real {
    (VentVolume(cfg) * cfg.eruptionTemperature) * cfg.heatCapacity * cfg.density
  }

  /** The Stefan-Boltzmann loss of a cell of thickness `thickness0` at
      temperature `t0`; none for a layer of 1e-4 or less. */
  function Radiation(cfg: Config, thickness0: real, t0: real): real {
    if thickness0 > Eps4 then
      (-1.0) * cfg.sbConst * CellArea(cfg) * cfg.emissivity * cfg.deltat * (t0 * t0 * t0 * t0)
    else 0.0
  }

  /** `Q_base` as written: thickness, not volume, times temperature. */
  function BaseHeat(cfg: Config, c: Cell): real {
    c.thickness * c.temperature * cfg.density * cfg.heatCapacity
  }

  /** The heat the cell held, as its volume thickness * cArea times temperature. */
  function BaseHeatCorrected(cfg: Config, c: Cell): real {
    c.thickness * CellArea(cfg) * c.temperature * cfg.density * cfg.heatCapacity
  }

  /** The new thickness: old thickness plus net volume over the cell area. */
  function NewThickness(cfg: Config, c: Cell): real
    requires CellArea(cfg) != 0.0
  {
    c.thickness + (c.inboundV / CellArea(cfg)) - (c.outboundV / CellArea(cfg))
  }

  /** The heat carried by volume v of lava at temperature t. */
  function Advected(cfg: Config, v: real, t: real): real {
    v * t * cfg.density * cfg.heatCapacity
  }

  /** `density * heatCapacity * cArea * h`: the heat per kelvin of a column of thickness h. */
  function ColumnCapacity(cfg: Config, h: real): real {
    cfg.density * cfg.heatCapacity * CellArea(cfg) * h
  }

  lemma ColumnCapacityNonZero(cfg: Config, h: real)
    requires ValidConfig(cfg) && h != 0.0
    ensures ColumnCapacity(cfg, h) != 0.0
  {
    NonZeroProduct4(cfg.density, cfg.heatCapacity, CellArea(cfg), h);
  }

  /** `deltaQ = Q_base + (inboundQ - outboundV * T0 * density * heatCapacity) + deltaQ_rad` */
  function TotalHeat(cfg: Config, c: Cell, corrected: bool): real {
    (if corrected then BaseHeatCorrected(cfg, c) else BaseHeat(cfg, c))
    + (c.inboundQ - Advected(cfg, c.outboundV, c.temperature))
    + Radiation(cfg, c.thickness, c.temperature)
  }

  /** Pass 4 on one cell (src/scalaf.c:450-522). `corrected` selects the
      base heat: false is the source as written, true counts the cell's
      volume (see ConsolidateAsWrittenCools). */
  function Consolidate(cfg: Config, c: Cell, corrected: bool): (r: Cell)
    requires ValidConfig(cfg)
    ensures r == c.(thickness := r.thickness, temperature := r.temperature)
  {
    var thickness := NewThickness(cfg, c);
    var temperature :=
      if thickness > Eps8 then
        ColumnCapacityNonZero(cfg, thickness);
        TotalHeat(cfg, c, corrected) / ColumnCapacity(cfg, thickness)
      else Ambient;
    c.(thickness := thickness, temperature := temperature)
  }

  lemma NonZeroProduct4(a: real, b: real, x: real, t: real)
    requires a != 0.0 && b != 0.0 && x != 0.0 && t != 0.0
    ensures a * b * x * t != 0.0
  {
  }

  /** The thickness a cell keeps is the old one plus its net inflow spread
      over the cell area. */
  lemma ConsolidateVolume(cfg: Config, c: Cell, corrected: bool)
    requires ValidConfig(cfg)
    ensures Consolidate(cfg, c, corrected).thickness * CellArea(cfg)
            == c.thickness * CellArea(cfg) + c.inboundV - c.outboundV
  {
    var a := CellArea(cfg);
    assert (c.thickness + c.inboundV / a - c.outboundV / a) * a
           == c.thickness * a + (c.inboundV / a) * a - (c.outboundV / a) * a;
  }

  /** Temperature floor: a cell left with 1e-8 or less of lava is at 273 K,
      whatever heat flowed in. */
  lemma TemperatureFloor(cfg: Config, c: Cell, corrected: bool)
    requires ValidConfig(cfg)
    requires Consolidate(cfg, c, corrected).thickness <= Eps8
    ensures Consolidate(cfg, c, corrected).temperature == Ambient
  {
  }

  /** A layer of 1e-4 or less loses no heat to radiation. */
  lemma ThinLayerKeepsHeat(cfg: Config, thickness0: real, t0: real)
    requires thickness0 <= Eps4
    ensures Radiation(cfg, thickness0, t0) == 0.0
  {
  }

  /** A neighbour never sends more than its share of half the volume difference. */
  lemma OutflowCapped(cfg: Config, aref: real, href: real, n: Cell)
    requires Yields(cfg, aref, href, n) && n.exits > 0 && n.viscosity != 0.0
    ensures Outflow(cfg, aref, href, n) <= OutflowCap(cfg, href, n)
    ensures Outflow(cfg, aref, href, n) <= RawOutflow(cfg, aref, href, n)
  {
  }

  /** A neighbour whose yield stress is zero (a halo cell) never opens the gate. */
  lemma ZeroYieldClosed(cfg: Config, aref: real, href: real, n: Cell)
    requires n.yieldStress == 0.0
    ensures !Yields(cfg, aref, href, n)
  {
    if HcritDenominator(cfg, aref, href, n) != 0.0 {
      var dA := n.altitude - aref;
      assert n.yieldStress * cfg.sqrt(dA * dA + cfg.cellWidth * cfg.cellWidth) == 0.0;
    }
  }

  /** Consolidation as written divides a still cell's temperature by the
      cell area: a thin layer (above 1e-8, at most 1e-4) with no flows
      comes out at t0 / cArea. */
  lemma ConsolidateAsWrittenCools(cfg: Config, c: Cell)
    requires ValidConfig(cfg)
    requires c.inboundV == 0.0 && c.outboundV == 0.0 && c.inboundQ == 0.0
    requires Eps8 < c.thickness <= Eps4
    ensures Consolidate(cfg, c, false).temperature * CellArea(cfg) == c.temperature
  {
    assert NewThickness(cfg, c) == c.thickness;
    CancelAsWritten(c.thickness, c.temperature, cfg.density, cfg.heatCapacity, CellArea(cfg));
  }

  lemma CancelAsWritten(th: real, t: real, rho: real, cp: real, area: real)
    requires th != 0.0 && rho != 0.0 && cp != 0.0 && area != 0.0
    ensures (th * t * rho * cp + (0.0 - 0.0 * t * rho * cp) + 0.0) / (rho * cp * area * th) * area == t
  {
  }

  /** The same cell under the corrected base heat keeps its temperature. */
  lemma ConsolidateCorrectedKeepsTemperature(cfg: Config, c: Cell)
    requires ValidConfig(cfg)
    requires c.inboundV == 0.0 && c.outboundV == 0.0 && c.inboundQ == 0.0
    requires Eps8 < c.thickness <= Eps4
    ensures Consolidate(cfg, c, true).temperature == c.temperature
  {
    assert NewThickness(cfg, c) == c.thickness;
    CancelCorrected(c.thickness, c.temperature, cfg.density, cfg.heatCapacity, CellArea(cfg));
  }

  lemma CancelCorrected(th: real, t: real, rho: real, cp: real, area: real)
    requires th != 0.0 && rho != 0.0 && cp != 0.0 && area != 0.0
    ensures (th * area * t * rho * cp + (0.0 - 0.0 * t * rho * cp) + 0.0) / (rho * cp * area * th) == t
  {
  }

  /** More generally, the corrected rule conserves heat content: with no
      flows and no radiation, the heat of the new volume equals the heat
      of the old one. */
  lemma ConsolidateCorrectedConservesHeat(cfg: Config, c: Cell)
    requires ValidConfig(cfg)
    requires c.outboundV == 0.0 && c.inboundQ == 0.0 && c.inboundV == 0.0
    requires Eps8 < c.thickness <= Eps4
    ensures var r := Consolidate(cfg, c, true);
      BaseHeatCorrected(cfg, r) == BaseHeatCorrected(cfg, c)
  {
    ConsolidateCorrectedKeepsTemperature(cfg, c);
  }
}
