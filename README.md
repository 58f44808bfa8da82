# scalaf: a verified model of the lava-flow cellular automaton

scalaf simulates lava flowing over terrain. The terrain is a grid of cells,
each with an altitude, a lava thickness and a temperature. Craters mark
some cells as vents. The simulator works on this grid as follows:

1. It pads the grid with a one-cell "sky" border (`preFuncion`).
2. It runs a fixed number of time steps (`FuncionPrincipal`, copied back
   into its input by the loop in `main`).
3. It strips the border again and splits the rows among MPI processes
   (`postFuncion`).

One time step is four whole-grid passes over the interior cells:

- **reset:** recompute viscosity and yield stress, and zero the counters;
- **topology:** count, for every cell, the neighbours it will flow into;
- **flow:** vents erupt, then every neighbour whose lava exceeds the
  Bingham critical thickness sends volume and heat;
- **consolidation:** turn net volume into thickness and net heat into
  temperature.

This project models that core in Dafny:

- **`Grid`:** the cell record and the row-major layout.
- **`Craters`:** `placeCraters`.
- **`Halo`:** `preFuncion`, and `postFuncion`'s copy loop.
- **`Partition`:** `postFuncion`'s row partition.
- **`Physics`:** the per-cell formulas, over mathematical reals.
- **`Sweep`:** the four passes.
- **`Frames`:** what each pass may change.
- **`Sums`:** interior sums.
- **`Engine`:** one step, `FuncionPrincipal`.
- **`Balance`:** the volume balance of a step.
- **`Driver`:** the time-step loop of `main`.
- **`Path`:** `limpiarPath`.

Code that updates arrays in place is modelled as methods over `array<Cell>`
or `array<char>`. Each method is proved equal to a specification function
of its input: `Pad`, `Strip`, `PlaceAll`, `RunSweep`, `Step`, `Iterate` or
`Escape`. The properties are lemmas about those functions.

Each pass is specified as the left fold of its per-cell step over the
interior cells in row-major order. This is the order of the C loops, and
each cell step reads the grid as the earlier steps left it. In the
topology and flow passes, the neighbours of one cell are folded in the
order 0..8 of the `l`/`m` loops, and direction 4 (the cell itself) is
skipped.

Two points about the border and the strip:

- **Border volume.** A border cell has yield stress 0, so it never opens a
  flow gate (`Physics.ZeroYieldClosed`), and it is never a target of the
  interior loops. No volume crosses the border, and the interior volume
  changes only by what the vents erupt (`Balance.StepVolumeBalance`).
- **Strip rows.** `postFuncion` reads the padded rows without shifting them
  past the top border row (see "## Findings").

## Model

| member | source | states |
|---|---|---|
| Craters.PlaceCraters | src/scalaf.c:29-42 | the array after the loop is the grid with the first totalCraters craters placed in order (`PlaceAll`) |
| Craters.PlaceAll | src/scalaf.c:29-42 | the grid after the first n craters in order, each marking its in-range cell as a vent; the grid keeps its size |
| Craters.MarkVent | src/scalaf.c:36-39 | one crater: the cell at (x, y) becomes a vent (isVent = 1) when 0 <= x < totalRows and 0 <= y < totalColumns, and the grid is returned as it was otherwise; the grid keeps its size; its effect over a list in `Craters.PlaceAllAt` |
| Craters.PlaceAllAt | src/scalaf.c:33-41 | a cell becomes a vent exactly when some crater targets it, with 0 <= row < totalRows and 0 <= col < totalColumns; every other cell and every other field is unchanged |
| Craters.PlaceAllIdempotent | src/scalaf.c:33-41 | placing the same craters twice gives the same grid as placing them once |
| Craters.PlaceAllOrderFree | src/scalaf.c:33-41 | two crater lists that target the same in-range cells give the same grid, in whatever order and with whatever repetitions |
| Halo.PreFuncion | src/scalaf.c:124-205 | the output buffer C holds the (filas+2) x (columnas+2) padded grid `Pad` of the input |
| Halo.PadInnerRow | src/scalaf.c:136-175 | one inner row of B: sentinels at columns 0 and columnas+1, and copies of input row f between them; earlier rows are kept, and later rows are unchanged |
| Halo.PadOuterRow | src/scalaf.c:176-195 | row 0 and row filas+1 of B are all sentinels; earlier rows are kept, and later rows are unchanged |
| Halo.PadPositions | src/scalaf.c:135-196 | each position of the padded grid holds what the branch for that position writes |
| Halo.PadAt | src/scalaf.c:156-194 | the cell preFuncion writes at one position: the sentinel on row 0, row filas+1, column 0 and column columnas+1, and the copy of input cell (i-1, j-1) elsewhere |
| Halo.HaloCopy | src/scalaf.c:141-151 | the padded copy of one input cell: altitude, thickness, temperature and isVent carried over, yield, viscosity, exits, inboundV, outboundV and inboundQ set to 0; stated cell by cell in `Halo.PadInterior` |
| Halo.Pad | src/scalaf.c:124-205 | the padded grid, (filas+2) x (columnas+2) cells long, with `PadAt` at every position |
| Halo.PadInterior | src/scalaf.c:139-152 | padded cell (i+1, j+1) has the altitude, thickness, temperature and isVent of input cell (i, j), and 0 in yield, viscosity, exits, inboundV, outboundV and inboundQ |
| Halo.PadBorder | src/scalaf.c:156-194 | every cell of row 0, row R+1, column 0 or column C+1 has altitude 100000 and every other field 0 |
| Halo.PostFuncion | src/scalaf.c:210-245 | B holds the code's strip as written: block entry (r, c) of the rank receives every field except inboundQ from padded cell (start_row + r, c + 1), and every other entry of B is unchanged |
| Halo.PostFuncionCorrected | src/scalaf.c:210-245 | the same strip, reading padded row start_row + r + 1 |
| Halo.StripRange | src/scalaf.c:223-245 | the `i` loop over [start_row, end_row) computes `Strip` for either row offset |
| Halo.StripRow | src/scalaf.c:230-244 | the `j` loop skips column 0 and column columnas-1 and writes entry base + c from padded column c + 1, leaving every other entry of B as it was |
| Halo.StripEntryAt | src/scalaf.c:229-241 | block entry (r, c) is read from padded cell (start_row + r + offset, c + 1) and lies inside B |
| Halo.StripEntry | src/scalaf.c:229-245 | entry k of B: inside the rank's block, the padded cell (start_row + r + offset, c + 1) with B's old inboundQ; past the block, B's old entry |
| Halo.Strip | src/scalaf.c:229-245 | the whole buffer B after the copy, as long as B was, with `StripEntry` at every index |
| Halo.StripRowEntries | src/scalaf.c:229-241 | result row i starts at offset (i - start_row) * n_columnas, and its n_columnas entries copy the inner columns of padded row i + offset |
| Halo.StripTail | src/scalaf.c:223-245 | every entry of B past the rank's block of (end_row - start_row) * n_columnas entries keeps what B held |
| Halo.StripAsWrittenReadsHalo | src/scalaf.c:229-241 | as written, the first entry that process 0 writes is the top halo cell (altitude 100000, no lava), not input cell (0, 0) |
| Halo.StripAsWrittenBreaksRoundTrip | src/scalaf.c:229-241 | as written, pad(strip(pad(G))) differs from pad(G) whenever input cell (0, 0) is not at altitude 100000 |
| Halo.StripCorrectedCopiesRows | src/scalaf.c:229-241 | with the corrected offset, block entry (r, c) of a rank is input cell (start_row + r, c) as preFuncion copied it |
| Halo.StripPadRoundTrip | src/scalaf.c:124-245 | with one process and the corrected offset, pad(strip(pad(G))) == pad(G) for every grid |
| Partition.PartitionBounds | src/scalaf.c:223-226 | 0 <= start_row <= end_row <= n_filas, and a range holds num_rows + 1 rows when rank < remainder and num_rows rows otherwise |
| Partition.RowRange | src/scalaf.c:223-226 | `num_rows`, `remainder`, `start_row` and `end_row` as computed give the rank's range [StartRow, EndRow), which lies inside [0, n_filas) |
| Partition.StartRow | src/scalaf.c:223-225 | `start_row = rank * num_rows + min(rank, remainder)`; its properties in the Partition lemmas below |
| Partition.BaseRows | src/scalaf.c:223 | `num_rows = n_filas / size`; with non-negative operands Dafny's division agrees with C's; used by `Partition.PartitionBounds` |
| Partition.ExtraRows | src/scalaf.c:224 | `remainder = n_filas % size`, likewise the same as C's for non-negative operands; the ranks below it get one extra row (`Partition.PartitionBounds`) |
| Partition.EndRow | src/scalaf.c:226 | `end_row = start_row + num_rows + (rank < remainder)` |
| Partition.PartitionFirst | src/scalaf.c:225 | rank 0 starts at row 0 |
| Partition.PartitionContiguous | src/scalaf.c:225-226 | end_row of rank k is start_row of rank k + 1 |
| Partition.PartitionLast | src/scalaf.c:223-226 | the last rank ends at n_filas |
| Partition.PartitionDisjoint | src/scalaf.c:223-226 | the ranges of two different ranks do not overlap |
| Partition.OwnerFrom | src/scalaf.c:223-226 | a row past the start of rank `from` lies in the range of some rank at or after `from` |
| Partition.PartitionCovers | src/scalaf.c:223-226 | every row of [0, n_filas) belongs to exactly one rank |
| Physics.ResetCell | src/scalaf.c:277-282 | reset sets viscosity and yield from the current temperature and zeroes exits and the three accumulators; it keeps every other field |
| Physics.CellArea | src/scalaf.c:271 | `cArea = cellWidth * cellWidth`, the area every volume-to-thickness conversion divides by (`Physics.ConsolidateVolume`) |
| Physics.HcritDenominator | src/scalaf.c:299-303 | `density * gravity * ((Acomp - Aref) - (Hcomp - Href))`, the divisor of the critical thickness; lines 377-380 use the same value through `deltaH = Hcomp - Href` (line 368) |
| Physics.Hcrit | src/scalaf.c:377-380 | `fabs(yield * sqrt((Acomp - Aref)^2 + cellWidth^2) / HcritDenominator)`, defined where the divisor is non-zero; passes 2 and 3 compute the same value (lines 299-303) |
| Physics.Yields | src/scalaf.c:304 | the gate `Hcomp > Hcrit && Hcrit > 1e-8`, closed when the divisor is 0 (see "## Left out"); line 394 is the same test; properties in `Physics.ZeroYieldClosed` and `Sweep.YieldsNonZero` |
| Physics.Higher | src/scalaf.c:399-400 | `fabs(Hcomp + Acomp) > fabs(Href + Aref)`: the neighbour's lava surface is higher than the centre's |
| Physics.RawOutflow | src/scalaf.c:406-411 | the Bingham volume `(1 / exits) * (yield * Hcrit^2 * cellWidth / (3 * viscosity)) * (h^3 - 1.5 h^2 + 0.5) * deltat`, with h = Hcomp / Hcrit |
| Physics.Profile | src/scalaf.c:410 | the Bingham velocity profile `h^3 - 1.5 h^2 + 0.5` at h = Hcomp / Hcrit, a factor of `Physics.RawOutflow` |
| Physics.OutflowCap | src/scalaf.c:412 | `maxV = deltaH * cArea / (2 * exits)` |
| Physics.Outflow | src/scalaf.c:406-416 | the Bingham volume cut down to maxV when it exceeds it; bounded by `Physics.OutflowCapped` |
| Physics.DeltaV | src/scalaf.c:399-419 | with the gate open: the outflow when the neighbour is higher and has exits, and 0 otherwise |
| Physics.VentVolume | src/scalaf.c:331 | `eruptionRate * deltat`, the volume a vent adds per step |
| Physics.VentHeat | src/scalaf.c:332-335 | the heat of that volume at the eruption temperature, `deltaV * eruptionTemperature * heatCapacity * density` |
| Physics.Advected | src/scalaf.c:426-428 | `v * T * density * heatCapacity`, the heat carried by volume v at temperature T; the flow heat into the centre (426-428) and the heat leaving with outboundV at the old temperature (482-483) |
| Physics.Radiation | src/scalaf.c:467-477 | the radiation loss `-SBConst * cArea * emissivity * deltat * T0^4` for a layer thicker than 1e-4, and 0 otherwise; the thin case in `Physics.ThinLayerKeepsHeat` |
| Physics.NewThickness | src/scalaf.c:478-480 | `thickness_0 + inboundV / cArea - outboundV / cArea`; its volume balance in `Physics.ConsolidateVolume` |
| Physics.BaseHeat | src/scalaf.c:464 | `Q_base` as written, `thickness_0 * temperature_0 * density * heatCapacity` (see "## Findings") |
| Physics.BaseHeatCorrected | src/scalaf.c:464 | the corrected `Q_base`, `thickness_0 * cArea * temperature_0 * density * heatCapacity`, the heat of the cell's whole volume (see "## Findings"); proved in `Physics.ConsolidateCorrectedKeepsTemperature` and `Physics.ConsolidateCorrectedConservesHeat` |
| Physics.TotalHeat | src/scalaf.c:481-498 | `deltaQ = Q_base + (inboundQ - outboundV * T0 * density * heatCapacity) + deltaQ_rad`, with either Q_base |
| Physics.ColumnCapacity | src/scalaf.c:502 | `density * heatCapacity * cArea * thickness`, the divisor of the new temperature; non-zero for a non-zero thickness under a valid configuration (`Physics.ColumnCapacityNonZero`) |
| Physics.ZeroYieldClosed | src/scalaf.c:299-304 | a neighbour with yield stress 0, such as a halo cell, never passes the gate `Hcomp > Hcrit && Hcrit > 1e-8` |
| Physics.OutflowCapped | src/scalaf.c:406-416 | the volume a neighbour sends never exceeds maxV = deltaH * cArea / (2 * exits), nor the Bingham volume |
| Physics.Consolidate | src/scalaf.c:462-505 | consolidation changes only the thickness and the temperature of the cell |
| Physics.ConsolidateVolume | src/scalaf.c:478-480 | the new thickness times cArea is the old one plus inboundV minus outboundV |
| Physics.TemperatureFloor | src/scalaf.c:499-505 | a cell left with thickness <= 1e-8 gets temperature exactly 273, whatever heat flowed in |
| Physics.ThinLayerKeepsHeat | src/scalaf.c:467-477 | a layer of thickness at most 1e-4 loses no heat to radiation |
| Physics.ConsolidateAsWrittenCools | src/scalaf.c:464 | as written, a still cell with no flows and a thin layer (above 1e-8, at most 1e-4) comes out at t0 / cArea, not t0 |
| Physics.ConsolidateCorrectedKeepsTemperature | src/scalaf.c:464-505 | with Q_base counting the cell's volume, that cell keeps its temperature |
| Physics.ConsolidateCorrectedConservesHeat | src/scalaf.c:464-505 | with the corrected Q_base, a still cell's heat content is the same after consolidation |
| Sweep.YieldsNonZero | src/scalaf.c:377-394 | an open gate implies a non-zero yield stress |
| Sweep.NRow | src/scalaf.c:294 | `ni = i + l` for neighbour d = 3 * (l + 1) + (m + 1), l running -1, 0, 1 as the outer neighbour loop does; line 364 is the same in pass 3 |
| Sweep.NCol | src/scalaf.c:295 | `nj = j + m` for the same neighbour numbering, m running -1, 0, 1; line 365 is the same in pass 3; `Frames.NeighbourInGrid` shows the neighbour of an interior cell is in the grid |
| Sweep.ExitStep | src/scalaf.c:293-312 | one comparison of pass 2: the neighbour gains one exit when it yields and is higher; direction 4 is skipped; the grid keeps its size |
| Sweep.ExitStepOnlyExits | src/scalaf.c:293-312 | one comparison of the topology pass changes exit counts only |
| Sweep.ExitsFromOnlyExits | src/scalaf.c:291-315 | the eight comparisons at a cell change exit counts only |
| Sweep.ExitCounted | src/scalaf.c:304-311 | the neighbour gains exactly one exit when it yields and its lava surface is higher; otherwise, and for every other cell, nothing changes |
| Sweep.VentStep | src/scalaf.c:326-335 | the vent block: a vent cell gains `VentVolume` in inboundV and `VentHeat` in inboundQ, and a non-vent grid is returned as it was |
| Sweep.FlowStep | src/scalaf.c:363-438 | one comparison of pass 3: with the gate open, deltaV is added to the neighbour's outboundV and the centre's inboundV with its heat; the result keeps the grid size and the viscosity the outflow divides by |
| Sweep.ExitsFrom | src/scalaf.c:291-315 | the `l`/`m` loops of pass 2 at one cell: `ExitStep` for neighbours 0 .. d-1 in order, with Aref and Href read once before them; the grid keeps its size; frames in `Sweep.ExitsFromOnlyExits` |
| Sweep.FlowFrom | src/scalaf.c:361-441 | the `l`/`m` loops of pass 3 at one cell: `FlowStep` for neighbours 0 .. d-1 in order; the grid keeps its size and the viscosity the outflow divides by; it keeps the interior net inflow (`Balance.FlowFromNet`) |
| Sweep.CellStep | src/scalaf.c:276-282 | the loop body of each pass at interior cell (i, j): `ResetCell` (276-282), `ExitsFrom` (288-315), `VentStep` then `FlowFrom` (324-444), `Consolidate` (452-505); keeps the grid size, and keeps a non-zero viscosity on every cell with a non-zero yield stress when the input had it (`ViscOk`) |
| Sweep.VentInjects | src/scalaf.c:326-335 | a vent gains eruptionRate * deltat of inboundV and the matching heat in inboundQ; no other cell or field changes, and a non-vent is untouched |
| Frames.FlowStepOnlyFlows | src/scalaf.c:363-438 | one comparison of the flow pass changes inboundV, outboundV and inboundQ only |
| Sweep.FlowMovesVolume | src/scalaf.c:394-428 | when the gate is open, the same deltaV is added to the neighbour's outboundV and to the centre's inboundV, and its heat to the centre's inboundQ; a closed gate and every other cell are left alone |
| Sweep.SweepPass | src/scalaf.c:274-522 | the `i`/`j` loops of any pass compute the fold `RunSweep` of that pass over the interior |
| Sweep.CellsDone | src/scalaf.c:275-283 | the `j` loop of row i as a left fold: cell steps at columns 1 .. j-1 from left to right, each on the grid the previous ones left; computed by `Sweep.SweepRow` |
| Sweep.RowsDone | src/scalaf.c:274-284 | the `i` loop as a left fold: rows 1 .. i-1 in order, each row's `CellsDone` on the grid the previous rows left; the same nest is at 286-317, 323-445 and 450-505 |
| Sweep.RunSweep | src/scalaf.c:274-284 | a whole pass: `RowsDone` over every interior row 1 .. filas-2 (the nests at 274-284, 286-317, 323-445 and 450-505); computed by `Sweep.SweepPass`, with its frame in `Frames.SweepFrame` and `Frames.LocalSweepAt` and its sums in the `Balance` lemmas |
| Sweep.SweepRow | src/scalaf.c:275-283 | the `j` loop of row i performs the cell step at columns 1 .. columnas-2 from left to right, each on the grid the previous ones left (`CellsDone`) |
| Sweep.PassCell | src/scalaf.c:276-282 | the loop body at (i, j) performs the pass's cell step |
| Sweep.TopologyCell | src/scalaf.c:288-315 | pass 2 at (i, j) reads Aref and Href once, then runs the eight comparisons |
| Sweep.TopologyRow | src/scalaf.c:292-314 | the `m` loop for one neighbour row runs its three comparisons in order |
| Sweep.TopologyNeighbour | src/scalaf.c:293-312 | the body for neighbour (i+l, j+m) is one `ExitStep` |
| Sweep.VentCell | src/scalaf.c:325-337 | the vent block at (i, j) is `VentStep` |
| Sweep.FlowCell | src/scalaf.c:324-444 | pass 3 at (i, j) injects the vent, reads Aref and Href after the injection, then runs the eight comparisons |
| Sweep.FlowRow | src/scalaf.c:362-440 | the `m` loop for one neighbour row runs its three comparisons in order |
| Sweep.FlowNeighbour | src/scalaf.c:363-438 | the body for neighbour (i+l, j+m) is one `FlowStep` |
| Sweep.ConsolidateCell | src/scalaf.c:452-505 | pass 4 at (i, j), through the source's locals, writes `Consolidate` of the cell and changes no other cell |
| Frames.OpenGateInterior | src/scalaf.c:299-304 | on a grid whose border has yield 0, only interior cells ever open a gate |
| Frames.ExitStepKeepsBorder | src/scalaf.c:304-311 | one comparison of pass 2 leaves every border cell as it was |
| Frames.FlowStepKeepsBorder | src/scalaf.c:394-428 | one comparison of pass 3 leaves every border cell as it was |
| Frames.SweepFrame | src/scalaf.c:286-445 | the topology pass changes only exit counts, the flow pass only the three accumulators, and neither touches a border cell |
| Frames.LocalSweepAt | src/scalaf.c:274-284 | the reset and consolidation passes apply their cell function to every interior cell and leave every border cell unchanged |
| Engine.ResetViscOk | src/scalaf.c:274-284 | after the reset pass every cell that could open a gate has the viscosity the outflow divides by |
| Engine.Step | src/scalaf.c:261-524 | one time step as the four passes in order, reset, topology, flow and consolidation; the grid keeps its size |
| Engine.FuncionPrincipal | src/scalaf.c:261-524 | A becomes the four passes in order (`Step`), and C equals A afterwards |
| Engine.FuncionPrincipalCorrected | src/scalaf.c:261-524 | the same, with the corrected Q_base |
| Engine.RunPasses | src/scalaf.c:274-523 | the four loops and the final copy, for either consolidation rule |
| Engine.CopyGrid | src/scalaf.c:523 | `memcpy`: the destination equals the source |
| Balance.ResetSums | src/scalaf.c:274-284 | after reset the interior net inflow is 0, and interior volume and vent supply are unchanged |
| Balance.FlowStepNet | src/scalaf.c:424-428 | one comparison of pass 3 leaves the interior sum of inboundV - outboundV unchanged |
| Balance.FlowCellNet | src/scalaf.c:324-444 | pass 3 at one cell adds exactly that cell's vent supply to the interior net inflow |
| Balance.FlowSums | src/scalaf.c:323-445 | the flow pass adds the total vent supply to the interior net inflow, and moves no thickness |
| Balance.ConsolidationSums | src/scalaf.c:478-480 | pass 4 turns the interior net inflow into interior volume |
| Balance.StepVolumeBalance | src/scalaf.c:261-524 | over one step, the interior lava volume grows by exactly the eruption volume of the interior vents |
| Balance.StepConservesVolume | src/scalaf.c:424-425 | with no interior vent, one step keeps the interior lava volume |
| Balance.SupplyIsVentCount | src/scalaf.c:331-332 | the supply is eruptionRate * deltat times the number of interior vents |
| Driver.LocalKeepsGround | src/scalaf.c:274-284 | reset and consolidation keep every cell's altitude and isVent |
| Driver.FramedKeepsGround | src/scalaf.c:286-445 | the topology and flow passes keep every cell's altitude and isVent |
| Driver.StepKeepsBorder | src/scalaf.c:261-524 | FuncionPrincipal leaves every border cell as it was |
| Driver.StepKeepsGround | src/scalaf.c:261-524 | FuncionPrincipal never changes the altitude or the isVent of any cell |
| Driver.Iterate | src/scalaf.c:879-899 | n steps keep the grid size and a border with yield 0 |
| Driver.IterateKeeps | src/scalaf.c:879-899 | after any number of steps, the border cells, and the altitude and isVent of every cell, are those of the start |
| Driver.IterateVolume | src/scalaf.c:879-899 | after n steps the interior volume is the initial one plus `(n as real) *` the eruption volume the interior vents supply per step |
| Driver.IterateVolumeSum | src/scalaf.c:879-899 | the same balance as a repeated sum: each pass of the loop adds the vents' eruption volume once |
| Driver.Simulate | src/scalaf.c:879-899 | after the loop, A is `Iterate` of the initial grid over timeSteps steps, and C equals A when at least one step ran |
| Driver.PadInert | src/scalaf.c:156-194 | the grid preFuncion builds has yield 0 on its whole border, which is what the step loop requires |
| Path.EscapeAppend | src/scalaf.c:764-772 | escaping a concatenation escapes each part |
| Path.EscapeLength | src/scalaf.c:764-774 | the output is as long as the input plus the number of spaces |
| Path.EscapeGuardsSpaces | src/scalaf.c:765-768 | every space of the output immediately follows a backslash |
| Path.UnescapeEscape | src/scalaf.c:764-772 | removing the backslash before each space gives the input back |
| Path.EscapeInjective | src/scalaf.c:764-772 | two different paths never escape to the same string |
| Path.EscapeNoNul | src/scalaf.c:764-772 | escaping adds no terminator inside the output |
| Path.EscapeStep | src/scalaf.c:764-772 | one loop iteration extends the escaped prefix by that character's piece |
| Path.Escape | src/scalaf.c:764-772 | the escaped path: every space preceded by a backslash, every other character copied |
| Path.Piece | src/scalaf.c:765-771 | what one loop iteration writes: `'\\', ' '` for a space and the character itself otherwise; used by `Path.EscapeStep` and `Path.PutPiece` |
| Path.PutPiece | src/scalaf.c:765-771 | one pass of the loop body writes the character's piece at j, keeps f_path[..j], leaves the rest of f_path unchanged, and advances j by the piece's length |
| Path.EscapeInto | src/scalaf.c:763-774 | the loop writes the escaped path and its terminator into f_path, j is its length, and every entry past the terminator is unchanged |
| Path.StrCopy | src/scalaf.c:775 | `strcpy`: the destination receives the string and its terminator, and the rest is unchanged |
| Path.LimpiarPath | src/scalaf.c:757-776 | spath holds the escaped path followed by '\0', and the rest of spath is unchanged |

## Left out

- Reading the terrain and crater files (`readTerrainFile`, `readCratersPositionFile`, src/scalaf.c:46-118): file I/O. Grids and crater lists are parameters.
- The gnuplot export (`prepararVisualizacionGNUPlot`, `prepararVisualizacionGNUPlot_2`, src/scalaf.c:527-737), `generarAnimacionGNUPlot`, and the `i % 5` export inside the step loop: file writing and external programs.
- `obtenerPath` (src/scalaf.c:743-753) and the path building in the step loop: `getcwd` and `strcat`; they do not affect the grid.
- `getopt` option parsing, `MPI_Init`, `MPI_Comm_rank`, `MPI_Comm_size` and `MPI_Finalize` in `main`, and the `printf` progress output: I/O and process setup. `rank` and `size` are parameters.
- `MPI_Gather` (src/scalaf.c:248): a collective call across processes. The model ends at the local buffer B. The gather's count of `MPI_DOUBLE`s does not match the cell buffer either.
- The call of postFuncion at src/scalaf.c:900 passes `int rank, int size` as arguments, which does not compile. The model has `PostFuncion` take rank and size.
- The composition of `main` (placeCraters, preFuncion, the step loop, postFuncion) is not one method. Its steps are modelled one by one, and `Driver.PadInert` shows that the grid preFuncion builds meets what `Driver.Simulate` requires.
- Floating point: cell fields are mathematical reals. Nothing is claimed about rounding, overflow, NaN or infinity.
- `visc`, `yield` (src/scalaf.c:17-25) and `sqrt` are the function fields `visc`, `yieldStress` and `sqrt` of `Physics.Config`. `pow` and `exp` occur only inside `visc` and `yield`, so they are not modelled separately. The T^4 of the radiation loss is written as an explicit product, as in the source. The only assumption made about these functions is that `visc` is never 0, which holds for a power of 10.
- src/scalaf.h is not part of this model. Its constants (density, gravity, heatCapacity, SBConst, emissivity, time_delta) are fields of `Physics.Config`, and so are the run's initial conditions `c0`.
- Physics.Hcrit: when its denominator `density * gravity * ((Acomp - Aref) - deltaH)` is 0, C does not fail. A non-zero numerator gives +inf after `fabs`, so `Hcomp > Hcrit` fails (only `Hcrit > 1e-8` holds). A zero numerator gives NaN, so both comparisons fail. Either way the gate is closed, and the model closes it in that case (`Physics.Yields`) instead of dividing.
- Physics.ValidConfig: the engine requires cArea, density and heatCapacity to be non-zero, because the consolidation pass divides by them. The source does not check this.
- Engine.FuncionPrincipal, Driver.Simulate: both require a border whose cells have yield 0, or a viscosity in place of it (`Frames.BorderInert`, `Engine.BorderViscOk`). The source assumes this of its caller. preFuncion provides it (`Driver.PadInert`), and every step keeps it (`Driver.StepKeepsBorder`).
- Path.LimpiarPath: the C buffers `r_path`, `f_path` and `spath` hold 1024 characters. The model requires the input and its escaped form, each with a terminator, to fit, instead of modelling the overflow. The path is a sequence without its NUL terminator, so `strcpy(r_path, path)` and `strlen` are the identity on it.
- Path.LimpiarPath: a C `char` is modelled as one Dafny `char`, so the bound `|Escape(path)| < BufferSize` counts characters where the C buffers count bytes. A path with non-ASCII characters takes more bytes in C and could overflow a buffer the model says it fits. The escaping itself is the same either way, because byte 0x20 never occurs inside a multi-byte UTF-8 sequence.
- Craters.PlaceCraters, Path.LimpiarPath: the C functions are declared to return `int` but return nothing; the models return nothing.
- The `exits` and `isVent` counters are unbounded integers. The 32-bit `int` of the source cannot overflow with at most eight increments per cell per step.

## Findings

| source | as written | input that shows it | evidently intended | confidence | as-written member | corrected member |
|---|---|---|---|---|---|---|
| src/scalaf.c:229-241 | the strip reads padded row `i` for result row `i`, for `i` in [start_row, end_row) | one process, any grid whose cell (0, 0) is not at altitude 100000: result cell (0, 0) is the top halo cell | read padded row `i + 1`, so that the strip drops the border ring and pad(strip(pad(G))) == pad(G) | not executed | Halo.StripAsWrittenBreaksRoundTrip | Halo.StripPadRoundTrip |
| src/scalaf.c:464 | `Q_base = thickness_0 * temperature_0 * density * heatCapacity`, while line 502 divides the heat by `density * heatCapacity * cArea * thickness` | a cell with no flows, 1e-8 < thickness <= 1e-4 and cellWidth 2: temperature t0 becomes t0 / 4 | Q_base counts the cell's volume, `thickness_0 * cArea`, so that a still cell keeps its temperature | not executed | Physics.ConsolidateAsWrittenCools | Physics.ConsolidateCorrectedKeepsTemperature |
