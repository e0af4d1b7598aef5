# Calorimetria heat integrator, modelled in Dafny

The calculator works out the heat needed to take a mass of some material from
an initial to a final temperature. It splits the interval into stages. A
sensible stage heats one phase (Q = m·c·ΔT). A latent stage changes phase at a
fixed temperature (Q = m·L). Each stage is recorded, its energy is added to a
running total, and one (temperature, cumulative energy) checkpoint is appended
to a trace that starts at (Ti, 0).

Water (the exact key `Agua (H₂O)`) has five guarded stages with the literal
boundaries 0 and 100: heat ice, melt, heat liquid, vaporise, heat vapour.
Every other material has three: heat solid up to its `T_fusion`, melt, heat
liquid. The material table is fixed data. A small solver rearranges
Q = m·c·ΔT for one unknown.

Files and modules:

- `materials.dfy` (`Materials`): the table as a map from name to a map from
  constant name to value, and the constructor's fallback to it.
- `stages.dfy` (`Stages`): stage kinds, stage records, the trace and how
  emitting a stage extends it. `Run` walks steps in order; `Realize` looks up
  each step's constant, and the first missing one raises the KeyError.
- `phases.dfy` (`Phases`): the declarative description of which stages occur
  and over which clamped ranges (`Occurs`, `RangeOf`, `Plan`). Also the whole
  computation as a function (`TotalHeat`).
- `calculator.dfy` (`Calculator`): the program's own form. There is one method
  per guarded block, run in the source order by `SegmentWater` and
  `SegmentGeneric`, and a `HeatCalculator` class holding the table. Each method
  is proved equal to the declarative description.
- `properties.dfy` (`Properties`): trace and partial sums, clamping,
  latent-stage conditions, signs, monotonicity of heating, unchanged
  temperature, cooling. Stage order and count are proved next to their
  definitions, in `phases.dfy` (`StagesShape`, `NoGasPhase`) and
  `stages.dfy` (`OrderedBound`).
- `scenarios.dfy` (`Scenarios`): concrete computations on the default table.
- `solver.dfy` (`Solver`): the four rearrangements, with their guards and
  error paths.

Temperatures, mass and energies are Dafny `real`. Some consequences of the
code, each proved in `scenarios.dfy`, `properties.dfy` or `solver.dfy`:

- 1 kg of water from −20 to 120 totals 3,094,800 J
  (42000 + 334000 + 418600 + 2260000 + 40200).
- 0.5 kg of aluminium from 500 to 800 emits three stages: solid, melt and
  liquid.
- Ti == Tf gives a zero total but not always zero stages. Water below 0 or
  above 100, or a generic material above its melting point, emits one
  zero-energy stage.
- The mass solver rejects ΔT = 0 with a ValueError. Only c = 0 reaches the
  ZeroDivisionError handler.
- With a non-negative mass and non-negative constants, heating over a wider
  interval (a lower start or a higher end) never costs less, but cooling further can release less:
  1 kg of water from 120 to 110 totals −20100 J, from 120 to 100 it totals 0.

## Model

| member | source | states |
|---|---|---|
| `Materials.TableKeys` | src/constants.py:5-33 | The table has exactly four keys: water, aluminium, copper and iron. |
| `Materials.TableRecords` | src/constants.py:5-33 | Each of the four keys maps to its own record. |
| `Materials.WaterValues` | src/constants.py:6-14 | Water carries all seven constants: 2100, 4186, 2010, 334000, 2260000, 0 and 100. |
| `Materials.MetalsHaveNoGasPhase` | src/constants.py:15-32 | Every non-water entry has exactly c_solido, c_liquido, Lf and T_fusion. It has no c_gas, Lv or T_ebullicion. |
| `Materials.TableHeatsPositive` | src/constants.py:7-31 | Every specific heat and latent heat in the table is strictly positive. |
| `Materials.EffectiveTable` | src/calculator.py:11-12 | A given non-empty table is used as is. A missing or empty one falls back to the default table. The result is never empty. |
| `Stages.FieldFor` | src/calculator.py:54-172 | Each stage kind reads one specific or latent heat, never a temperature. Each of the five kinds reads its own constant: the solid stage c_solido, melting Lf, the liquid stage c_liquido, vaporisation Lv, the vapour stage c_gas, and no other kind reads that constant. |
| `Stages.EnergySign` | src/calculator.py:54-172 | The energy of a stage (m·c·ΔT over a span, m·L at a transition) is 0 for zero mass, a zero constant or an empty span. With positive mass and constant it is positive exactly for a latent stage or an upward span, and negative exactly for a downward span. |
| `Stages.RealizeShape` | src/calculator.py:54-172 | Building the stage records succeeds exactly when every stage's constant is present, with one record per stage. Otherwise it fails with the KeyError of the first missing constant, and every stage before it had its constant. |
| `Stages.TraceEnds` | src/calculator.py:48-49 | The trace has one entry more than there are stages and starts at (Ti, 0). Its last energy is the sum of the stage energies. |
| `Stages.TraceSteps` | src/calculator.py:48-181 | Stage i appends its checkpoint (span end or transition temperature) as temperature i+1. Energy i+1 is energy i plus the stage's energy. |
| `Stages.PartialSums` | src/calculator.py:48-181 | Energy i is the sum of the first i stage energies. |
| `Stages.OrderedBound` | src/calculator.py:52-130 | Stages with strictly increasing processing rank below n number at most n, and no kind repeats. |
| `Phases.Occurs` | src/calculator.py:53-181 | The guard of each block: only kinds of the profile occur (no vaporisation or vapour for a generic material), and a latent stage only occurs when Tf > Ti. |
| `Phases.RangeOf` | src/calculator.py:54-172 | Within a profile, a stage covers a single temperature exactly when it is latent. When heating, an occurring sensible stage covers a sub-interval of [Ti, Tf]. When cooling, it covers the whole interval from Ti to Tf. |
| `Phases.ProfileOf` | src/calculator.py:34-41 | Only the exact water key takes the water path. Any other material reads T_fusion first, failing with its KeyError when it is missing. Otherwise the melting point is the record's T_fusion. |
| `Phases.TotalHeat` | src/calculator.py:14-44 | An unknown name, and only an unknown name, fails with UnknownMaterial. Any other failure is the KeyError of a missing constant. |
| `Phases.TotalHeatTrace` | src/calculator.py:14-44 | A result has one checkpoint more than stages, starts at (Ti, 0) and ends its energy trace at the total. |
| `Phases.PlanShape` | src/calculator.py:52-181 | The planned steps come in processing order. Each one occurs and carries its clamped range. Every kind that occurs is planned. |
| `Phases.PlanSucceeds` | src/calculator.py:52-181 | The computation succeeds exactly when every stage that occurs finds its constant in the record. |
| `Phases.StagesShape` | src/calculator.py:52-181 | The emitted stages number at most 5 for water and at most 3 otherwise. They come in the order ice → melt → liquid → vaporise → vapour, with no kind twice. Each one occurs, covers its clamped range and carries m·c·ΔT or m·L. Every stage that occurs is emitted. |
| `Phases.NoGasPhase` | src/calculator.py:134-183 | A non-water material never emits a vaporisation or vapour stage, and emits at most three stages. |
| `Phases.WaterBoundariesMatchTable` | src/constants.py:12-13 | Water's T_fusion and T_ebullicion in the table equal the literals 0 and 100 used by the water path. |
| `Phases.WaterPieces` | src/calculator.py:52-130 | The water stages are the ice, melt, liquid, vaporise and vapour pieces, concatenated in that order. |
| `Phases.MeltingAtPieces` | src/calculator.py:142-181 | A generic material's stages are the solid, melt and liquid pieces, concatenated in that order. |
| `Calculator.HeatIce` | src/calculator.py:52-74 | Ice heats from Ti to 0 when Tf > 0. It heats or cools from Ti to Tf when Tf ≤ 0. Only when Ti < 0, and the two branches are exclusive. |
| `Calculator.MeltIce` | src/calculator.py:76-87 | Fusion costs m·Lf at 0, and only when Ti ≤ 0 < Tf. |
| `Calculator.HeatLiquidWater` | src/calculator.py:89-103 | Liquid water heats over [max(0,Ti), min(100,Tf)], and only when Ti < 100, Tf > 0 and that span is non-empty. |
| `Calculator.VaporizeWater` | src/calculator.py:105-116 | Vaporisation costs m·Lv at 100, and only when Ti < 100 < Tf. |
| `Calculator.HeatVapour` | src/calculator.py:118-130 | Vapour heats from max(100,Ti) to Tf whenever Tf > 100. |
| `Calculator.SegmentWater` | src/calculator.py:46-132 | The five water blocks run in order. The result is the planned water segmentation, or the first missing constant. |
| `Calculator.HeatSolidPhase` | src/calculator.py:142-154 | The solid heats from Ti to min(T_fus,Tf), and only when Ti < T_fus and Tf > Ti. |
| `Calculator.MeltSolid` | src/calculator.py:156-167 | Fusion costs m·Lf at T_fus, and only when Ti ≤ T_fus < Tf. |
| `Calculator.HeatLiquidPhase` | src/calculator.py:169-181 | The liquid heats from max(T_fus,Ti) to Tf whenever Tf > T_fus. |
| `Calculator.SegmentGeneric` | src/calculator.py:134-183 | T_fusion is read first, and a missing one is a KeyError. Then the three blocks run in order and give the planned segmentation. |
| `Calculator.HeatCalculator.constructor` | src/calculator.py:11-12 | The calculator holds the given table, or the default one when none or an empty one is given. |
| `Calculator.HeatCalculator.CalculateTotalHeat` | src/calculator.py:14-44 | An unknown name fails with UnknownMaterial before any stage. Only the exact water key takes the water path. The result is the whole computation. |
| `Properties.SegmentTrace` | src/calculator.py:48-181 | The total is the sum of the stage energies in emission order. The trace starts at (Ti, 0) and gains one checkpoint per stage. Each running total is a partial sum, and the last one is the total. |
| `Properties.WaterIgnoresBoundaryFields` | src/calculator.py:53-120 | The water result does not depend on the record's T_fusion or T_ebullicion. |
| `Properties.MeltReadsMetalFields` | src/calculator.py:140-172 | A generic material succeeds exactly when the stages that occur find c_solido, Lf and c_liquido. No other constant is read. |
| `Properties.KnownMaterialsSucceed` | src/constants.py:5-33 | Every material of the default table is computed without a KeyError, for every mass and interval. |
| `Properties.HeatingIsNonNegative` | src/calculator.py:53-181 | With Ti ≤ Tf, m ≥ 0 and non-negative constants, every stage energy is ≥ 0. The total is then ≥ 0 and the energy trace never decreases. |
| `Properties.UnchangedPlan` | src/calculator.py:53-181 | With Ti = Tf, water emits one empty ice span below 0, one empty vapour span above 100, and nothing otherwise. A generic material emits one empty liquid span above T_fus. |
| `Properties.UnchangedNoHeat` | src/calculator.py:53-181 | With Ti = Tf there is at most one stage, it has zero energy, and the total is 0. |
| `Properties.CoolingPlan` | src/calculator.py:53-181 | With Tf < Ti, water emits only the whole-interval ice stage (Ti < 0) or only the vapour stage (Tf > 100), and nothing otherwise. A generic material emits only a liquid stage (Tf > T_fus) and never cools its solid. |
| `Properties.DefaultHeatingIsNonNegative` | src/constants.py:5-33 | For every material of the default table, heating (Ti ≤ Tf) with m ≥ 0 succeeds, every stage energy is ≥ 0 and the total is ≥ 0. |
| `Properties.HeatingMonotone` | src/calculator.py:53-181 | With Ti fixed, m ≥ 0 and non-negative constants, a higher final temperature never gives a smaller total. |
| `Properties.HeatingMonotoneInStart` | src/calculator.py:53-181 | With Tf fixed, m ≥ 0 and non-negative constants, a lower initial temperature never gives a smaller total. |
| `Properties.HeatingMonotoneNested` | src/calculator.py:53-181 | With m ≥ 0 and non-negative constants, heating over [Ti, Tf] costs no more than heating over any wider interval containing it. |
| `Properties.CoolingReleasesHeat` | src/calculator.py:53-181 | Cooling with positive mass and constants emits at most one stage. That stage is never latent and has negative energy, so the total is ≤ 0. |
| `Properties.MeltStage` | src/calculator.py:77-87 | A melt stage is emitted exactly when Ti ≤ melting point < Tf. It costs m·Lf at the melting point. |
| `Properties.VaporizeStage` | src/calculator.py:106-116 | A vaporisation stage is emitted exactly for water with Ti < 100 < Tf. It costs m·Lv at 100. |
| `Properties.ClampedRanges` | src/calculator.py:90-172 | Water liquid covers [max(0,Ti), min(100,Tf)] and that span is non-empty. Water vapour starts at max(100,Ti). Generic solid ends at min(T_fus,Tf). Generic liquid starts at max(T_fus,Ti). |
| `Scenarios.WaterFromIceToSteam` | src/calculator.py:46-132 | 1 kg of water from −20 to 120 emits all five stages in order. The trace energies are 0, 42000, 376000, 794600, 3054600 and 3094800 J. |
| `Scenarios.WaterLiquidOnly` | src/calculator.py:89-103 | 2 kg of water from 10 to 50 emits one liquid stage of 334880 J. |
| `Scenarios.AluminumMelts` | src/calculator.py:134-183 | 0.5 kg of aluminium from 500 to 800 heats the solid to 660, melts it there, and heats the liquid from 660. The trace energies are 0, 72000, 271000 and 348000 J. |
| `Scenarios.EndingAtFreezingDoesNotMelt` | src/calculator.py:64-87 | Water heated from −10 to exactly 0 emits only the ice stage, with no melt. |
| `Scenarios.StartingAtBoilingDoesNotBoil` | src/calculator.py:105-130 | Water heated from exactly 100 to 110 emits only the vapour stage, with no vaporisation. |
| `Scenarios.WaterCoolingAcrossPhasesIsSilent` | src/calculator.py:64-121 | Water from 120 to −20, or from 50 to 10, emits no stage and totals 0. |
| `Scenarios.IceCooling` | src/calculator.py:64-74 | Ice cooled from −5 to −20 emits one ice stage of −31500 J. |
| `Scenarios.VapourCooling` | src/calculator.py:118-130 | Vapour cooled from 130 to 110 emits one vapour stage of −40200 J. |
| `Scenarios.CoolingNotMonotone` | src/calculator.py:119-130 | Water cooled from 120 to 110 totals −20100 J, cooled further to 100 it totals 0: cooling is not monotone in the final temperature. |
| `Scenarios.GenericSolidCoolingIsSilent` | src/calculator.py:143 | Iron cooled from 1000 to 500 emits nothing. |
| `Scenarios.UnknownMaterialFails` | src/calculator.py:27 | A name outside the table fails with UnknownMaterial. |
| `Solver.SolveMass` | src/despejador.py:126-134 | ΔT = 0 is a ValueError. Otherwise c = 0 is a ZeroDivisionError. Otherwise m·c·ΔT = Q for the result. |
| `Solver.SolveSpecificHeat` | src/despejador.py:140-148 | m = 0 or ΔT = 0 is a ValueError. Otherwise m·c·ΔT = Q for the result. |
| `Solver.SolveFinalTemperature` | src/despejador.py:154-163 | m = 0 or c = 0 is a ValueError. Otherwise m·c·(Tf − Ti) = Q for the result. |
| `Solver.SolveInitialTemperature` | src/despejador.py:169-178 | m = 0 or c = 0 is a ValueError. Otherwise m·c·(Tf − Ti) = Q for the result. |
| `Solver.Solve` | src/despejador.py:118-190 | No selection is reported as an error before anything is computed. Otherwise the selected rearrangement runs, and its ValueError or ZeroDivisionError is the result. |
| `Solver.MassUnique` | src/despejador.py:131-134 | Any mass satisfying m·c·ΔT = Q, with c and ΔT non-zero, is the one the solver returns. |
| `Solver.SpecificHeatUnique` | src/despejador.py:145-148 | Any c satisfying m·c·ΔT = Q, with m and ΔT non-zero, is the one the solver returns. |
| `Solver.NoHeatNoChange` | src/despejador.py:160-178 | Q = 0 gives Tf = Ti, and Ti = Tf. |
| `Solver.TemperatureSolversInverse` | src/despejador.py:163-178 | Feeding the Tf solver's result to the Ti solver with the same Q, m and c gives back the original Ti, and the other way round. |

## Left out

- Display strings are not modelled: the `formula` and `rango` text of a stage record, `formatear_resultados`, and the reference texts `FORMULAS_TEXT` and `CONSTANTES_TEXT`. A stage is its kind, energy and range.
- The Tk and matplotlib layers (`ui.py`, `main.py`, `grapher.py`) and the solver window's widgets are not modelled. They only collect input and display output. The kJ conversion for plotting is display-only.
- Parsing input with `float(...)` is not modelled. A malformed number's ValueError belongs to that layer, so the model takes numbers as given.
- IEEE-754 rounding is not modelled. All arithmetic is exact on `real`, so the "exact sum in emission order" is exact here.
- The message texts of the error dialogs are not modelled. The three error dialogs a request can reach are the three `SolveError` cases: the explicit "select a variable" dialog (src/despejador.py:120-122), the ValueError handler (:187) and the ZeroDivisionError handler (:189). The catch-all `Exception` handler (:191) has no case, because exact arithmetic on the parsed numbers raises nothing else.
- The solver's selection is an `Option` of the four choices. The combobox is read-only, so no other string can arrive. The program's silent empty result for an unrecognised string is therefore not modelled.
- `resultados` is the caller's list, filled in place. The model returns the stages instead. The only caller passes a fresh empty list and discards it when a KeyError propagates, so nothing observable is lost.
- Heating monotonicity is not claimed for cooling. The vapour stage needs Tf > 100 (src/calculator.py:119), so 1 kg of water from 120 to 110 totals −20100 J while 120 to 100 totals 0; `Scenarios.CoolingNotMonotone` states this.
