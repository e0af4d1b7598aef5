/** Worked computations on the default table: the full water process, a
    liquid-only heating, an aluminium melt, the latent boundaries, and the
    cooling cases the heating-oriented guards leave out. */
module Scenarios {

  import opened Outcomes
  import opened Materials
  import opened Stages
  import opened Phases
  import opened Properties

  /** A plan whose constants are all present realises to the records built step by step. */
  lemma RealizeIs(k: Constants, m: real, plan: seq<Step>, st: seq<Stage>)
    requires AllPresent(k, plan) && |st| == |plan|
    requires forall i :: 0 <= i < |plan| ==> st[i] == Build(k, m, plan[i])
    ensures Realize(k, m, plan) == Success(st)
  {
    RealizeShape(k, m, plan);
    var r := Realize(k, m, plan).value;
    assert |r| == |st| && forall i :: 0 <= i < |st| ==> r[i] == st[i];
    assert r == st;
  }

  /** The trace of given stages, read off entry by entry. */
  lemma TraceIs(ti: real, st: seq<Stage>, temps: seq<real>, energies: seq<real>)
    requires |temps| == |st| + 1 && |energies| == |st| + 1
    requires temps[0] == ti && energies[0] == 0.0
    requires forall i :: 0 <= i < |st| ==> temps[i + 1] == Checkpoint(st[i].range)
    requires forall i :: 0 <= i < |st| ==> energies[i + 1] == energies[i] + st[i].energy
    ensures Integrate(ti, st) == Heat(energies[|st|], st, temps, energies)
  {
    TraceSteps(ti, st);
    TraceEnds(ti, st);
    var es := Energies(st);
    assert forall i :: 0 <= i <= |st| ==> es[i] == energies[i] by {
      forall i | 0 <= i <= |st| ensures es[i] == energies[i] {
        EnergyPrefix(st, es, energies, i);
      }
    }
    assert es == energies;
    var ts := Temperatures(ti, st);
    assert forall i :: 0 <= i <= |st| ==> ts[i] == temps[i] by {
      forall i | 0 <= i <= |st| ensures ts[i] == temps[i] {
        if i > 0 {
          var j := i - 1;
          assert ts[j + 1] == Checkpoint(st[j].range) == temps[j + 1];
        }
      }
    }
    assert ts == temps;
  }

  lemma {:induction false} EnergyPrefix(st: seq<Stage>, es: seq<real>, energies: seq<real>, i: nat)
    requires |es| == |st| + 1 && |energies| == |st| + 1 && i <= |st|
    requires es[0] == 0.0 && energies[0] == 0.0
    requires forall j :: 0 <= j < |st| ==> es[j + 1] == es[j] + st[j].energy
    requires forall j :: 0 <= j < |st| ==> energies[j + 1] == energies[j] + st[j].energy
    ensures es[i] == energies[i]
  {
    if i > 0 {
      EnergyPrefix(st, es, energies, i - 1);
    }
  }

  /** On the default table, water takes the water path with its own record. */
  lemma WaterTotal(m: real, ti: real, tf: real)
    ensures TotalHeat(Default, WaterKey, m, ti, tf) == Segment(Water, m, WaterPhases, ti, tf)
  {
    TableRecords();
  }

  /** On the default table, a metal takes the generic path at its melting point. */
  lemma MetalTotal(name: string, k: Constants, m: real, ti: real, tf: real)
    requires name in {AluminumKey, CopperKey, IronKey} && k == Default[name]
    ensures TFusion in k
    ensures TotalHeat(Default, name, m, ti, tf) == Segment(k, m, MeltingAt(k[TFusion]), ti, tf)
  {
    TableKeys();
    MetalsHaveNoGasPhase(name);
  }

  /** 1 kg of ice at −20 taken to steam at 120: all five stages, in order,
      totalling 42000 + 334000 + 418600 + 2260000 + 40200 = 3094800 J. */
  lemma WaterFromIceToSteam()
    ensures var r := TotalHeat(Default, WaterKey, 1.0, -20.0, 120.0);
            r.Success? &&
            r.value.stages == [Stage(HeatSolid, 42000.0, Span(-20.0, 0.0)), Stage(Melt, 334000.0, At(0.0)),
                               Stage(HeatLiquid, 418600.0, Span(0.0, 100.0)), Stage(Vaporize, 2260000.0, At(100.0)),
                               Stage(HeatGas, 40200.0, Span(100.0, 120.0))] &&
            r.value.temperatures == [-20.0, 0.0, 0.0, 100.0, 100.0, 120.0] &&
            r.value.energies == [0.0, 42000.0, 376000.0, 794600.0, 3054600.0, 3094800.0] &&
            r.value.total == 3094800.0
  {
    WaterTotal(1.0, -20.0, 120.0);
    var st := WaterFullStages();
    TraceIs(-20.0, st, [-20.0, 0.0, 0.0, 100.0, 100.0, 120.0],
            [0.0, 42000.0, 376000.0, 794600.0, 3054600.0, 3094800.0]);
  }

  /** The five stage records of 1 kg of water between −20 and 120. */
  lemma WaterFullStages() returns (st: seq<Stage>)
    ensures st == [Stage(HeatSolid, 42000.0, Span(-20.0, 0.0)), Stage(Melt, 334000.0, At(0.0)),
                   Stage(HeatLiquid, 418600.0, Span(0.0, 100.0)), Stage(Vaporize, 2260000.0, At(100.0)),
                   Stage(HeatGas, 40200.0, Span(100.0, 120.0))]
    ensures Realize(Water, 1.0, Plan(WaterPhases, -20.0, 120.0)) == Success(st)
  {
    var plan := [Step(HeatSolid, Span(-20.0, 0.0)), Step(Melt, At(0.0)), Step(HeatLiquid, Span(0.0, 100.0)),
                 Step(Vaporize, At(100.0)), Step(HeatGas, Span(100.0, 120.0))];
    WaterFullPlan();
    st := [Stage(HeatSolid, 42000.0, Span(-20.0, 0.0)), Stage(Melt, 334000.0, At(0.0)),
           Stage(HeatLiquid, 418600.0, Span(0.0, 100.0)), Stage(Vaporize, 2260000.0, At(100.0)),
           Stage(HeatGas, 40200.0, Span(100.0, 120.0))];
    WaterValues();
    assert st[0] == Build(Water, 1.0, plan[0]);
    assert st[1] == Build(Water, 1.0, plan[1]);
    assert st[2] == Build(Water, 1.0, plan[2]);
    assert st[3] == Build(Water, 1.0, plan[3]);
    assert st[4] == Build(Water, 1.0, plan[4]);
    RealizeIs(Water, 1.0, plan, st);
  }

  /** The steps of water between −20 and 120: all five. */
  lemma WaterFullPlan()
    ensures Plan(WaterPhases, -20.0, 120.0) ==
              [Step(HeatSolid, Span(-20.0, 0.0)), Step(Melt, At(0.0)), Step(HeatLiquid, Span(0.0, 100.0)),
               Step(Vaporize, At(100.0)), Step(HeatGas, Span(100.0, 120.0))]
  {
    var w := WaterPhases;
    WaterPieces(-20.0, 120.0);
    assert Piece(w, HeatSolid, -20.0, 120.0) == [Step(HeatSolid, Span(-20.0, 0.0))];
    assert Piece(w, Melt, -20.0, 120.0) == [Step(Melt, At(0.0))];
    assert Piece(w, HeatLiquid, -20.0, 120.0) == [Step(HeatLiquid, Span(0.0, 100.0))];
    assert Piece(w, Vaporize, -20.0, 120.0) == [Step(Vaporize, At(100.0))];
    assert Piece(w, HeatGas, -20.0, 120.0) == [Step(HeatGas, Span(100.0, 120.0))];
  }

  /** A computation whose plan is one step with its constant present emits that one stage. */
  lemma OneStage(k: Constants, m: real, p: Profile, ti: real, tf: real, step: Step, st: Stage)
    requires Plan(p, ti, tf) == [step]
    requires FieldFor(step.kind) in k && st == Build(k, m, step)
    ensures Segment(k, m, p, ti, tf) == Success(Heat(st.energy, [st], [ti, Checkpoint(st.range)], [0.0, st.energy]))
  {
    RealizeIs(k, m, [step], [st]);
    TraceIs(ti, [st], [ti, Checkpoint(st.range)], [0.0, st.energy]);
  }

  /** 2 kg of water heated from 10 to 50: one liquid stage of 2·4186·40 = 334880 J. */
  lemma WaterLiquidOnly()
    ensures var r := TotalHeat(Default, WaterKey, 2.0, 10.0, 50.0);
            r.Success? && r.value.stages == [Stage(HeatLiquid, 334880.0, Span(10.0, 50.0))] &&
            r.value.temperatures == [10.0, 50.0] && r.value.energies == [0.0, 334880.0] &&
            r.value.total == 334880.0
  {
    WaterTotal(2.0, 10.0, 50.0);
    WaterLiquidPlan();
    WaterValues();
    OneStage(Water, 2.0, WaterPhases, 10.0, 50.0, Step(HeatLiquid, Span(10.0, 50.0)),
             Stage(HeatLiquid, 334880.0, Span(10.0, 50.0)));
  }

  lemma WaterLiquidPlan()
    ensures Plan(WaterPhases, 10.0, 50.0) == [Step(HeatLiquid, Span(10.0, 50.0))]
  {
    WaterPieces(10.0, 50.0);
  }

  /** 0.5 kg of aluminium from 500 to 800: the solid heats up to exactly its
      melting point 660, melts there, and the liquid heats from 660 to 800. */
  lemma AluminumMelts()
    ensures var r := TotalHeat(Default, AluminumKey, 0.5, 500.0, 800.0);
            r.Success? &&
            r.value.stages == [Stage(HeatSolid, 72000.0, Span(500.0, 660.0)), Stage(Melt, 199000.0, At(660.0)),
                               Stage(HeatLiquid, 77000.0, Span(660.0, 800.0))] &&
            r.value.temperatures == [500.0, 660.0, 660.0, 800.0] &&
            r.value.energies == [0.0, 72000.0, 271000.0, 348000.0] &&
            r.value.total == 348000.0
  {
    TableRecords();
    MetalTotal(AluminumKey, Aluminum, 0.5, 500.0, 800.0);
    var st := AluminumStages();
    TraceIs(500.0, st, [500.0, 660.0, 660.0, 800.0], [0.0, 72000.0, 271000.0, 348000.0]);
  }

  /** The three stage records of 0.5 kg of aluminium between 500 and 800. */
  lemma AluminumStages() returns (st: seq<Stage>)
    ensures st == [Stage(HeatSolid, 72000.0, Span(500.0, 660.0)), Stage(Melt, 199000.0, At(660.0)),
                   Stage(HeatLiquid, 77000.0, Span(660.0, 800.0))]
    ensures Realize(Aluminum, 0.5, Plan(MeltingAt(660.0), 500.0, 800.0)) == Success(st)
  {
    var plan := [Step(HeatSolid, Span(500.0, 660.0)), Step(Melt, At(660.0)), Step(HeatLiquid, Span(660.0, 800.0))];
    AluminumPlan();
    st := [Stage(HeatSolid, 72000.0, Span(500.0, 660.0)), Stage(Melt, 199000.0, At(660.0)),
           Stage(HeatLiquid, 77000.0, Span(660.0, 800.0))];
    assert st[0] == Build(Aluminum, 0.5, plan[0]);
    assert st[1] == Build(Aluminum, 0.5, plan[1]);
    assert st[2] == Build(Aluminum, 0.5, plan[2]);
    RealizeIs(Aluminum, 0.5, plan, st);
  }

  /** The steps of aluminium between 500 and 800. */
  lemma AluminumPlan()
    ensures Plan(MeltingAt(660.0), 500.0, 800.0) ==
              [Step(HeatSolid, Span(500.0, 660.0)), Step(Melt, At(660.0)), Step(HeatLiquid, Span(660.0, 800.0))]
  {
    var g := MeltingAt(660.0);
    MeltingAtPieces(660.0, 500.0, 800.0);
    assert Piece(g, HeatSolid, 500.0, 800.0) == [Step(HeatSolid, Span(500.0, 660.0))];
    assert Piece(g, Melt, 500.0, 800.0) == [Step(Melt, At(660.0))];
    assert Piece(g, HeatLiquid, 500.0, 800.0) == [Step(HeatLiquid, Span(660.0, 800.0))];
  }

  /** Water ending exactly at 0 does not melt: only the ice is heated. */
  lemma EndingAtFreezingDoesNotMelt(m: real)
    ensures var r := TotalHeat(Default, WaterKey, m, -10.0, 0.0);
            r.Success? && r.value.stages == [Stage(HeatSolid, m * 2100.0 * 10.0, Span(-10.0, 0.0))]
  {
    WaterTotal(m, -10.0, 0.0);
    WaterPieces(-10.0, 0.0);
    WaterValues();
    OneStage(Water, m, WaterPhases, -10.0, 0.0, Step(HeatSolid, Span(-10.0, 0.0)),
             Stage(HeatSolid, m * 2100.0 * 10.0, Span(-10.0, 0.0)));
  }

  /** Water starting exactly at 100 does not boil: only the vapour is heated. */
  lemma StartingAtBoilingDoesNotBoil(m: real)
    ensures var r := TotalHeat(Default, WaterKey, m, 100.0, 110.0);
            r.Success? && r.value.stages == [Stage(HeatGas, m * 2010.0 * 10.0, Span(100.0, 110.0))]
  {
    WaterTotal(m, 100.0, 110.0);
    WaterPieces(100.0, 110.0);
    WaterValues();
    OneStage(Water, m, WaterPhases, 100.0, 110.0, Step(HeatGas, Span(100.0, 110.0)),
             Stage(HeatGas, m * 2010.0 * 10.0, Span(100.0, 110.0)));
  }

  /** Steam at 120 cooled to ice at −20, or water cooled from 50 to 10, emits
      no stage at all and reports no heat released. */
  lemma WaterCoolingAcrossPhasesIsSilent(m: real)
    ensures var r := TotalHeat(Default, WaterKey, m, 120.0, -20.0);
            r.Success? && r.value.stages == [] && r.value.total == 0.0
    ensures var r := TotalHeat(Default, WaterKey, m, 50.0, 10.0);
            r.Success? && r.value.stages == [] && r.value.total == 0.0
  {
    WaterTotal(m, 120.0, -20.0);
    WaterTotal(m, 50.0, 10.0);
    CoolingPlan(WaterPhases, 120.0, -20.0);
    CoolingPlan(WaterPhases, 50.0, 10.0);
  }

  /** Cooling ice from −5 to −20 releases 2100·15 = 31500 J in one ice stage. */
  lemma IceCooling()
    ensures var r := TotalHeat(Default, WaterKey, 1.0, -5.0, -20.0);
            r.Success? && r.value.stages == [Stage(HeatSolid, -31500.0, Span(-5.0, -20.0))]
  {
    WaterTotal(1.0, -5.0, -20.0);
    CoolingPlan(WaterPhases, -5.0, -20.0);
    WaterValues();
    OneStage(Water, 1.0, WaterPhases, -5.0, -20.0, Step(HeatSolid, Span(-5.0, -20.0)),
             Stage(HeatSolid, -31500.0, Span(-5.0, -20.0)));
  }

  /** Cooling steam from 130 to 110 releases 2010·20 = 40200 J in one vapour stage. */
  lemma VapourCooling()
    ensures var r := TotalHeat(Default, WaterKey, 1.0, 130.0, 110.0);
            r.Success? && r.value.stages == [Stage(HeatGas, -40200.0, Span(130.0, 110.0))]
  {
    WaterTotal(1.0, 130.0, 110.0);
    CoolingPlan(WaterPhases, 130.0, 110.0);
    WaterValues();
    OneStage(Water, 1.0, WaterPhases, 130.0, 110.0, Step(HeatGas, Span(130.0, 110.0)),
             Stage(HeatGas, -40200.0, Span(130.0, 110.0)));
  }

  /** Cooling is not monotone in the final temperature: steam cooled from 120
      to 110 releases 20100 J, but cooled further, to 100, it releases
      nothing, because the vapour stage only fires while the final
      temperature is above boiling. */
  lemma CoolingNotMonotone()
    ensures var near := TotalHeat(Default, WaterKey, 1.0, 120.0, 110.0);
            var far := TotalHeat(Default, WaterKey, 1.0, 120.0, 100.0);
            near.Success? && far.Success? &&
            near.value.total == -20100.0 && far.value.total == 0.0 &&
            far.value.total > near.value.total
  {
    WaterTotal(1.0, 120.0, 110.0);
    WaterTotal(1.0, 120.0, 100.0);
    CoolingPlan(WaterPhases, 120.0, 110.0);
    CoolingPlan(WaterPhases, 120.0, 100.0);
    WaterValues();
    OneStage(Water, 1.0, WaterPhases, 120.0, 110.0, Step(HeatGas, Span(120.0, 110.0)),
             Stage(HeatGas, -20100.0, Span(120.0, 110.0)));
  }

  /** Iron cooled from 1000 to 500 stays solid, and the solid stage only fires
      when warming, so nothing is emitted. */
  lemma GenericSolidCoolingIsSilent(m: real)
    ensures var r := TotalHeat(Default, IronKey, m, 1000.0, 500.0);
            r.Success? && r.value.stages == [] && r.value.total == 0.0
  {
    TableRecords();
    MetalTotal(IronKey, Iron, m, 1000.0, 500.0);
    CoolingPlan(MeltingAt(1538.0), 1000.0, 500.0);
  }

  /** A name outside the table fails at the lookup, before any stage. */
  lemma UnknownMaterialFails(table: Table, name: string, m: real, ti: real, tf: real)
    requires name !in table
    ensures TotalHeat(table, name, m, ti, tf) == Failure(UnknownMaterial(name))
  {
  }
}
