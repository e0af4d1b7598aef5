/** The heat calculator: looks a material up, then walks its guarded stages
    in order, recording each stage, adding its energy to the running total and
    appending one (temperature, cumulative energy) checkpoint to the trace.
    Each guarded block of the program is one method below, proved to emit
    exactly the stage its phase description calls for; the two segmentation
    methods run the blocks in the program's order and stop at the first
    missing constant. */
module Calculator {

  import opened Outcomes
  import opened Materials
  import opened Stages
  import opened Phases

  /** Phase 1, heating (or cooling) ice: from ti up to 0 when the water ends
      above freezing, otherwise from ti to tf. */
  method HeatIce(k: Constants, m: real, ti: real, tf: real, acc: Heat) returns (r: Result<Heat, Error>)
    ensures r == Run(k, m, acc, Piece(WaterPhases, HeatSolid, ti, tf))
  {
    RunSingle(k, m, acc, Step(HeatSolid, RangeOf(WaterPhases, HeatSolid, ti, tf)));
    r := Success(acc);
    if ti < 0.0 && tf > 0.0 {
      if CSolid !in k { return Failure(MissingConstant(CSolid)); }
      var q1 := m * k[CSolid] * (0.0 - ti);
      assert Piece(WaterPhases, HeatSolid, ti, tf) == [Step(HeatSolid, Span(ti, 0.0))];
      assert Energy(k[CSolid], m, Span(ti, 0.0)) == q1;
      assert Build(k, m, Step(HeatSolid, Span(ti, 0.0))) == Stage(HeatSolid, q1, Span(ti, 0.0));
      var total := acc.total + q1;
      r := Success(Heat(total, acc.stages + [Stage(HeatSolid, q1, Span(ti, 0.0))],
                        acc.temperatures + [0.0], acc.energies + [total]));
    } else if ti < 0.0 && tf <= 0.0 {
      if CSolid !in k { return Failure(MissingConstant(CSolid)); }
      var q1 := m * k[CSolid] * (tf - ti);
      assert Piece(WaterPhases, HeatSolid, ti, tf) == [Step(HeatSolid, Span(ti, tf))];
      assert Energy(k[CSolid], m, Span(ti, tf)) == q1;
      assert Build(k, m, Step(HeatSolid, Span(ti, tf))) == Stage(HeatSolid, q1, Span(ti, tf));
      var total := acc.total + q1;
      r := Success(Heat(total, acc.stages + [Stage(HeatSolid, q1, Span(ti, tf))],
                        acc.temperatures + [tf], acc.energies + [total]));
    }
  }

  /** Phase 2, melting the ice at 0. */
  method MeltIce(k: Constants, m: real, ti: real, tf: real, acc: Heat) returns (r: Result<Heat, Error>)
    ensures r == Run(k, m, acc, Piece(WaterPhases, Melt, ti, tf))
  {
    RunSingle(k, m, acc, Step(Melt, RangeOf(WaterPhases, Melt, ti, tf)));
    r := Success(acc);
    if ti <= 0.0 && tf > 0.0 {
      if Lf !in k { return Failure(MissingConstant(Lf)); }
      var q2 := m * k[Lf];
      var total := acc.total + q2;
      r := Success(Heat(total, acc.stages + [Stage(Melt, q2, At(0.0))],
                        acc.temperatures + [0.0], acc.energies + [total]));
    }
  }

  /** Phase 3, heating liquid water over the part of [ti, tf] inside [0, 100];
      nothing when that part is empty. */
  method HeatLiquidWater(k: Constants, m: real, ti: real, tf: real, acc: Heat) returns (r: Result<Heat, Error>)
    ensures r == Run(k, m, acc, Piece(WaterPhases, HeatLiquid, ti, tf))
  {
    RunSingle(k, m, acc, Step(HeatLiquid, RangeOf(WaterPhases, HeatLiquid, ti, tf)));
    r := Success(acc);
    if ti < 100.0 && tf > 0.0 {
      var tStart := Max(0.0, ti);
      var tEnd := Min(100.0, tf);
      if tEnd > tStart {
        if CLiquid !in k { return Failure(MissingConstant(CLiquid)); }
        var q3 := m * k[CLiquid] * (tEnd - tStart);
        assert Piece(WaterPhases, HeatLiquid, ti, tf) == [Step(HeatLiquid, Span(tStart, tEnd))];
        assert Energy(k[CLiquid], m, Span(tStart, tEnd)) == q3;
        assert Build(k, m, Step(HeatLiquid, Span(tStart, tEnd))) == Stage(HeatLiquid, q3, Span(tStart, tEnd));
        var total := acc.total + q3;
        r := Success(Heat(total, acc.stages + [Stage(HeatLiquid, q3, Span(tStart, tEnd))],
                          acc.temperatures + [tEnd], acc.energies + [total]));
      }
    }
  }

  /** Phase 4, boiling the water at 100. */
  method VaporizeWater(k: Constants, m: real, ti: real, tf: real, acc: Heat) returns (r: Result<Heat, Error>)
    ensures r == Run(k, m, acc, Piece(WaterPhases, Vaporize, ti, tf))
  {
    RunSingle(k, m, acc, Step(Vaporize, RangeOf(WaterPhases, Vaporize, ti, tf)));
    r := Success(acc);
    if ti < 100.0 && tf > 100.0 {
      if Lv !in k { return Failure(MissingConstant(Lv)); }
      var q4 := m * k[Lv];
      var total := acc.total + q4;
      r := Success(Heat(total, acc.stages + [Stage(Vaporize, q4, At(100.0))],
                        acc.temperatures + [100.0], acc.energies + [total]));
    }
  }

  /** Phase 5, heating (or cooling) vapour from max(100, ti) to tf, whenever tf is above 100. */
  method HeatVapour(k: Constants, m: real, ti: real, tf: real, acc: Heat) returns (r: Result<Heat, Error>)
    ensures r == Run(k, m, acc, Piece(WaterPhases, HeatGas, ti, tf))
  {
    RunSingle(k, m, acc, Step(HeatGas, RangeOf(WaterPhases, HeatGas, ti, tf)));
    r := Success(acc);
    if tf > 100.0 {
      var tStart := Max(100.0, ti);
      if CGas !in k { return Failure(MissingConstant(CGas)); }
      var q5 := m * k[CGas] * (tf - tStart);
      assert Piece(WaterPhases, HeatGas, ti, tf) == [Step(HeatGas, Span(tStart, tf))];
      assert Energy(k[CGas], m, Span(tStart, tf)) == q5;
      assert Build(k, m, Step(HeatGas, Span(tStart, tf))) == Stage(HeatGas, q5, Span(tStart, tf));
      var total := acc.total + q5;
      r := Success(Heat(total, acc.stages + [Stage(HeatGas, q5, Span(tStart, tf))],
                        acc.temperatures + [tf], acc.energies + [total]));
    }
  }

  /** The water computation: the five phases in order, the first missing
      constant aborting it. */
  method SegmentWater(k: Constants, m: real, ti: real, tf: real) returns (r: Result<Heat, Error>)
    ensures r == Segment(k, m, WaterPhases, ti, tf)
  {
    RunFromStart(k, m, ti, Plan(WaterPhases, ti, tf));
    var acc := Start(ti);
    RunAppend(k, m, acc, Piece(WaterPhases, HeatSolid, ti, tf), From(WaterPhases, 1, ti, tf));
    acc :- HeatIce(k, m, ti, tf, acc);
    RunAppend(k, m, acc, Piece(WaterPhases, Melt, ti, tf), From(WaterPhases, 2, ti, tf));
    acc :- MeltIce(k, m, ti, tf, acc);
    RunAppend(k, m, acc, Piece(WaterPhases, HeatLiquid, ti, tf), From(WaterPhases, 3, ti, tf));
    acc :- HeatLiquidWater(k, m, ti, tf, acc);
    RunAppend(k, m, acc, Piece(WaterPhases, Vaporize, ti, tf), From(WaterPhases, 4, ti, tf));
    acc :- VaporizeWater(k, m, ti, tf, acc);
    RunAppend(k, m, acc, Piece(WaterPhases, HeatGas, ti, tf), From(WaterPhases, 5, ti, tf));
    acc :- HeatVapour(k, m, ti, tf, acc);
    r := Success(acc);
  }

  /** Heating the solid from ti up to the melting point (or to tf if lower),
      provided the material starts below its melting point and warms up. */
  method HeatSolidPhase(k: Constants, m: real, tFus: real, ti: real, tf: real, acc: Heat) returns (r: Result<Heat, Error>)
    ensures r == Run(k, m, acc, Piece(MeltingAt(tFus), HeatSolid, ti, tf))
  {
    RunSingle(k, m, acc, Step(HeatSolid, RangeOf(MeltingAt(tFus), HeatSolid, ti, tf)));
    r := Success(acc);
    if ti < tFus && tf > ti {
      var tEnd := Min(tFus, tf);
      if CSolid !in k { return Failure(MissingConstant(CSolid)); }
      var q1 := m * k[CSolid] * (tEnd - ti);
      assert Occurs(MeltingAt(tFus), HeatSolid, ti, tf);
      assert RangeOf(MeltingAt(tFus), HeatSolid, ti, tf) == Span(ti, tEnd);
      assert Piece(MeltingAt(tFus), HeatSolid, ti, tf) == [Step(HeatSolid, Span(ti, tEnd))];
      assert Energy(k[CSolid], m, Span(ti, tEnd)) == q1;
      assert Build(k, m, Step(HeatSolid, Span(ti, tEnd))) == Stage(HeatSolid, q1, Span(ti, tEnd));
      var total := acc.total + q1;
      r := Success(Heat(total, acc.stages + [Stage(HeatSolid, q1, Span(ti, tEnd))],
                        acc.temperatures + [tEnd], acc.energies + [total]));
    }
  }

  /** Melting at the melting point. */
  method MeltSolid(k: Constants, m: real, tFus: real, ti: real, tf: real, acc: Heat) returns (r: Result<Heat, Error>)
    ensures r == Run(k, m, acc, Piece(MeltingAt(tFus), Melt, ti, tf))
  {
    RunSingle(k, m, acc, Step(Melt, RangeOf(MeltingAt(tFus), Melt, ti, tf)));
    r := Success(acc);
    if ti <= tFus && tf > tFus {
      if Lf !in k { return Failure(MissingConstant(Lf)); }
      var q2 := m * k[Lf];
      var total := acc.total + q2;
      r := Success(Heat(total, acc.stages + [Stage(Melt, q2, At(tFus))],
                        acc.temperatures + [tFus], acc.energies + [total]));
    }
  }

  /** Heating (or cooling) the liquid from max(tFus, ti) to tf, whenever tf is above the melting point. */
  method HeatLiquidPhase(k: Constants, m: real, tFus: real, ti: real, tf: real, acc: Heat) returns (r: Result<Heat, Error>)
    ensures r == Run(k, m, acc, Piece(MeltingAt(tFus), HeatLiquid, ti, tf))
  {
    RunSingle(k, m, acc, Step(HeatLiquid, RangeOf(MeltingAt(tFus), HeatLiquid, ti, tf)));
    r := Success(acc);
    if tf > tFus {
      var tStart := Max(tFus, ti);
      if CLiquid !in k { return Failure(MissingConstant(CLiquid)); }
      var q3 := m * k[CLiquid] * (tf - tStart);
      assert Occurs(MeltingAt(tFus), HeatLiquid, ti, tf);
      assert RangeOf(MeltingAt(tFus), HeatLiquid, ti, tf) == Span(tStart, tf);
      assert Piece(MeltingAt(tFus), HeatLiquid, ti, tf) == [Step(HeatLiquid, Span(tStart, tf))];
      assert Energy(k[CLiquid], m, Span(tStart, tf)) == q3;
      assert Build(k, m, Step(HeatLiquid, Span(tStart, tf))) == Stage(HeatLiquid, q3, Span(tStart, tf));
      var total := acc.total + q3;
      r := Success(Heat(total, acc.stages + [Stage(HeatLiquid, q3, Span(tStart, tf))],
                        acc.temperatures + [tf], acc.energies + [total]));
    }
  }

  /** Any other material: its melting point is read first, then the solid,
      melting and liquid phases run in order. */
  method SegmentGeneric(k: Constants, m: real, ti: real, tf: real) returns (r: Result<Heat, Error>)
    ensures TFusion !in k ==> r == Failure(MissingConstant(TFusion))
    ensures TFusion in k ==> r == Segment(k, m, MeltingAt(k[TFusion]), ti, tf)
  {
    if TFusion !in k { return Failure(MissingConstant(TFusion)); }
    var tFus := k[TFusion];
    RunFromStart(k, m, ti, Plan(MeltingAt(tFus), ti, tf));
    var acc := Start(ti);
    RunAppend(k, m, acc, Piece(MeltingAt(tFus), HeatSolid, ti, tf), From(MeltingAt(tFus), 1, ti, tf));
    acc :- HeatSolidPhase(k, m, tFus, ti, tf, acc);
    RunAppend(k, m, acc, Piece(MeltingAt(tFus), Melt, ti, tf), From(MeltingAt(tFus), 2, ti, tf));
    acc :- MeltSolid(k, m, tFus, ti, tf, acc);
    RunAppend(k, m, acc, Piece(MeltingAt(tFus), HeatLiquid, ti, tf), From(MeltingAt(tFus), 3, ti, tf));
    acc :- HeatLiquidPhase(k, m, tFus, ti, tf, acc);
    r := Success(acc);
  }

  /** The calculator holds the material table it was built with. */
  class HeatCalculator {

    const constants: Table

    /** Uses the given table, or the default one when none (or an empty one) is given. */
    constructor (custom: Option<Table>)
      ensures constants == EffectiveTable(custom)
    {
      constants := EffectiveTable(custom);
    }

    /** Looks the material up (an unknown name fails before any stage is
        computed) and takes the water path only for the exact water key. */
    method CalculateTotalHeat(material: string, m: real, ti: real, tf: real) returns (r: Result<Heat, Error>)
      ensures material !in constants ==> r == Failure(UnknownMaterial(material))
      ensures material == WaterKey && material in constants ==> r == Segment(constants[material], m, WaterPhases, ti, tf)
      ensures r == TotalHeat(constants, material, m, ti, tf)
    {
      if material !in constants {
        return Failure(UnknownMaterial(material));
      }
      var constMat := constants[material];
      if material == WaterKey {
        r := SegmentWater(constMat, m, ti, tf);
      } else {
        r := SegmentGeneric(constMat, m, ti, tf);
      }
    }
  }
}
