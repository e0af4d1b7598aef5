/** What the segmentation promises about its result: the trace it returns,
    which constants it reads, when it succeeds, the sign of its energies,
    and what it does for an unchanged temperature, for cooling and at the
    latent boundaries. */
module Properties {

  import opened Outcomes
  import opened Materials
  import opened Stages
  import opened Phases

  /** The result's trace starts at (ti, 0) and gains, per stage, its
      checkpoint temperature and the running total; each running total is
      the sum of the stages so far, and the last one is the total. */
  lemma SegmentTrace(k: Constants, m: real, p: Profile, ti: real, tf: real)
    requires Segment(k, m, p, ti, tf).Success?
    ensures var h := Segment(k, m, p, ti, tf).value;
            h.total == Sum(h.stages) &&
            |h.temperatures| == |h.stages| + 1 && |h.energies| == |h.stages| + 1 &&
            h.temperatures[0] == ti && h.energies[0] == 0.0 && h.energies[|h.stages|] == h.total &&
            (forall i :: 0 <= i < |h.stages| ==> h.temperatures[i + 1] == Checkpoint(h.stages[i].range)) &&
            (forall i :: 0 <= i < |h.stages| ==> h.energies[i + 1] == h.energies[i] + h.stages[i].energy) &&
            (forall i :: 0 <= i <= |h.stages| ==> h.energies[i] == Sum(h.stages[..i]))
  {
    var h := Segment(k, m, p, ti, tf).value;
    assert h == Integrate(ti, h.stages);
    TraceEnds(ti, h.stages);
    TraceSteps(ti, h.stages);
    PartialSums(h.stages);
  }

  /** Two records agree on every specific and latent heat. */
  predicate SameHeats(k1: Constants, k2: Constants) {
    forall f :: !IsTemperature(f) ==> (f in k1 <==> f in k2) && (f in k1 ==> k1[f] == k2[f])
  }

  /** Realising a plan reads only specific and latent heats. */
  lemma {:induction false} RealizeReadsHeats(k1: Constants, k2: Constants, m: real, plan: seq<Step>)
    requires SameHeats(k1, k2)
    ensures Realize(k1, m, plan) == Realize(k2, m, plan)
  {
    if plan != [] {
      RealizeReadsHeats(k1, k2, m, plan[1..]);
    }
  }

  /** The water path never reads the record's melting or boiling point: it
      uses the literal boundaries 0 and 100. */
  lemma WaterIgnoresBoundaryFields(k: Constants, m: real, ti: real, tf: real)
    ensures Segment(k, m, WaterPhases, ti, tf) == Segment(k - {TFusion, TBoiling}, m, WaterPhases, ti, tf)
  {
    RealizeReadsHeats(k, k - {TFusion, TBoiling}, m, Plan(WaterPhases, ti, tf));
  }

  /** A material melting at tm reads only c_solido, Lf and c_liquido besides its melting point. */
  lemma MeltReadsMetalFields(k: Constants, m: real, tm: real, ti: real, tf: real)
    ensures Realize(k, m, Plan(MeltingAt(tm), ti, tf)).Success? <==>
              (Occurs(MeltingAt(tm), HeatSolid, ti, tf) ==> CSolid in k) &&
              (Occurs(MeltingAt(tm), Melt, ti, tf) ==> Lf in k) &&
              (Occurs(MeltingAt(tm), HeatLiquid, ti, tf) ==> CLiquid in k)
  {
    PlanSucceeds(k, m, MeltingAt(tm), ti, tf);
    assert Rank(HeatSolid) == 0 && Rank(Melt) == 1 && Rank(HeatLiquid) == 2;
  }

  /** Every material of the default table is computed without a missing constant. */
  lemma KnownMaterialsSucceed(name: string, m: real, ti: real, tf: real)
    requires name in Default
    ensures TotalHeat(Default, name, m, ti, tf).Success?
  {
    TableKeys();
    TableRecords();
    var k := Default[name];
    if name == WaterKey {
      WaterValues();
      PlanSucceeds(k, m, WaterPhases, ti, tf);
    } else {
      MetalsHaveNoGasPhase(name);
      assert TFusion in k;
      MeltReadsMetalFields(k, m, k[TFusion], ti, tf);
    }
  }

  /** When the temperature does not decrease, every clamped span runs forward. */
  lemma ForwardRange(p: Profile, kind: StageKind, ti: real, tf: real)
    requires ti <= tf && Occurs(p, kind, ti, tf)
    ensures RangeOf(p, kind, ti, tf).Span? ==> RangeOf(p, kind, ti, tf).from <= RangeOf(p, kind, ti, tf).to
  {
  }

  /** The energy of a forward span, or of a latent stage, is non-negative for non-negative mass and constant. */
  lemma EnergyNonNegative(value: real, m: real, r: Range)
    requires value >= 0.0 && m >= 0.0
    requires r.Span? ==> r.from <= r.to
    ensures Energy(value, m, r) >= 0.0
  {
    if r.Span? {
      ProductNonNegative(m, value);
      ProductNonNegative(m * value, r.to - r.from);
    }
  }

  lemma ProductPositive(a: real, b: real)
    requires a > 0.0 && b > 0.0
    ensures a * b > 0.0
  {
  }

  lemma ProductNegative(a: real, b: real)
    requires a > 0.0 && b < 0.0
    ensures a * b < 0.0
  {
  }

  lemma ProductNonNegative(a: real, b: real)
    requires a >= 0.0 && b >= 0.0
    ensures a * b >= 0.0
  {
  }

  /** A sum of non-negative energies is non-negative. */
  lemma {:induction false} SumNonNegative(stages: seq<Stage>)
    requires forall j :: 0 <= j < |stages| ==> stages[j].energy >= 0.0
    ensures Sum(stages) >= 0.0
  {
    if stages != [] {
      SumNonNegative(stages[..|stages| - 1]);
    }
  }

  /** Fitting stages of a heating process have non-negative energies. */
  lemma FitNonNegative(k: Constants, m: real, p: Profile, st: seq<Stage>, ti: real, tf: real)
    requires ti <= tf && m >= 0.0 && NonNegativeHeats(k)
    requires StagesFit(k, m, p, st, ti, tf)
    ensures forall j :: 0 <= j < |st| ==> st[j].energy >= 0.0
  {
    forall j | 0 <= j < |st|
      ensures st[j].energy >= 0.0
    {
      ForwardRange(p, st[j].kind, ti, tf);
      EnergyNonNegative(k[FieldFor(st[j].kind)], m, st[j].range);
    }
  }

  /** Heating (ti ≤ tf) with non-negative mass and constants: every stage
      energy is non-negative, so the total is non-negative and the energy
      trace never decreases. */
  lemma HeatingIsNonNegative(k: Constants, m: real, p: Profile, ti: real, tf: real)
    requires ti <= tf && m >= 0.0 && NonNegativeHeats(k)
    requires Segment(k, m, p, ti, tf).Success?
    ensures var h := Segment(k, m, p, ti, tf).value;
            (forall j :: 0 <= j < |h.stages| ==> h.stages[j].energy >= 0.0) && h.total >= 0.0 &&
            |h.energies| == |h.stages| + 1 &&
            forall j :: 0 <= j < |h.stages| ==> h.energies[j] <= h.energies[j + 1]
  {
    var h := Segment(k, m, p, ti, tf).value;
    HeatingStages(k, m, p, ti, tf);
    assert h == Integrate(ti, h.stages);
    SumNonNegative(h.stages);
    EnergiesNondecreasing(h.stages);
  }

  /** The stages of a heating process have non-negative energies. */
  lemma HeatingStages(k: Constants, m: real, p: Profile, ti: real, tf: real)
    requires ti <= tf && m >= 0.0 && NonNegativeHeats(k)
    requires Realize(k, m, Plan(p, ti, tf)).Success?
    ensures var st := Realize(k, m, Plan(p, ti, tf)).value;
            forall j :: 0 <= j < |st| ==> st[j].energy >= 0.0
  {
    StagesShape(k, m, p, ti, tf);
    FitNonNegative(k, m, p, Realize(k, m, Plan(p, ti, tf)).value, ti, tf);
  }

  /** With non-negative stage energies the running total never decreases. */
  lemma EnergiesNondecreasing(stages: seq<Stage>)
    requires forall j :: 0 <= j < |stages| ==> stages[j].energy >= 0.0
    ensures |Energies(stages)| == |stages| + 1
    ensures forall j :: 0 <= j < |stages| ==> Energies(stages)[j] <= Energies(stages)[j + 1]
  {
    TraceSteps(0.0, stages);
  }

  /** The plan when the temperature does not change: water emits one empty
      span below 0 or above 100, a material melting at tm one above tm, and
      nothing otherwise. */
  lemma UnchangedPlan(p: Profile, t: real)
    ensures Plan(p, t, t) ==
              match p
              case WaterPhases =>
                if t < Freezing then [Step(HeatSolid, Span(t, t))]
                else if t > Boiling then [Step(HeatGas, Span(t, t))]
                else []
              case MeltingAt(tm) =>
                if t > tm then [Step(HeatLiquid, Span(t, t))] else []
  {
    if p.WaterPhases? {
      WaterPieces(t, t);
    } else {
      MeltingAtPieces(p.tm, t, t);
    }
  }

  /** An unchanged temperature costs no energy: at most one stage, of zero energy, and a zero total. */
  lemma UnchangedNoHeat(k: Constants, m: real, p: Profile, t: real)
    requires Segment(k, m, p, t, t).Success?
    ensures var h := Segment(k, m, p, t, t).value;
            |h.stages| <= 1 && (forall j :: 0 <= j < |h.stages| ==> h.stages[j].energy == 0.0) && h.total == 0.0
  {
    UnchangedPlan(p, t);
    var plan := Plan(p, t, t);
    var h := Segment(k, m, p, t, t).value;
    RealizeShape(k, m, plan);
    if |h.stages| == 1 {
      var st := h.stages[0];
      assert st == Build(k, m, plan[0]);
      assert plan[0].range == Span(t, t);
      assert st.energy == m * k[FieldFor(st.kind)] * (t - t);
      assert st.energy == 0.0;
      assert h.stages[..0] == [];
      assert h.total == Sum(h.stages);
      assert Sum(h.stages) == Sum(h.stages[..0]) + st.energy;
    }
  }

  /** The plan of a cooling process (tf < ti): water emits only an ice stage
      (when it starts below 0) or only a vapour stage (when it ends above 100),
      each over the whole interval, and nothing when it crosses or stays within
      the liquid range; a material melting at tm emits only a liquid stage,
      when it ends above tm, and never cools its solid. */
  lemma CoolingPlan(p: Profile, ti: real, tf: real)
    requires tf < ti
    ensures Plan(p, ti, tf) ==
              match p
              case WaterPhases =>
                if ti < Freezing then [Step(HeatSolid, Span(ti, tf))]
                else if tf > Boiling then [Step(HeatGas, Span(ti, tf))]
                else []
              case MeltingAt(tm) =>
                if tf > tm then [Step(HeatLiquid, Span(ti, tf))] else []
  {
    if p.WaterPhases? {
      WaterPieces(ti, tf);
    } else {
      MeltingAtPieces(p.tm, ti, tf);
    }
  }

  /** Cooling with positive mass and constants releases heat: at most one
      stage, never a latent one, with negative energy. */
  lemma CoolingReleasesHeat(k: Constants, m: real, p: Profile, ti: real, tf: real)
    requires tf < ti && m > 0.0 && PositiveHeats(k)
    requires Segment(k, m, p, ti, tf).Success?
    ensures var h := Segment(k, m, p, ti, tf).value;
            |h.stages| <= 1 &&
            (forall j :: 0 <= j < |h.stages| ==> !IsLatent(h.stages[j].kind) && h.stages[j].energy < 0.0) &&
            h.total <= 0.0
  {
    var plan := Plan(p, ti, tf);
    var h := Segment(k, m, p, ti, tf).value;
    CoolingSteps(p, ti, tf);
    RealizeShape(k, m, plan);
    forall j | 0 <= j < |h.stages|
      ensures !IsLatent(h.stages[j].kind) && h.stages[j].energy < 0.0
    {
      assert h.stages[j] == Build(k, m, plan[j]);
      SpanEnergyNegative(k[FieldFor(plan[j].kind)], m, ti, tf);
    }
    if |h.stages| == 1 {
      SingleSum(h.stages[0]);
      assert h.stages == [h.stages[0]];
    }
  }

  /** A cooling plan has at most one step, a sensible one over the whole interval. */
  lemma CoolingSteps(p: Profile, ti: real, tf: real)
    requires tf < ti
    ensures var plan := Plan(p, ti, tf);
            |plan| <= 1 && forall j :: 0 <= j < |plan| ==> plan[j].range == Span(ti, tf) && !IsLatent(plan[j].kind)
  {
    CoolingPlan(p, ti, tf);
  }

  /** Cooling over a span with positive mass and constant releases heat. */
  lemma SpanEnergyNegative(c: real, m: real, ti: real, tf: real)
    requires c > 0.0 && m > 0.0 && tf < ti
    ensures Energy(c, m, Span(ti, tf)) < 0.0
  {
    ProductPositive(m, c);
    ProductNegative(m * c, tf - ti);
  }

  lemma SingleSum(st: Stage)
    ensures Sum([st]) == st.energy
  {
    assert [st][..0] == [];
  }

  /** The temperature at which the profile melts. */
  function MeltPoint(p: Profile): real {
    if p.WaterPhases? then Freezing else p.tm
  }

  /** Melting is emitted exactly when ti ≤ melting point < tf, and costs m·Lf
      at the melting point: ending exactly at the melting point emits no melting. */
  lemma MeltStage(k: Constants, m: real, p: Profile, ti: real, tf: real)
    requires Segment(k, m, p, ti, tf).Success?
    ensures var st := Segment(k, m, p, ti, tf).value.stages;
            ((exists j :: 0 <= j < |st| && st[j].kind == Melt) <==> ti <= MeltPoint(p) < tf) &&
            forall j :: 0 <= j < |st| && st[j].kind == Melt ==>
              Lf in k && st[j].energy == m * k[Lf] && st[j].range == At(MeltPoint(p))
  {
    var st := Realize(k, m, Plan(p, ti, tf)).value;
    MeltFacts(p, ti, tf);
    assert StagesFit(k, m, p, st, ti, tf) && Covers(p, st, ti, tf) by {
      StagesShape(k, m, p, ti, tf);
    }
    KindStage(k, m, p, st, ti, tf, Melt);
  }

  /** Melting is considered by every profile, occurs exactly when ti ≤ melting point < tf, at that point. */
  lemma MeltFacts(p: Profile, ti: real, tf: real)
    ensures Rank(Melt) < Count(p)
    ensures Occurs(p, Melt, ti, tf) <==> ti <= MeltPoint(p) < tf
    ensures RangeOf(p, Melt, ti, tf) == At(MeltPoint(p))
    ensures FieldFor(Melt) == Lf
  {
  }

  /** Vaporisation happens only for water, exactly when ti < 100 < tf, and costs
      m·Lv at 100: starting exactly at 100 emits no vaporisation. */
  lemma VaporizeStage(k: Constants, m: real, p: Profile, ti: real, tf: real)
    requires Segment(k, m, p, ti, tf).Success?
    ensures var st := Segment(k, m, p, ti, tf).value.stages;
            ((exists j :: 0 <= j < |st| && st[j].kind == Vaporize) <==> p.WaterPhases? && ti < Boiling < tf) &&
            forall j :: 0 <= j < |st| && st[j].kind == Vaporize ==>
              Lv in k && st[j].energy == m * k[Lv] && st[j].range == At(Boiling)
  {
    var st := Realize(k, m, Plan(p, ti, tf)).value;
    VaporizeFacts(p, ti, tf);
    assert StagesFit(k, m, p, st, ti, tf) && Covers(p, st, ti, tf) by {
      StagesShape(k, m, p, ti, tf);
    }
    KindStage(k, m, p, st, ti, tf, Vaporize);
  }

  /** Vaporisation occurs only for water, exactly when ti < 100 < tf, at 100. */
  lemma VaporizeFacts(p: Profile, ti: real, tf: real)
    ensures Rank(Vaporize) < Count(p) <==> p.WaterPhases?
    ensures Occurs(p, Vaporize, ti, tf) <==> p.WaterPhases? && ti < Boiling < tf
    ensures p.WaterPhases? ==> RangeOf(p, Vaporize, ti, tf) == At(Boiling)
    ensures FieldFor(Vaporize) == Lv
  {
  }

  /** In fitting, covering stages, a kind the profile considers has a stage
      exactly when it occurs, and that stage is built from its constant. */
  lemma KindStage(k: Constants, m: real, p: Profile, st: seq<Stage>, ti: real, tf: real, kind: StageKind)
    requires StagesFit(k, m, p, st, ti, tf) && Covers(p, st, ti, tf)
    ensures (exists j :: 0 <= j < |st| && st[j].kind == kind) <==> Rank(kind) < Count(p) && Occurs(p, kind, ti, tf)
    ensures forall j :: 0 <= j < |st| && st[j].kind == kind ==>
              FieldFor(kind) in k && st[j].range == RangeOf(p, kind, ti, tf) &&
              st[j].energy == Energy(k[FieldFor(kind)], m, RangeOf(p, kind, ti, tf))
  {
  }

  /** The sensible stages cover the interval clamped to their phase: water's
      liquid stage spans [max(0, ti), min(100, tf)] and is emitted only when
      that span is non-empty, its vapour stage starts at max(100, ti); a
      melting material's solid stage starts at ti and ends at min(tm, tf), its
      liquid stage starts at max(tm, ti) and ends at tf. */
  lemma ClampedRanges(k: Constants, m: real, p: Profile, ti: real, tf: real)
    requires Segment(k, m, p, ti, tf).Success?
    ensures var st := Segment(k, m, p, ti, tf).value.stages;
            forall j :: 0 <= j < |st| ==>
              match p
              case WaterPhases =>
                (st[j].kind == HeatSolid ==> st[j].range == Span(ti, Min(Freezing, tf))) &&
                (st[j].kind == HeatLiquid ==>
                   st[j].range == Span(Max(Freezing, ti), Min(Boiling, tf)) && Max(Freezing, ti) < Min(Boiling, tf)) &&
                (st[j].kind == HeatGas ==> st[j].range == Span(Max(Boiling, ti), tf))
              case MeltingAt(tm) =>
                (st[j].kind == HeatSolid ==> st[j].range == Span(ti, Min(tm, tf)) && ti < tm && ti < tf) &&
                (st[j].kind == HeatLiquid ==> st[j].range == Span(Max(tm, ti), tf) && tm < tf)
  {
    StagesShape(k, m, p, ti, tf);
  }

  /** On the default table, heating with a non-negative mass never gives a
      negative stage energy, a negative total or a decreasing energy trace. */
  lemma DefaultHeatingIsNonNegative(name: string, m: real, ti: real, tf: real)
    requires name in Default && ti <= tf && m >= 0.0
    ensures var r := TotalHeat(Default, name, m, ti, tf);
            r.Success? && (forall j :: 0 <= j < |r.value.stages| ==> r.value.stages[j].energy >= 0.0) &&
            r.value.total >= 0.0
  {
    var k := Default[name];
    KnownMaterialsSucceed(name, m, ti, tf);
    TableHeatsPositive(name);
    PositiveIsNonNegative(k);
    var p := ProfileOf(name, k).value;
    HeatingIsNonNegative(k, m, p, ti, tf);
  }

  /** The energy a stage kind contributes between ti and tf: its m·c·ΔT or
      m·L when it occurs and its constant is present, nothing otherwise. */
  function Contribution(k: Constants, m: real, p: Profile, kind: StageKind, ti: real, tf: real): real {
    if Occurs(p, kind, ti, tf) && FieldFor(kind) in k then Energy(k[FieldFor(kind)], m, RangeOf(p, kind, ti, tf))
    else 0.0
  }

  /** The contributions of the kinds from processing position i on. */
  function FromTotal(k: Constants, m: real, p: Profile, i: nat, ti: real, tf: real): real
    decreases Count(p) - i
  {
    if i >= Count(p) then 0.0 else Contribution(k, m, p, KindOfRank(i), ti, tf) + FromTotal(k, m, p, i + 1, ti, tf)
  }

  /** The stage of one kind, when built, contributes exactly its energy. */
  lemma PieceSum(k: Constants, m: real, p: Profile, kind: StageKind, ti: real, tf: real)
    requires Realize(k, m, Piece(p, kind, ti, tf)).Success?
    ensures Sum(Realize(k, m, Piece(p, kind, ti, tf)).value) == Contribution(k, m, p, kind, ti, tf)
  {
    var piece := Piece(p, kind, ti, tf);
    RealizeShape(k, m, piece);
    if Occurs(p, kind, ti, tf) {
      var st := Realize(k, m, piece).value;
      assert st == [st[0]];
      SingleSum(st[0]);
    }
  }

  /** The stages from position i on sum to the contributions from position i on. */
  lemma {:induction false} FromSum(k: Constants, m: real, p: Profile, i: nat, ti: real, tf: real)
    requires Realize(k, m, From(p, i, ti, tf)).Success?
    ensures Sum(Realize(k, m, From(p, i, ti, tf)).value) == FromTotal(k, m, p, i, ti, tf)
    decreases Count(p) - i
  {
    if i < Count(p) {
      var piece := Piece(p, KindOfRank(i), ti, tf);
      var rest := From(p, i + 1, ti, tf);
      RealizeAppend(k, m, piece, rest);
      FromSum(k, m, p, i + 1, ti, tf);
      PieceSum(k, m, p, KindOfRank(i), ti, tf);
      SumAppend(Realize(k, m, piece).value, Realize(k, m, rest).value);
    }
  }

  /** For heating, raising the final temperature keeps every kind that
      occurred, keeps its start and latent point, and moves its end up. */
  lemma RangeGrows(p: Profile, kind: StageKind, ti: real, tf1: real, tf2: real)
    requires ti <= tf1 <= tf2 && Occurs(p, kind, ti, tf1)
    ensures Occurs(p, kind, ti, tf2)
    ensures RangeOf(p, kind, ti, tf1).At? ==> RangeOf(p, kind, ti, tf2) == RangeOf(p, kind, ti, tf1)
    ensures RangeOf(p, kind, ti, tf1).Span? ==>
              RangeOf(p, kind, ti, tf2).Span? &&
              RangeOf(p, kind, ti, tf2).from == RangeOf(p, kind, ti, tf1).from &&
              RangeOf(p, kind, ti, tf1).to <= RangeOf(p, kind, ti, tf2).to
  {
  }

  lemma ScaleMonotone(x: real, a: real, b: real)
    requires x >= 0.0 && a <= b
    ensures x * a <= x * b
  {
    ProductNonNegative(x, b - a);
  }

  /** An energy with non-negative factors grows with the end of its span. */
  lemma EnergyGrows(c: real, m: real, r1: Range, r2: Range)
    requires c >= 0.0 && m >= 0.0
    requires r1.At? ==> r2 == r1
    requires r1.Span? ==> r2.Span? && r2.from == r1.from && r1.to <= r2.to
    ensures Energy(c, m, r1) <= Energy(c, m, r2)
  {
    if r1.Span? {
      ProductNonNegative(m, c);
      ScaleMonotone(m * c, r1.to - r1.from, r2.to - r2.from);
    }
  }

  /** For heating, a kind's contribution does not shrink as the final temperature rises. */
  lemma ContributionMonotone(k: Constants, m: real, p: Profile, kind: StageKind, ti: real, tf1: real, tf2: real)
    requires ti <= tf1 <= tf2 && m >= 0.0 && NonNegativeHeats(k)
    ensures Contribution(k, m, p, kind, ti, tf1) <= Contribution(k, m, p, kind, ti, tf2)
  {
    var f := FieldFor(kind);
    if f in k {
      assert k[f] >= 0.0;
      if Occurs(p, kind, ti, tf1) {
        RangeGrows(p, kind, ti, tf1, tf2);
        EnergyGrows(k[f], m, RangeOf(p, kind, ti, tf1), RangeOf(p, kind, ti, tf2));
      } else if Occurs(p, kind, ti, tf2) {
        ForwardRange(p, kind, ti, tf2);
        EnergyNonNegative(k[f], m, RangeOf(p, kind, ti, tf2));
      }
    }
  }

  lemma {:induction false} FromTotalMonotone(k: Constants, m: real, p: Profile, i: nat, ti: real, tf1: real, tf2: real)
    requires ti <= tf1 <= tf2 && m >= 0.0 && NonNegativeHeats(k)
    ensures FromTotal(k, m, p, i, ti, tf1) <= FromTotal(k, m, p, i, ti, tf2)
    decreases Count(p) - i
  {
    if i < Count(p) {
      ContributionMonotone(k, m, p, KindOfRank(i), ti, tf1, tf2);
      FromTotalMonotone(k, m, p, i + 1, ti, tf1, tf2);
    }
  }

  /** Heating further costs at least as much: with the initial temperature
      fixed, a non-negative mass and non-negative constants, a higher final
      temperature never gives a smaller total. */
  lemma HeatingMonotone(k: Constants, m: real, p: Profile, ti: real, tf1: real, tf2: real)
    requires ti <= tf1 <= tf2 && m >= 0.0 && NonNegativeHeats(k)
    requires Segment(k, m, p, ti, tf1).Success? && Segment(k, m, p, ti, tf2).Success?
    ensures Segment(k, m, p, ti, tf1).value.total <= Segment(k, m, p, ti, tf2).value.total
  {
    FromSum(k, m, p, 0, ti, tf1);
    FromSum(k, m, p, 0, ti, tf2);
    FromTotalMonotone(k, m, p, 0, ti, tf1, tf2);
  }

  /** For heating, lowering the initial temperature keeps every kind that
      occurred, keeps its end and latent point, and moves its start down. */
  lemma RangeGrowsDown(p: Profile, kind: StageKind, ti1: real, ti2: real, tf: real)
    requires ti2 <= ti1 <= tf && Occurs(p, kind, ti1, tf)
    ensures Occurs(p, kind, ti2, tf)
    ensures RangeOf(p, kind, ti1, tf).At? ==> RangeOf(p, kind, ti2, tf) == RangeOf(p, kind, ti1, tf)
    ensures RangeOf(p, kind, ti1, tf).Span? ==>
              RangeOf(p, kind, ti2, tf).Span? &&
              RangeOf(p, kind, ti2, tf).to == RangeOf(p, kind, ti1, tf).to &&
              RangeOf(p, kind, ti2, tf).from <= RangeOf(p, kind, ti1, tf).from
  {
  }

  /** An energy with non-negative factors grows as the start of its span moves down. */
  lemma EnergyGrowsDown(c: real, m: real, r1: Range, r2: Range)
    requires c >= 0.0 && m >= 0.0
    requires r1.At? ==> r2 == r1
    requires r1.Span? ==> r2.Span? && r2.to == r1.to && r2.from <= r1.from
    ensures Energy(c, m, r1) <= Energy(c, m, r2)
  {
    if r1.Span? {
      ProductNonNegative(m, c);
      ScaleMonotone(m * c, r1.to - r1.from, r2.to - r2.from);
    }
  }

  /** For heating, a kind's contribution does not shrink as the initial temperature falls. */
  lemma ContributionMonotoneDown(k: Constants, m: real, p: Profile, kind: StageKind, ti1: real, ti2: real, tf: real)
    requires ti2 <= ti1 <= tf && m >= 0.0 && NonNegativeHeats(k)
    ensures Contribution(k, m, p, kind, ti1, tf) <= Contribution(k, m, p, kind, ti2, tf)
  {
    var f := FieldFor(kind);
    if f in k {
      assert k[f] >= 0.0;
      if Occurs(p, kind, ti1, tf) {
        RangeGrowsDown(p, kind, ti1, ti2, tf);
        EnergyGrowsDown(k[f], m, RangeOf(p, kind, ti1, tf), RangeOf(p, kind, ti2, tf));
      } else if Occurs(p, kind, ti2, tf) {
        ForwardRange(p, kind, ti2, tf);
        EnergyNonNegative(k[f], m, RangeOf(p, kind, ti2, tf));
      }
    }
  }

  lemma {:induction false} FromTotalMonotoneDown(k: Constants, m: real, p: Profile, i: nat, ti1: real, ti2: real, tf: real)
    requires ti2 <= ti1 <= tf && m >= 0.0 && NonNegativeHeats(k)
    ensures FromTotal(k, m, p, i, ti1, tf) <= FromTotal(k, m, p, i, ti2, tf)
    decreases Count(p) - i
  {
    if i < Count(p) {
      ContributionMonotoneDown(k, m, p, KindOfRank(i), ti1, ti2, tf);
      FromTotalMonotoneDown(k, m, p, i + 1, ti1, ti2, tf);
    }
  }

  /** Starting colder costs at least as much: with the final temperature
      fixed, a non-negative mass and non-negative constants, a lower initial
      temperature never gives a smaller total. */
  lemma HeatingMonotoneInStart(k: Constants, m: real, p: Profile, ti1: real, ti2: real, tf: real)
    requires ti2 <= ti1 <= tf && m >= 0.0 && NonNegativeHeats(k)
    requires Segment(k, m, p, ti1, tf).Success? && Segment(k, m, p, ti2, tf).Success?
    ensures Segment(k, m, p, ti1, tf).value.total <= Segment(k, m, p, ti2, tf).value.total
  {
    FromSum(k, m, p, 0, ti1, tf);
    FromSum(k, m, p, 0, ti2, tf);
    FromTotalMonotoneDown(k, m, p, 0, ti1, ti2, tf);
  }

  /** Heating over a wider interval costs at least as much: [ti1, tf1] inside
      [ti2, tf2] gives a total no larger than the outer interval's. */
  lemma HeatingMonotoneNested(k: Constants, m: real, p: Profile, ti1: real, tf1: real, ti2: real, tf2: real)
    requires ti2 <= ti1 <= tf1 <= tf2 && m >= 0.0 && NonNegativeHeats(k)
    requires Segment(k, m, p, ti1, tf1).Success? && Segment(k, m, p, ti2, tf2).Success?
    ensures Segment(k, m, p, ti1, tf1).value.total <= Segment(k, m, p, ti2, tf2).value.total
  {
    FromSum(k, m, p, 0, ti1, tf1);
    FromSum(k, m, p, 0, ti2, tf2);
    FromTotalMonotone(k, m, p, 0, ti1, tf1, tf2);
    FromTotalMonotoneDown(k, m, p, 0, ti1, ti2, tf2);
  }
}
