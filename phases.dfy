/** Which stages a process passes through, stated per stage kind: whether the
    kind occurs for the interval [ti, tf] and over which temperatures. Water
    uses the fixed boundaries 0 and 100; any other material uses its melting
    point from the table and has no gas phase. */
module Phases {

  import opened Outcomes
  import opened Materials
  import opened Stages

  /** The boundaries the water path hard-codes. */
  const Freezing: real := 0.0
  const Boiling: real := 100.0

  /** How a material is segmented: water with all five phases, or a
      solid/liquid material melting at tm. */
  datatype Profile = WaterPhases | MeltingAt(tm: real)

  /** How many of the kinds (in processing order) the profile considers. */
  function Count(p: Profile): nat {
    if p.WaterPhases? then 5 else 3
  }

  /** Whether a stage of this kind occurs between ti and tf. */
  predicate Occurs(p: Profile, kind: StageKind, ti: real, tf: real): (b: bool)
    ensures b ==> Rank(kind) < Count(p)
    ensures b && IsLatent(kind) ==> ti < tf
  {
    match p
    case WaterPhases =>
      (match kind
       case HeatSolid => ti < Freezing
       case Melt => ti <= Freezing < tf
       case HeatLiquid => Max(Freezing, ti) < Min(Boiling, tf)
       case Vaporize => ti < Boiling < tf
       case HeatGas => tf > Boiling)
    case MeltingAt(tm) =>
      (match kind
       case HeatSolid => ti < tm && tf > ti
       case Melt => ti <= tm < tf
       case HeatLiquid => tf > tm
       case Vaporize => false
       case HeatGas => false)
  }

  /** The temperatures a stage covers: the interval clamped to its phase. */
  function RangeOf(p: Profile, kind: StageKind, ti: real, tf: real): (r: Range)
    ensures Rank(kind) < Count(p) ==> (r.At? <==> IsLatent(kind))
    ensures Occurs(p, kind, ti, tf) && ti <= tf && r.Span? ==> ti <= r.from <= r.to <= tf
    ensures Occurs(p, kind, ti, tf) && tf < ti && r.Span? ==> r == Span(ti, tf)
  {
    match p
    case WaterPhases =>
      (match kind
       case HeatSolid => Span(ti, Min(Freezing, tf))
       case Melt => At(Freezing)
       case HeatLiquid => Span(Max(Freezing, ti), Min(Boiling, tf))
       case Vaporize => At(Boiling)
       case HeatGas => Span(Max(Boiling, ti), tf))
    case MeltingAt(tm) =>
      (match kind
       case HeatSolid => Span(ti, Min(tm, tf))
       case HeatLiquid => Span(Max(tm, ti), tf)
       case _ => At(tm))
  }

  /** The step of one kind, if it occurs. */
  function Piece(p: Profile, kind: StageKind, ti: real, tf: real): seq<Step> {
    if Occurs(p, kind, ti, tf) then [Step(kind, RangeOf(p, kind, ti, tf))] else []
  }

  /** The steps from processing position i on. */
  function From(p: Profile, i: nat, ti: real, tf: real): seq<Step>
    decreases Count(p) - i
  {
    if i >= Count(p) then [] else Piece(p, KindOfRank(i), ti, tf) + From(p, i + 1, ti, tf)
  }

  /** The steps in processing order. */
  function Plan(p: Profile, ti: real, tf: real): seq<Step> {
    From(p, 0, ti, tf)
  }

  /** The result of segmenting [ti, tf] under a profile with the record k. */
  function Segment(k: Constants, m: real, p: Profile, ti: real, tf: real): Result<Heat, Error> {
    Integrated(ti, Realize(k, m, Plan(p, ti, tf)))
  }

  /** Water is recognised by its exact key; any other material needs its melting point. */
  function ProfileOf(material: string, k: Constants): (r: Result<Profile, Error>)
    ensures r.Success? && r.value.WaterPhases? <==> material == WaterKey
    ensures r.Failure? <==> material != WaterKey && TFusion !in k
    ensures r.Failure? ==> r.error == MissingConstant(TFusion)
    ensures r.Success? && r.value.MeltingAt? ==> r.value.tm == k[TFusion]
  {
    if material == WaterKey then Success(WaterPhases)
    else if TFusion !in k then Failure(MissingConstant(TFusion))
    else Success(MeltingAt(k[TFusion]))
  }

  /** The whole computation: look the material up, pick its profile, segment. */
  function TotalHeat(table: Table, material: string, m: real, ti: real, tf: real): (r: Result<Heat, Error>)
    ensures r == Failure(UnknownMaterial(material)) <==> material !in table
    ensures r.Failure? && material in table ==> r.error.MissingConstant?
  {
    if material !in table then Failure(UnknownMaterial(material))
    else
      var pr := ProfileOf(material, table[material]);
      if pr.Failure? then Failure(pr.error)
      else
        // the only other failure is Realize's, which names a missing constant
        RealizeShape(table[material], m, Plan(pr.value, ti, tf));
        Segment(table[material], m, pr.value, ti, tf)
  }

  /** A result's trace has one checkpoint more than it has stages, starts at
      (ti, 0) and ends its energy column at the total. */
  lemma TotalHeatTrace(table: Table, material: string, m: real, ti: real, tf: real)
    requires TotalHeat(table, material, m, ti, tf).Success?
    ensures var h := TotalHeat(table, material, m, ti, tf).value;
            |h.temperatures| == |h.stages| + 1 && |h.energies| == |h.stages| + 1 &&
            h.temperatures[0] == ti && h.energies[0] == 0.0 &&
            h.energies[|h.stages|] == h.total
  {
    var h := TotalHeat(table, material, m, ti, tf).value;
    TraceEnds(ti, h.stages);
  }

  /** Rank is one-to-one. */
  lemma RankInjective(a: StageKind, b: StageKind)
    requires Rank(a) == Rank(b)
    ensures a == b
  {
  }

  /** Each step ranks between lo and the profile's count, occurs, and carries its clamped range. */
  predicate Fit(p: Profile, lo: nat, s: seq<Step>, ti: real, tf: real) {
    forall j :: 0 <= j < |s| ==>
      lo <= Rank(s[j].kind) < Count(p) && Occurs(p, s[j].kind, ti, tf) &&
      s[j].range == RangeOf(p, s[j].kind, ti, tf)
  }

  /** Step kinds appear in strictly increasing processing order. */
  predicate Increasing(s: seq<Step>) {
    forall a, b :: 0 <= a < b < |s| ==> Rank(s[a].kind) < Rank(s[b].kind)
  }

  /** The step of the kind at position i, if any, fits the profile at i. */
  lemma PieceFits(p: Profile, i: nat, ti: real, tf: real)
    requires i < Count(p)
    ensures var x := Piece(p, KindOfRank(i), ti, tf);
            |x| <= 1 && Fit(p, i, x, ti, tf) && forall j :: 0 <= j < |x| ==> Rank(x[j].kind) == i
  {
  }

  /** A step at position i followed by steps after position i fits at i and stays in order. */
  lemma FitJoin(p: Profile, i: nat, x: seq<Step>, rest: seq<Step>, ti: real, tf: real)
    requires |x| <= 1 && Fit(p, i, x, ti, tf) && forall j :: 0 <= j < |x| ==> Rank(x[j].kind) == i
    requires Fit(p, i + 1, rest, ti, tf) && Increasing(rest)
    ensures Fit(p, i, x + rest, ti, tf) && Increasing(x + rest)
  {
    var s := x + rest;
    assert forall j :: |x| <= j < |s| ==> s[j] == rest[j - |x|];
  }

  /** The steps from position i on fit the profile and come in processing order. */
  lemma {:induction false} FromSound(p: Profile, i: nat, ti: real, tf: real)
    ensures Fit(p, i, From(p, i, ti, tf), ti, tf)
    ensures Increasing(From(p, i, ti, tf))
    decreases Count(p) - i
  {
    if i < Count(p) {
      FromSound(p, i + 1, ti, tf);
      PieceFits(p, i, ti, tf);
      FitJoin(p, i, Piece(p, KindOfRank(i), ti, tf), From(p, i + 1, ti, tf), ti, tf);
    }
  }

  /** Every kind at or after position i that occurs is among the steps from i on. */
  lemma {:induction false} FromComplete(p: Profile, i: nat, ti: real, tf: real, kind: StageKind)
    requires i <= Rank(kind) < Count(p) && Occurs(p, kind, ti, tf)
    ensures exists j :: 0 <= j < |From(p, i, ti, tf)| && From(p, i, ti, tf)[j].kind == kind
    decreases Count(p) - i
  {
    var piece := Piece(p, KindOfRank(i), ti, tf);
    var rest := From(p, i + 1, ti, tf);
    var s := piece + rest;
    assert From(p, i, ti, tf) == s;
    if Rank(kind) == i {
      RankInjective(kind, KindOfRank(i));
      assert s[0].kind == kind;
    } else {
      FromComplete(p, i + 1, ti, tf, kind);
      var j :| 0 <= j < |rest| && rest[j].kind == kind;
      assert s[|piece| + j].kind == kind;
    }
  }

  /** The plan fits the profile, comes in processing order, and holds every kind that occurs. */
  lemma PlanShape(p: Profile, ti: real, tf: real)
    ensures Fit(p, 0, Plan(p, ti, tf), ti, tf)
    ensures Increasing(Plan(p, ti, tf))
    ensures forall kind :: Rank(kind) < Count(p) && Occurs(p, kind, ti, tf) ==>
              exists j :: 0 <= j < |Plan(p, ti, tf)| && Plan(p, ti, tf)[j].kind == kind
  {
    FromSound(p, 0, ti, tf);
    forall kind | Rank(kind) < Count(p) && Occurs(p, kind, ti, tf)
      ensures exists j :: 0 <= j < |Plan(p, ti, tf)| && Plan(p, ti, tf)[j].kind == kind
    {
      FromComplete(p, 0, ti, tf, kind);
      assert Plan(p, ti, tf) == From(p, 0, ti, tf);
    }
  }

  /** The computation succeeds exactly when every stage that occurs finds its constant. */
  lemma PlanSucceeds(k: Constants, m: real, p: Profile, ti: real, tf: real)
    ensures Realize(k, m, Plan(p, ti, tf)).Success? <==>
              forall kind :: Rank(kind) < Count(p) && Occurs(p, kind, ti, tf) ==> FieldFor(kind) in k
  {
    PlanShape(p, ti, tf);
    RealizeShape(k, m, Plan(p, ti, tf));
  }

  /** Each stage ranks below the profile's count, occurs, covers its clamped
      range and carries m·c·ΔT or m·L from the record. */
  predicate StagesFit(k: Constants, m: real, p: Profile, st: seq<Stage>, ti: real, tf: real) {
    forall j :: 0 <= j < |st| ==>
      Rank(st[j].kind) < Count(p) && Occurs(p, st[j].kind, ti, tf) &&
      st[j].range == RangeOf(p, st[j].kind, ti, tf) && FieldFor(st[j].kind) in k &&
      st[j].energy == Energy(k[FieldFor(st[j].kind)], m, st[j].range)
  }

  /** Every kind the profile considers that occurs has a stage. */
  predicate Covers(p: Profile, st: seq<Stage>, ti: real, tf: real) {
    forall kind :: Rank(kind) < Count(p) && Occurs(p, kind, ti, tf) ==>
      exists j :: 0 <= j < |st| && st[j].kind == kind
  }

  /** The records built from a fitting plan fit the profile. */
  lemma BuiltFit(k: Constants, m: real, p: Profile, plan: seq<Step>, st: seq<Stage>, ti: real, tf: real)
    requires Fit(p, 0, plan, ti, tf) && Increasing(plan)
    requires |st| == |plan| && forall j :: 0 <= j < |plan| ==> FieldFor(plan[j].kind) in k && st[j] == Build(k, m, plan[j])
    ensures StagesFit(k, m, p, st, ti, tf) && Ordered(st)
  {
  }

  /** The emitted stages: at most one per kind the profile considers, in
      processing order; each one occurs, covers its clamped range and carries
      m·c·ΔT or m·L from the record; and every kind that occurs is emitted. */
  lemma StagesShape(k: Constants, m: real, p: Profile, ti: real, tf: real)
    requires Realize(k, m, Plan(p, ti, tf)).Success?
    ensures var st := Realize(k, m, Plan(p, ti, tf)).value;
            |st| <= Count(p) && Ordered(st) &&
            (forall a, b :: 0 <= a < b < |st| ==> st[a].kind != st[b].kind) &&
            StagesFit(k, m, p, st, ti, tf) && Covers(p, st, ti, tf)
  {
    var st := Realize(k, m, Plan(p, ti, tf)).value;
    StagesFitPlan(k, m, p, ti, tf);
    OrderedBound(st, Count(p));
    StagesCoverPlan(k, m, p, ti, tf);
  }

  /** The emitted stages fit the profile and come in processing order. */
  lemma StagesFitPlan(k: Constants, m: real, p: Profile, ti: real, tf: real)
    requires Realize(k, m, Plan(p, ti, tf)).Success?
    ensures var st := Realize(k, m, Plan(p, ti, tf)).value;
            StagesFit(k, m, p, st, ti, tf) && Ordered(st) &&
            forall i :: 0 <= i < |st| ==> Rank(st[i].kind) < Count(p)
  {
    var plan := Plan(p, ti, tf);
    FromSound(p, 0, ti, tf);
    RealizeShape(k, m, plan);
    BuiltFit(k, m, p, plan, Realize(k, m, plan).value, ti, tf);
  }

  /** Every kind that occurs is among the emitted stages. */
  lemma StagesCoverPlan(k: Constants, m: real, p: Profile, ti: real, tf: real)
    requires Realize(k, m, Plan(p, ti, tf)).Success?
    ensures Covers(p, Realize(k, m, Plan(p, ti, tf)).value, ti, tf)
  {
    var plan := Plan(p, ti, tf);
    RealizeShape(k, m, plan);
    var st := Realize(k, m, plan).value;
    forall kind | Rank(kind) < Count(p) && Occurs(p, kind, ti, tf)
      ensures exists j :: 0 <= j < |st| && st[j].kind == kind
    {
      FromComplete(p, 0, ti, tf, kind);
      var j :| 0 <= j < |plan| && plan[j].kind == kind;
      assert st[j] == Build(k, m, plan[j]);
    }
  }

  /** A solid/liquid material never reaches a vaporisation or vapour stage. */
  lemma NoGasPhase(k: Constants, m: real, tm: real, ti: real, tf: real)
    requires Realize(k, m, Plan(MeltingAt(tm), ti, tf)).Success?
    ensures var st := Realize(k, m, Plan(MeltingAt(tm), ti, tf)).value;
            |st| <= 3 && forall j :: 0 <= j < |st| ==> st[j].kind != Vaporize && st[j].kind != HeatGas
  {
    StagesShape(k, m, MeltingAt(tm), ti, tf);
  }

  /** The water path's literal boundaries are the table's water melting and boiling points. */
  lemma WaterBoundariesMatchTable()
    ensures Default[WaterKey][TFusion] == Freezing && Default[WaterKey][TBoiling] == Boiling
  {
    WaterValues();
  }

  /** The water plan is the five pieces in processing order. */
  lemma WaterPieces(ti: real, tf: real)
    ensures Plan(WaterPhases, ti, tf) ==
              Piece(WaterPhases, HeatSolid, ti, tf) + Piece(WaterPhases, Melt, ti, tf) +
              Piece(WaterPhases, HeatLiquid, ti, tf) + Piece(WaterPhases, Vaporize, ti, tf) +
              Piece(WaterPhases, HeatGas, ti, tf)
  {
    var w := WaterPhases;
    assert From(w, 4, ti, tf) == Piece(w, HeatGas, ti, tf) + [];
    assert From(w, 3, ti, tf) == Piece(w, Vaporize, ti, tf) + From(w, 4, ti, tf);
    assert From(w, 2, ti, tf) == Piece(w, HeatLiquid, ti, tf) + From(w, 3, ti, tf);
    assert From(w, 1, ti, tf) == Piece(w, Melt, ti, tf) + From(w, 2, ti, tf);
    assert From(w, 0, ti, tf) == Piece(w, HeatSolid, ti, tf) + From(w, 1, ti, tf);
  }

  /** The plan of a material melting at tm is its three pieces in processing order. */
  lemma MeltingAtPieces(tm: real, ti: real, tf: real)
    ensures Plan(MeltingAt(tm), ti, tf) ==
              Piece(MeltingAt(tm), HeatSolid, ti, tf) + Piece(MeltingAt(tm), Melt, ti, tf) +
              Piece(MeltingAt(tm), HeatLiquid, ti, tf)
  {
    var g := MeltingAt(tm);
    assert From(g, 2, ti, tf) == Piece(g, HeatLiquid, ti, tf) + [];
    assert From(g, 1, ti, tf) == Piece(g, Melt, ti, tf) + From(g, 2, ti, tf);
    assert From(g, 0, ti, tf) == Piece(g, HeatSolid, ti, tf) + From(g, 1, ti, tf);
  }
}
