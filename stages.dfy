/** Stages of a heating process and the cumulative (temperature, energy)
    trace that the calculator builds from them. */
module Stages {

  import opened Outcomes
  import opened Materials

  /** The five kinds of stage, in the order the calculator considers them. */
  datatype StageKind = HeatSolid | Melt | HeatLiquid | Vaporize | HeatGas

  /** A sensible stage covers a temperature span; a latent stage happens at one temperature. */
  datatype Range = Span(from: real, to: real) | At(point: real)

  /** What the process passes through, before any constant is looked up. */
  datatype Step = Step(kind: StageKind, range: Range)

  /** One emitted stage record: its kind, its energy and its temperature range. */
  datatype Stage = Stage(kind: StageKind, energy: real, range: Range)

  /** KeyError on the material name or on one of the material's constants. */
  datatype Error = UnknownMaterial(name: string) | MissingConstant(field: Field)

  /** What a computation returns: the total energy, the stages in emission
      order, and the two parallel trace sequences. */
  datatype Heat = Heat(total: real, stages: seq<Stage>, temperatures: seq<real>, energies: seq<real>)

  function Max(a: real, b: real): real {
    if a >= b then a else b
  }

  function Min(a: real, b: real): real {
    if a <= b then a else b
  }

  /** Position of a kind in the processing order. */
  function Rank(kind: StageKind): nat {
    match kind
    case HeatSolid => 0
    case Melt => 1
    case HeatLiquid => 2
    case Vaporize => 3
    case HeatGas => 4
  }

  /** The kind at a processing position. */
  function KindOfRank(i: nat): (kind: StageKind)
    requires i < 5
    ensures Rank(kind) == i
  {
    if i == 0 then HeatSolid else if i == 1 then Melt else if i == 2 then HeatLiquid
    else if i == 3 then Vaporize else HeatGas
  }

  predicate IsLatent(kind: StageKind) {
    kind == Melt || kind == Vaporize
  }

  /** The constant a stage of this kind reads: a specific heat or a latent heat. */
  function FieldFor(kind: StageKind): (f: Field)
    ensures !IsTemperature(f)
    ensures f == CSolid <==> kind == HeatSolid
    ensures f == CGas <==> kind == HeatGas
    ensures f == Lv <==> kind == Vaporize
    ensures f == Lf <==> kind == Melt
    ensures f == CLiquid <==> kind == HeatLiquid
  {
    match kind
    case HeatSolid => CSolid
    case Melt => Lf
    case HeatLiquid => CLiquid
    case Vaporize => Lv
    case HeatGas => CGas
  }

  /** The temperature the trace records once the stage is done: the end of
      a span, or the transition temperature. */
  function Checkpoint(r: Range): real {
    match r
    case Span(_, b) => b
    case At(t) => t
  }

  /** Sensible heat m·c·ΔT over a span, latent heat m·L at a point. */
  function Energy(value: real, m: real, r: Range): real {
    match r
    case Span(a, b) => m * value * (b - a)
    case At(_) => m * value
  }

  /** What a stage's energy means: nothing for zero mass, a zero constant or
      an empty span; with positive mass and constant, heat taken in for a
      latent stage or an upward span and heat given off for a downward span. */
  lemma EnergySign(value: real, m: real, r: Range)
    ensures m == 0.0 || value == 0.0 ==> Energy(value, m, r) == 0.0
    ensures r.Span? && r.from == r.to ==> Energy(value, m, r) == 0.0
    ensures m > 0.0 && value > 0.0 ==> (Energy(value, m, r) > 0.0 <==> r.At? || r.from < r.to)
    ensures m > 0.0 && value > 0.0 ==> (Energy(value, m, r) < 0.0 <==> r.Span? && r.to < r.from)
  {
  }

  /** The stage record of a step, given that its constant is present. */
  function Build(k: Constants, m: real, step: Step): Stage
    requires FieldFor(step.kind) in k
  {
    Stage(step.kind, Energy(k[FieldFor(step.kind)], m, step.range), step.range)
  }

  /** Every step of the plan has its constant. */
  predicate AllPresent(k: Constants, plan: seq<Step>) {
    forall i :: 0 <= i < |plan| ==> FieldFor(plan[i].kind) in k
  }

  /** Looks up each step's constant in order and builds its record; the first
      step whose constant is missing raises the KeyError. */
  function Realize(k: Constants, m: real, plan: seq<Step>): Result<seq<Stage>, Error> {
    if plan == [] then Success([])
    else
      var f := FieldFor(plan[0].kind);
      if f !in k then Failure(MissingConstant(f))
      else
        var rest :- Realize(k, m, plan[1..]);
        Success([Build(k, m, plan[0])] + rest)
  }

  /** Realize succeeds exactly when every constant is present, and then builds
      one record per step; otherwise it reports the first missing constant. */
  lemma {:induction false} RealizeShape(k: Constants, m: real, plan: seq<Step>)
    ensures Realize(k, m, plan).Success? <==> AllPresent(k, plan)
    ensures Realize(k, m, plan).Success? ==>
              |Realize(k, m, plan).value| == |plan| &&
              forall i :: 0 <= i < |plan| ==> Realize(k, m, plan).value[i] == Build(k, m, plan[i])
    ensures Realize(k, m, plan).Failure? ==>
              exists i :: 0 <= i < |plan| && FieldFor(plan[i].kind) !in k && AllPresent(k, plan[..i])
                          && Realize(k, m, plan).error == MissingConstant(FieldFor(plan[i].kind))
  {
    if plan != [] {
      var f := FieldFor(plan[0].kind);
      if f !in k {
        assert AllPresent(k, plan[..0]);
      } else {
        var tail := plan[1..];
        RealizeShape(k, m, tail);
        var rest := Realize(k, m, tail);
        if rest.Failure? {
          var i :| 0 <= i < |tail| && FieldFor(tail[i].kind) !in k && AllPresent(k, tail[..i])
                   && rest.error == MissingConstant(FieldFor(tail[i].kind));
          assert tail[..i] == plan[1..i + 1];
          assert AllPresent(k, plan[..i + 1]);
          assert plan[i + 1] == tail[i];
        } else {
          assert forall j :: 1 <= j < |plan| ==> plan[j] == tail[j - 1];
        }
      }
    }
  }

  /** Realising a concatenation realises the first part and then the second. */
  lemma {:induction false} RealizeAppend(k: Constants, m: real, p: seq<Step>, q: seq<Step>)
    ensures Realize(k, m, p + q) ==
              if Realize(k, m, p).Failure? then Realize(k, m, p)
              else if Realize(k, m, q).Failure? then Realize(k, m, q)
              else Success(Realize(k, m, p).value + Realize(k, m, q).value)
  {
    if p == [] {
      assert p + q == q;
      if Realize(k, m, q).Success? {
        assert [] + Realize(k, m, q).value == Realize(k, m, q).value;
      }
    } else {
      var pq := p + q;
      assert pq[0] == p[0];
      assert pq[1..] == p[1..] + q;
      if FieldFor(p[0].kind) in k {
        RealizeAppend(k, m, p[1..], q);
        var tail, rq := Realize(k, m, p[1..]), Realize(k, m, q);
        if tail.Success? && rq.Success? {
          var b := Build(k, m, p[0]);
          assert [b] + (tail.value + rq.value) == ([b] + tail.value) + rq.value;
        }
      }
    }
  }

  /** The sum of the stage energies, accumulated in emission order. */
  function Sum(stages: seq<Stage>): real {
    if stages == [] then 0.0 else Sum(stages[..|stages| - 1]) + stages[|stages| - 1].energy
  }

  /** The sum of two consecutive runs of stages is the sum of their sums. */
  lemma {:induction false} SumAppend(a: seq<Stage>, b: seq<Stage>)
    ensures Sum(a + b) == Sum(a) + Sum(b)
    decreases |b|
  {
    if b == [] {
      assert a + b == a;
    } else {
      var n := |b| - 1;
      assert (a + b)[..|a + b| - 1] == a + b[..n];
      assert (a + b)[|a + b| - 1] == b[n];
      SumAppend(a, b[..n]);
    }
  }

  /** The temperature trace: the initial temperature, then one checkpoint per stage. */
  function Temperatures(ti: real, stages: seq<Stage>): seq<real> {
    if stages == [] then [ti]
    else Temperatures(ti, stages[..|stages| - 1]) + [Checkpoint(stages[|stages| - 1].range)]
  }

  /** The energy trace: 0, then the running total after each stage. */
  function Energies(stages: seq<Stage>): seq<real> {
    if stages == [] then [0.0]
    else Energies(stages[..|stages| - 1]) + [Sum(stages)]
  }

  /** The result of a computation that emitted these stages from temperature ti. */
  function Integrate(ti: real, stages: seq<Stage>): Heat {
    Heat(Sum(stages), stages, Temperatures(ti, stages), Energies(stages))
  }

  /** The trace starts at (ti, 0), has one checkpoint per stage besides the
      first, and its last energy is the total. */
  lemma {:induction false} TraceEnds(ti: real, stages: seq<Stage>)
    ensures |Temperatures(ti, stages)| == |stages| + 1 && |Energies(stages)| == |stages| + 1
    ensures Temperatures(ti, stages)[0] == ti && Energies(stages)[0] == 0.0
    ensures Energies(stages)[|stages|] == Sum(stages)
  {
    if stages != [] {
      TraceEnds(ti, stages[..|stages| - 1]);
    }
  }

  /** Each stage appends its checkpoint temperature and adds its energy to the running total. */
  lemma {:induction false} TraceSteps(ti: real, stages: seq<Stage>)
    ensures |Temperatures(ti, stages)| == |stages| + 1 && |Energies(stages)| == |stages| + 1
    ensures forall i :: 0 <= i < |stages| ==> Temperatures(ti, stages)[i + 1] == Checkpoint(stages[i].range)
    ensures forall i :: 0 <= i < |stages| ==> Energies(stages)[i + 1] == Energies(stages)[i] + stages[i].energy
  {
    TraceEnds(ti, stages);
    if stages != [] {
      var n := |stages| - 1;
      var init := stages[..n];
      TraceSteps(ti, init);
      TraceEnds(ti, init);
      assert Temperatures(ti, stages) == Temperatures(ti, init) + [Checkpoint(stages[n].range)];
      assert Energies(stages) == Energies(init) + [Sum(stages)];
      assert forall i :: 0 <= i < n ==> stages[i] == init[i];
    }
  }

  /** The energy after the first i stages is the sum of their energies. */
  lemma {:induction false} PartialSums(stages: seq<Stage>)
    ensures |Energies(stages)| == |stages| + 1
    ensures forall i :: 0 <= i <= |stages| ==> Energies(stages)[i] == Sum(stages[..i])
  {
    TraceEnds(0.0, stages);
    if stages != [] {
      var n := |stages| - 1;
      var init := stages[..n];
      PartialSums(init);
      TraceEnds(0.0, init);
      assert Energies(stages) == Energies(init) + [Sum(stages)];
      assert stages[..|stages|] == stages;
      assert forall i :: 0 <= i <= n ==> stages[..i] == init[..i];
    }
  }

  /** Emitting one more stage extends the trace of the stages before it. */
  lemma IntegrateSnoc(ti: real, stages: seq<Stage>, st: Stage)
    ensures Integrate(ti, stages + [st]) == Emit(Integrate(ti, stages), st)
  {
    assert (stages + [st])[..|stages|] == stages;
  }

  /** The state before the first stage: no stage, a zero total, and the trace at (ti, 0). */
  function Start(ti: real): (h: Heat)
    ensures h == Integrate(ti, [])
  {
    Heat(0.0, [], [ti], [0.0])
  }

  /** The three effects of emitting a stage: its record is appended, its
      energy is added to the total, and its checkpoint temperature and the new
      total are appended to the trace. */
  function Emit(acc: Heat, st: Stage): Heat {
    var total := acc.total + st.energy;
    Heat(total, acc.stages + [st], acc.temperatures + [Checkpoint(st.range)], acc.energies + [total])
  }

  /** Walks a plan from a state: each step looks its constant up (the first
      missing one aborts the computation) and emits its stage. */
  function Run(k: Constants, m: real, acc: Heat, plan: seq<Step>): Result<Heat, Error>
    decreases |plan|
  {
    if plan == [] then Success(acc)
    else
      var f := FieldFor(plan[0].kind);
      if f !in k then Failure(MissingConstant(f))
      else Run(k, m, Emit(acc, Build(k, m, plan[0])), plan[1..])
  }

  /** Walking a single step. */
  lemma RunSingle(k: Constants, m: real, acc: Heat, step: Step)
    ensures Run(k, m, acc, [step]) ==
              if FieldFor(step.kind) !in k then Failure(MissingConstant(FieldFor(step.kind)))
              else Success(Emit(acc, Build(k, m, step)))
  {
    assert [step][1..] == [];
  }

  /** Walking a concatenation walks the first part, then the second from where the first ended. */
  lemma {:induction false} RunAppend(k: Constants, m: real, acc: Heat, p: seq<Step>, q: seq<Step>)
    ensures Run(k, m, acc, p + q) ==
              if Run(k, m, acc, p).Failure? then Run(k, m, acc, p) else Run(k, m, Run(k, m, acc, p).value, q)
    decreases |p|
  {
    if p == [] {
      assert p + q == q;
    } else {
      assert (p + q)[0] == p[0];
      assert (p + q)[1..] == p[1..] + q;
      if FieldFor(p[0].kind) in k {
        RunAppend(k, m, Emit(acc, Build(k, m, p[0])), p[1..], q);
      }
    }
  }

  /** Walking a plan from the trace of some stages gives the trace of those
      stages followed by the plan's records, or the plan's first missing constant. */
  lemma {:induction false} RunRealize(k: Constants, m: real, ti: real, stages: seq<Stage>, plan: seq<Step>)
    ensures Run(k, m, Integrate(ti, stages), plan) ==
              match Realize(k, m, plan)
              case Success(more) => Success(Integrate(ti, stages + more))
              case Failure(e) => Failure(e)
    decreases |plan|
  {
    if plan == [] {
      assert stages + [] == stages;
    } else if FieldFor(plan[0].kind) in k {
      var b := Build(k, m, plan[0]);
      IntegrateSnoc(ti, stages, b);
      RunRealize(k, m, ti, stages + [b], plan[1..]);
      var tail := Realize(k, m, plan[1..]);
      if tail.Success? {
        assert stages + ([b] + tail.value) == (stages + [b]) + tail.value;
      }
    }
  }

  /** Walking a plan from the start gives the trace of its records. */
  lemma RunFromStart(k: Constants, m: real, ti: real, plan: seq<Step>)
    ensures Run(k, m, Start(ti), plan) == Integrated(ti, Realize(k, m, plan))
  {
    RunRealize(k, m, ti, [], plan);
    var r := Realize(k, m, plan);
    if r.Success? {
      assert [] + r.value == r.value;
    }
  }

  /** The trace of a computation that may have failed. */
  function Integrated(ti: real, r: Result<seq<Stage>, Error>): (h: Result<Heat, Error>)
    ensures h.Success? <==> r.Success?
    ensures r.Failure? ==> h.error == r.error
    ensures r.Success? ==> h.value == Integrate(ti, r.value)
  {
    match r
    case Success(stages) => Success(Integrate(ti, stages))
    case Failure(e) => Failure(e)
  }

  /** Kinds appear in strictly increasing processing order. */
  predicate Ordered(stages: seq<Stage>) {
    forall i, j :: 0 <= i < j < |stages| ==> Rank(stages[i].kind) < Rank(stages[j].kind)
  }

  /** A strictly ordered list whose kinds all rank below n has at most n entries;
      in particular each kind appears at most once. */
  lemma {:induction false} OrderedBound(stages: seq<Stage>, n: nat)
    requires Ordered(stages)
    requires forall i :: 0 <= i < |stages| ==> Rank(stages[i].kind) < n
    ensures |stages| <= n
    ensures forall i, j :: 0 <= i < j < |stages| ==> stages[i].kind != stages[j].kind
  {
    if stages != [] {
      var last := |stages| - 1;
      var init := stages[..last];
      assert forall i :: 0 <= i < |init| ==> Rank(init[i].kind) < Rank(stages[last].kind);
      OrderedBound(init, Rank(stages[last].kind));
    }
  }
}
