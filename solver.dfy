/** The single-variable solver: Q = m·c·ΔT rearranged for one unknown.
    Each rearrangement first rejects the inputs whose divisor it checks (the
    program raises ValueError there); a divisor it does not check that turns
    out zero ends in the ZeroDivisionError handler. */
module Solver {

  import opened Outcomes

  /** The variable the user asks for. */
  datatype Unknown = Mass | SpecificHeat | FinalTemperature | InitialTemperature

  /** Which guard rejected the inputs. */
  datatype Guard = DeltaTZero | MassOrDeltaTZero | MassOrHeatZero

  /** The three ways a request fails, one per error dialog: no variable
      chosen, a guard's ValueError, or a division by zero. */
  datatype SolveError = NoVariableSelected | ValueError(guard: Guard) | ZeroDivisionError

  /** The numbers typed in the form: heat, mass, specific heat, the two
      temperatures and the temperature change. */
  datatype Inputs = Inputs(q: real, m: real, c: real, ti: real, tf: real, deltaT: real)

  /** m = Q / (c·ΔT); ΔT = 0 is rejected, c = 0 is not checked and divides by zero. */
  function SolveMass(q: real, c: real, deltaT: real): (r: Result<real, SolveError>)
    ensures deltaT == 0.0 ==> r == Failure(ValueError(DeltaTZero))
    ensures deltaT != 0.0 && c == 0.0 ==> r == Failure(ZeroDivisionError)
    ensures r.Success? <==> c != 0.0 && deltaT != 0.0
    ensures r.Success? ==> r.value * c * deltaT == q
  {
    if deltaT == 0.0 then Failure(ValueError(DeltaTZero))
    else if c * deltaT == 0.0 then Failure(ZeroDivisionError)
    else Success(q / (c * deltaT))
  }

  /** c = Q / (m·ΔT); a zero mass or a zero ΔT is rejected. */
  function SolveSpecificHeat(q: real, m: real, deltaT: real): (r: Result<real, SolveError>)
    ensures m == 0.0 || deltaT == 0.0 ==> r == Failure(ValueError(MassOrDeltaTZero))
    ensures r.Success? <==> m != 0.0 && deltaT != 0.0
    ensures r.Success? ==> m * r.value * deltaT == q
  {
    if m == 0.0 || deltaT == 0.0 then Failure(ValueError(MassOrDeltaTZero))
    else Success(q / (m * deltaT))
  }

  /** Tf = Ti + Q / (m·c); a zero mass or a zero specific heat is rejected. */
  function SolveFinalTemperature(q: real, m: real, c: real, ti: real): (r: Result<real, SolveError>)
    ensures m == 0.0 || c == 0.0 ==> r == Failure(ValueError(MassOrHeatZero))
    ensures r.Success? <==> m != 0.0 && c != 0.0
    ensures r.Success? ==> m * c * (r.value - ti) == q
  {
    if m == 0.0 || c == 0.0 then Failure(ValueError(MassOrHeatZero))
    else Success(ti + q / (m * c))
  }

  /** Ti = Tf − Q / (m·c); the same guard as for the final temperature. */
  function SolveInitialTemperature(q: real, m: real, c: real, tf: real): (r: Result<real, SolveError>)
    ensures m == 0.0 || c == 0.0 ==> r == Failure(ValueError(MassOrHeatZero))
    ensures r.Success? <==> m != 0.0 && c != 0.0
    ensures r.Success? ==> m * c * (tf - r.value) == q
  {
    if m == 0.0 || c == 0.0 then Failure(ValueError(MassOrHeatZero))
    else Success(tf - q / (m * c))
  }

  /** The solve button: nothing selected is reported before any input is
      read; otherwise the chosen rearrangement runs on the fields it needs. */
  function Solve(selected: Option<Unknown>, x: Inputs): (r: Result<real, SolveError>)
    ensures selected.None? <==> r == Failure(NoVariableSelected)
    ensures selected == Some(Mass) ==> r == SolveMass(x.q, x.c, x.deltaT)
    ensures selected == Some(SpecificHeat) ==> r == SolveSpecificHeat(x.q, x.m, x.deltaT)
    ensures selected == Some(FinalTemperature) ==> r == SolveFinalTemperature(x.q, x.m, x.c, x.ti)
    ensures selected == Some(InitialTemperature) ==> r == SolveInitialTemperature(x.q, x.m, x.c, x.tf)
  {
    match selected
    case None => Failure(NoVariableSelected)
    case Some(Mass) => SolveMass(x.q, x.c, x.deltaT)
    case Some(SpecificHeat) => SolveSpecificHeat(x.q, x.m, x.deltaT)
    case Some(FinalTemperature) => SolveFinalTemperature(x.q, x.m, x.c, x.ti)
    case Some(InitialTemperature) => SolveInitialTemperature(x.q, x.m, x.c, x.tf)
  }

  /** Any value satisfying the equation is the one the mass solver returns. */
  lemma MassUnique(q: real, c: real, deltaT: real, m: real)
    requires c != 0.0 && deltaT != 0.0 && m * c * deltaT == q
    ensures SolveMass(q, c, deltaT) == Success(m)
  {
    var r := SolveMass(q, c, deltaT).value;
    assert r * (c * deltaT) == m * (c * deltaT);
    CancelNonZero(r, m, c * deltaT);
  }

  /** Any value satisfying the equation is the one the specific-heat solver returns. */
  lemma SpecificHeatUnique(q: real, m: real, deltaT: real, c: real)
    requires m != 0.0 && deltaT != 0.0 && m * c * deltaT == q
    ensures SolveSpecificHeat(q, m, deltaT) == Success(c)
  {
    var r := SolveSpecificHeat(q, m, deltaT).value;
    assert r * (m * deltaT) == c * (m * deltaT);
    CancelNonZero(r, c, m * deltaT);
  }

  /** Tf = Ti + Q/(m·c) with Q = 0 leaves the temperature unchanged. */
  lemma NoHeatNoChange(m: real, c: real, ti: real)
    requires m != 0.0 && c != 0.0
    ensures SolveFinalTemperature(0.0, m, c, ti) == Success(ti)
    ensures SolveInitialTemperature(0.0, m, c, ti) == Success(ti)
  {
  }

  /** The temperature solvers undo each other: solving for Tf from Ti and then
      for Ti from that Tf, with the same Q, m and c, gives back Ti, and the
      other way round. */
  lemma TemperatureSolversInverse(q: real, m: real, c: real, t: real)
    requires m != 0.0 && c != 0.0
    ensures SolveInitialTemperature(q, m, c, SolveFinalTemperature(q, m, c, t).value) == Success(t)
    ensures SolveFinalTemperature(q, m, c, SolveInitialTemperature(q, m, c, t).value) == Success(t)
  {
  }

  /** Products cancel a non-zero factor. */
  lemma CancelNonZero(a: real, b: real, d: real)
    requires d != 0.0 && a * d == b * d
    ensures a == b
  {
    assert (a - b) * d == 0.0;
  }
}
