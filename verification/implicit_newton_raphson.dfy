/** `ImplicitNewtonRaphson`: the older implicit Newmark integrator. What is
    modelled is its controller: the defaults, the checks `Solve` makes, the
    predictor, the Newton loop with its line search, the snapping of the last
    step to the end time, the growth and cut-back of the time step, and the
    energy bookkeeping. Forces, mass matrices and the linear solve come from
    the structure and are parameters. */
module ImplicitNewtonRaphson {
  import opened Wrappers
  import opened ConstitutiveIO
  import opened LineSearch
  import NewmarkDirect

  /** The integrator's settings and energies. */
  datatype Integrator = Integrator(
    muDampingMass: real, toleranceForce: real, maxNumIterations: nat, minLineSearchStep: real,
    beta: real, gamma: real,
    internalEnergy: real, externalEnergy: real, kineticEnergy: real, dampedEnergy: real)

  /** The constructor. */
  function Create(): (r: Integrator)
    ensures r.toleranceForce == 1.0e-6 && r.maxNumIterations == 20 && r.minLineSearchStep == 0.01
    ensures r.beta == 0.25 && r.gamma == 0.5 && r.muDampingMass == 0.0
    ensures r.internalEnergy == 0.0 && r.externalEnergy == 0.0 && r.kineticEnergy == 0.0 && r.dampedEnergy == 0.0
  {
    Integrator(0.0, 1.0e-6, 20, 0.01, 0.25, 0.5, 0.0, 0.0, 0.0, 0.0)
  }

  /** With the default minimum step of 0.01 a line search makes at most
      seven trials (alpha = 1, 1/2, ..., 1/64). */
  lemma {:induction false} DefaultLineSearchTrials(trialNorm: real -> real, residualNorm: real)
    ensures Search(trialNorm, residualNorm, Create().minLineSearchStep, true, 0).trials <= 7
  {
    assert Pow2(7) == 128;
    TrialsBounded(trialNorm, residualNorm, Create().minLineSearchStep, true, 7);
  }

  // ---------------------------------------------------------------------
  // Checks made by `Solve`

  /** `Solve` refuses a maximum time step of zero. */
  function CheckMaxTimeStep(maxTimeStep: real): (r: Result<()>)
    ensures r.Success? <==> maxTimeStep != 0.0
  {
    if maxTimeStep == 0.0 then Failure("max time step is set to zero.") else Success(())
  }

  /** In the dynamic case the damping may not make the factor of the mass
      matrix non-positive. */
  function CheckMassFactor(dynamic: bool, gamma: real, mu: real, timeStep: real): (r: Result<()>)
    ensures r.Success? <==> !dynamic || 1.0 - gamma * mu * timeStep > 0.0
  {
    if dynamic && 1.0 - gamma * mu * timeStep <= 0.0 then
      Failure("Factor for the mass matrix is negative - reduce your time step.")
    else Success(())
  }

  /** The Euclidean norm of v exceeds the tolerance (compared squared, so no
      square root is needed). */
  predicate NormExceeds(v: seq<real>, tolerance: real) {
    tolerance < 0.0 || Dot(v, v) > tolerance * tolerance
  }

  /** The initial equilibrium check as written, without constraints: the norm
      taken is that of `residual_j`, which at that point is still the empty
      matrix it was declared as, not the residual `prevResidual_j` that was
      just computed. */
  function CheckInitialEquilibriumAsWritten(prevResidual: seq<real>, tolerance: real): (r: Result<()>)
    ensures r.Success? <==> !NormExceeds([], tolerance)
  {
    var residualMod: seq<real> := [];
    if NormExceeds(residualMod, tolerance) then Failure("Initial configuration is not in (dynamic) equilibrium.")
    else Success(())
  }

  /** As written the check passes for a residual of any size. */
  lemma {:induction false} AsWrittenIgnoresInitialResidual()
    ensures NormExceeds([1.0], Create().toleranceForce)
    ensures CheckInitialEquilibriumAsWritten([1.0], Create().toleranceForce).Success?
  {
    assert Dot([1.0], [1.0]) == 1.0 by {
      assert [1.0][..0] == [];
    }
    assert Dot([], []) == 0.0;
  }

  /** The initial equilibrium check on the residual that was computed: the
      initial configuration fails when that residual's norm exceeds the
      tolerance. */
  function CheckInitialEquilibrium(prevResidual: seq<real>, tolerance: real): (r: Result<()>)
    ensures r.Success? <==> !NormExceeds(prevResidual, tolerance)
    ensures tolerance >= 0.0 && r.Success? ==> Dot(prevResidual, prevResidual) <= tolerance * tolerance
  {
    if NormExceeds(prevResidual, tolerance) then Failure("Initial configuration is not in (dynamic) equilibrium.")
    else Success(())
  }

  /** Both checks agree on an equilibrium residual of zeros. */
  lemma {:induction false} ZeroResidualPasses(n: nat, tolerance: real)
    requires tolerance >= 0.0
    ensures CheckInitialEquilibrium(Zeros(n), tolerance).Success?
    ensures CheckInitialEquilibriumAsWritten(Zeros(n), tolerance).Success?
  {
    DotZeros(n);
  }

  lemma {:induction false} DotZeros(n: nat)
    ensures Dot(Zeros(n), Zeros(n)) == 0.0
  {
    if n > 0 {
      assert Zeros(n)[..n - 1] == Zeros(n - 1);
      DotZeros(n - 1);
    }
  }

  // ---------------------------------------------------------------------
  // Predictor

  /** The start of each step (one dof): the acceleration and velocity the
      Newmark updates give before any displacement increment. */
  function Predictor(beta: real, gamma: real, h: real, v: real, a: real): (r: (real, real))
    requires beta != 0.0 && h != 0.0
  {
    var acc := (v + a * (h * (0.5 - beta))) * (-1.0 / (h * beta));
    (acc, v + a * ((1.0 - gamma) * h) + acc * (gamma * h))
  }

  /** The predictor is `NewmarkDirect`'s `CalculateDof2` and `CalculateDof1`
      with a zero displacement increment: both integrators start each step
      on the same Newmark state. */
  lemma {:induction false} PredictorIsNewmark(beta: real, gamma: real, h: real, v: real, a: real)
    requires beta != 0.0 && h != 0.0
    ensures Predictor(beta, gamma, h, v, a).0 == NewmarkDirect.AccelerationOf(beta, h, 0.0, v, a)
    ensures Predictor(beta, gamma, h, v, a).1 == NewmarkDirect.VelocityOf(beta, gamma, h, 0.0, v, a)
  {
    var acc := Predictor(beta, gamma, h, v, a).0;
    assert acc == -(v / (h * beta)) - a * ((0.5 - beta) / beta) by {
      assert (v + a * (h * (0.5 - beta))) * (-1.0 / (h * beta)) == -(v / (h * beta)) - (a * (h * (0.5 - beta))) / (h * beta);
      assert (a * (h * (0.5 - beta))) / (h * beta) == a * ((0.5 - beta) / beta);
    }
    NewmarkDirect.VelocityUpdate(beta, gamma, h, 0.0, v, a);
  }

  // ---------------------------------------------------------------------
  // Newton iteration

  /** The Newton loop from iteration i on: while the residual norm exceeds
      the tolerance and the budget lasts, a line search from alpha = 1; a
      failed line search ends the loop with the iteration count set to the
      maximum. `trialNorms(i)` gives iteration i's residual norm for a step
      of length alpha. */
  function Iterate(trialNorms: nat -> real -> real, norm: real, tolerance: real, maxIterations: nat, minStep: real, i: nat): (r: (nat, real))
    requires minStep > 0.0 && i <= maxIterations
    ensures i <= r.0 <= maxIterations
    ensures r.1 <= tolerance || r.0 == maxIterations
    ensures norm <= tolerance ==> r == (i, norm)
    ensures 0.0 <= norm && NewmarkDirect.NonNegative(trialNorms) ==> 0.0 <= r.1 <= norm
    decreases maxIterations - i
  {
    if norm > tolerance && i < maxIterations then
      var o := Search(trialNorms(i), norm, minStep, true, 0);
      if Accepted(o, minStep, true) then
        assert 0.0 <= norm ==> o.trialNorm <= norm by {
          if 0.0 <= norm {
            AcceptedTrialNoLarger(trialNorms(i), norm, minStep);
          }
        }
        Iterate(trialNorms, o.trialNorm, tolerance, maxIterations, minStep, i + 1)
      else
        (maxIterations, norm)
    else
      (i, norm)
  }

  /** An accepted line search never ends on a larger residual norm. */
  lemma {:induction false} AcceptedTrialNoLarger(trialNorm: real -> real, norm: real, minStep: real)
    requires minStep > 0.0 && 0.0 <= norm
    ensures var o := Search(trialNorm, norm, minStep, true, 0);
      Accepted(o, minStep, true) ==> o.trialNorm <= norm
  {
    var o := Search(trialNorm, norm, minStep, true, 0);
    AcceptedMeansDecrease(trialNorm, norm, minStep);
    if Accepted(o, minStep, true) {
      ShrunkNoLarger(o.trialNorm, Alpha(o.trials), norm);
    }
  }

  lemma {:induction false} ShrunkNoLarger(x: real, alpha: real, norm: real)
    requires 0.0 < alpha <= 1.0 && 0.0 <= norm && x <= (1.0 - alpha) * norm
    ensures x <= norm
  {
    var an := alpha * norm;
    assert an >= 0.0;
    assert (1.0 - alpha) * norm == norm - an;
  }

  /** A line search that cannot reach the sufficient decrease ends the
      Newton loop at once: the step counts as unconverged. */
  lemma {:induction false} FailedLineSearchEndsLoop(trialNorms: nat -> real -> real, norm: real, tolerance: real, maxIterations: nat, minStep: real)
    requires minStep > 0.0 && maxIterations > 0 && norm > tolerance
    ensures !Accepted(Search(trialNorms(0), norm, minStep, true, 0), minStep, true) ==>
      Iterate(trialNorms, norm, tolerance, maxIterations, minStep, 0) == (maxIterations, norm)
      && !Converged(Iterate(trialNorms, norm, tolerance, maxIterations, minStep, 0).1, tolerance)
  {
  }

  /** Convergence as `Solve` decides it after the loop. */
  predicate Converged(norm: real, tolerance: real) {
    norm <= tolerance
  }

  // ---------------------------------------------------------------------
  // Time-step control

  /** The current time and the time step. */
  datatype Clock = Clock(time: real, step: real)

  /** Advancing the time. With automatic stepping, when less than half a
      step would remain to the end time, the step is stretched or shrunk so
      that the time lands on the end time exactly. */
  function Advance(c: Clock, endTime: real, automatic: bool): (r: Clock)
    ensures r.time - c.time == r.step
    ensures automatic && endTime - (c.time + c.step) < 0.5 * c.step ==> r.time == endTime
    ensures !(automatic && endTime - (c.time + c.step) < 0.5 * c.step) ==> r == Clock(c.time + c.step, c.step)
  {
    var time := c.time + c.step;
    if automatic && endTime - time < 0.5 * c.step then Clock(endTime, c.step + (endTime - time))
    else Clock(time, c.step)
  }

  /** With automatic stepping the time never passes the end time and the
      step stays positive. */
  lemma {:induction false} AdvanceStaysWithinEnd(c: Clock, endTime: real)
    requires c.time < endTime && c.step > 0.0
    ensures Advance(c, endTime, true).time <= endTime
    ensures Advance(c, endTime, true).step > 0.0
  {
  }

  /** After the Newton loop: a converged step keeps its time and, if it took
      fewer than a quarter of the allowed iterations, grows the step by 1.5
      up to the maximum time step; an unconverged one goes back by the step
      and halves it with automatic stepping, and fails otherwise. */
  function AfterIteration(c: Clock, automatic: bool, maxIterations: nat, maxTimeStep: real,
                          iterations: nat, norm: real, tolerance: real): (r: Result<Clock>)
    ensures r.Failure? <==> !Converged(norm, tolerance) && !automatic
    ensures Converged(norm, tolerance) ==> r.value.time == c.time
    ensures Converged(norm, tolerance) && (iterations as real) < 0.25 * (maxIterations as real) ==>
      r.value.step == if 1.5 * c.step > maxTimeStep then maxTimeStep else 1.5 * c.step
    ensures Converged(norm, tolerance) && !((iterations as real) < 0.25 * (maxIterations as real)) ==> r.value.step == c.step
    ensures !Converged(norm, tolerance) && automatic ==> r.value == Clock(c.time - c.step, c.step * 0.5)
  {
    if Converged(norm, tolerance) then
      if (iterations as real) < 0.25 * (maxIterations as real) then
        var grown := c.step * 1.5;
        Success(Clock(c.time, if grown > maxTimeStep then maxTimeStep else grown))
      else Success(c)
    else if automatic then Success(Clock(c.time - c.step, c.step * 0.5))
    else Failure("no convergence with the current maximum number of iterations, either use automatic time stepping, "
      + "reduce the time step or the minimal line search cut back factor.")
  }

  /** A step that does not converge is retried from the time it started at,
      even when the advance had been stretched to the end time. */
  lemma {:induction false} RollbackReturnsToStart(c: Clock, endTime: real, maxIterations: nat, maxTimeStep: real,
                               iterations: nat, norm: real, tolerance: real)
    requires !Converged(norm, tolerance)
    ensures var a := Advance(c, endTime, true);
      var r := AfterIteration(a, true, maxIterations, maxTimeStep, iterations, norm, tolerance);
      r.Success? && r.value.time == c.time && r.value.step == a.step / 2.0
  {
  }

  /** The step never grows beyond the maximum time step. */
  lemma {:induction false} GrowthCapped(c: Clock, automatic: bool, maxIterations: nat, maxTimeStep: real, iterations: nat, norm: real, tolerance: real)
    requires c.step <= maxTimeStep && Converged(norm, tolerance)
    ensures AfterIteration(c, automatic, maxIterations, maxTimeStep, iterations, norm, tolerance).value.step <= maxTimeStep
  {
  }

  // ---------------------------------------------------------------------
  // Energies

  datatype Energies = Energies(internal: real, kinetic: real, damped: real, external: real)

  function EnergiesOf(s: Integrator): Energies {
    Energies(s.internalEnergy, s.kineticEnergy, s.dampedEnergy, s.externalEnergy)
  }

  /** The total energy reported. */
  function TotalEnergy(e: Energies): real {
    e.internal + e.kinetic + e.damped - e.external
  }

  /** The row appended to the energy history after a converged step. */
  function EnergyRow(e: Energies): (r: seq<real>)
    ensures |r| == 5 && r[..4] == [e.internal, e.kinetic, e.damped, e.external]
    ensures r[4] == r[0] + r[1] + r[2] - r[3]
  {
    [e.internal, e.kinetic, e.damped, e.external, TotalEnergy(e)]
  }

  /** The first row of the energy history, filled entry by entry on a row of
      zeros. */
  function InitialRow(internal: real, kinetic: real, dynamic: bool): seq<real> {
    var row := [0.0, 0.0, 0.0, 0.0, 0.0][0 := internal][4 := internal];
    if dynamic then row[1 := kinetic][2 := 0.0][3 := 0.0][4 := row[4] + kinetic] else row
  }

  /** The first row follows the same pattern as the later rows. */
  lemma {:induction false} InitialRowIsEnergyRow(internal: real, kinetic: real, dynamic: bool)
    ensures InitialRow(internal, kinetic, dynamic) == EnergyRow(Energies(internal, if dynamic then kinetic else 0.0, 0.0, 0.0))
  {
  }

  /** The trapezoidal work of a force over a displacement increment. */
  function Work(du: seq<real>, force: seq<real>, prevForce: seq<real>): real
    requires |du| == |force| && |force| == |prevForce|
  {
    0.5 * Dot(du, Add(force, prevForce))
  }

  /** The forces of a converged step, over all dofs, and the mass matrix
      applied to the sums of new and previous accelerations and velocities. */
  datatype StepForces = StepForces(
    intForce: seq<real>, prevIntForce: seq<real>, extForce: seq<real>, prevExtForce: seq<real>,
    residual: seq<real>, prevResidual: seq<real>, massAccelerations: seq<real>, massVelocities: seq<real>)

  predicate Fits(f: StepForces, n: nat) {
    |f.intForce| == n && |f.prevIntForce| == n && |f.extForce| == n && |f.prevExtForce| == n
    && |f.residual| == n && |f.prevResidual| == n && |f.massAccelerations| == n && |f.massVelocities| == n
  }

  /** The energies after a converged step with displacement increment du:
      each grows by its trapezoidal work. */
  function UpdateEnergies(e: Energies, mu: real, du: seq<real>, f: StepForces): (r: Energies)
    requires Fits(f, |du|)
    ensures r.internal - e.internal == Work(du, f.intForce, f.prevIntForce)
    ensures r.kinetic - e.kinetic == 0.5 * Dot(du, f.massAccelerations)
    ensures r.damped - e.damped == mu * 0.5 * Dot(du, f.massVelocities)
    ensures r.external - e.external == Work(du, f.extForce, f.prevExtForce) + Work(du, f.residual, f.prevResidual)
  {
    Energies(
      e.internal + Work(du, f.intForce, f.prevIntForce),
      e.kinetic + 0.5 * Dot(du, f.massAccelerations),
      e.damped + mu * 0.5 * Dot(du, f.massVelocities),
      e.external + 0.5 * (Dot(du, Add(f.extForce, f.prevExtForce)) + Dot(du, Add(f.residual, f.prevResidual))))
  }

  /** A dot product whose terms are differences of squares. */
  lemma {:induction false} DotOfSquareDifferences(x: seq<real>, y: seq<real>, a: seq<real>, b: seq<real>, k: real)
    requires |x| == |y| && |y| == |a| && |a| == |b|
    requires forall i :: 0 <= i < |x| ==> x[i] * y[i] == k * (a[i] * a[i] - b[i] * b[i])
    ensures Dot(x, y) == k * (Dot(a, a) - Dot(b, b))
  {
    if |x| > 0 {
      var n := |x| - 1;
      DotOfSquareDifferences(x[..n], y[..n], a[..n], b[..n], k);
    }
  }

  /** For a linear spring force k u the trapezoidal work is exact: it is the
      change of the stored energy k |u|^2 / 2. */
  lemma {:induction false} WorkExactForLinearSpring(k: real, u0: seq<real>, u1: seq<real>)
    requires |u0| == |u1|
    ensures Work(Sub(u1, u0), Scale(k, u1), Scale(k, u0))
      == 0.5 * k * Dot(u1, u1) - 0.5 * k * Dot(u0, u0)
  {
    var du := Sub(u1, u0);
    var f := Add(Scale(k, u1), Scale(k, u0));
    forall i | 0 <= i < |du|
      ensures du[i] * f[i] == k * (u1[i] * u1[i] - u0[i] * u0[i])
    {
      assert f[i] == k * (u1[i] + u0[i]);
      assert (u1[i] - u0[i]) * (k * (u1[i] + u0[i])) == k * (u1[i] * u1[i] - u0[i] * u0[i]);
    }
    DotOfSquareDifferences(du, f, u1, u0, k);
  }
}
