/** `NewmarkDirect`: implicit Newmark-beta time integration. The Newmark
    updates of velocity and acceleration, the dynamic residual, the mu-damping
    matrix, the checks made before the first step, the Newton iteration with
    its line search and the time-step control. Vectors are `seq<real>`,
    matrices sequences of rows; the structure's evaluations (internal forces,
    hessians, the linear solve) are parameters. */
module NewmarkDirect {
  import opened Wrappers
  import opened NutoEnums
  import opened ConstitutiveIO
  import opened LineSearch

  /** The scheme's parameters beta and gamma and the mass-proportional damping
      factor mu. */
  datatype Parameters = Parameters(beta: real, gamma: real, muDampingMass: real)

  // ---------------------------------------------------------------------
  // The Newmark updates, one dof at a time

  /** `CalculateDof2` for one dof: the new acceleration from the displacement
      increment d, the old velocity v and the old acceleration a. */
  function AccelerationOf(beta: real, h: real, d: real, v: real, a: real): real
    requires beta != 0.0 && h != 0.0
  {
    d * (1.0 / (h * h * beta)) - v * (1.0 / (h * beta)) - a * ((0.5 - beta) / beta)
  }

  /** `CalculateDof1` for one dof: the new velocity. */
  function VelocityOf(beta: real, gamma: real, h: real, d: real, v: real, a: real): real
    requires beta != 0.0 && h != 0.0
  {
    d * (gamma / (h * beta)) + v * (1.0 - gamma / beta) + a * (h * (1.0 - gamma / (2.0 * beta)))
  }

  /** The new acceleration is the one that makes the Newmark displacement
      update `d = h v + h^2 ((1/2 - beta) a + beta a_new)` hold. */
  lemma {:induction false} DisplacementUpdate(beta: real, h: real, d: real, v: real, a: real)
    requires beta != 0.0 && h != 0.0
    ensures d == h * v + h * h * ((0.5 - beta) * a + beta * AccelerationOf(beta, h, d, v, a))
  {
    var r := AccelerationOf(beta, h, d, v, a);
    assert beta * r == d / (h * h) - v / h - a * (0.5 - beta) by {
      assert beta * (d * (1.0 / (h * h * beta))) == d / (h * h);
      assert beta * (v * (1.0 / (h * beta))) == v / h;
      assert beta * (a * ((0.5 - beta) / beta)) == a * (0.5 - beta);
    }
    assert h * h * (beta * r) == d - h * v - h * h * (a * (0.5 - beta)) by {
      assert h * h * (d / (h * h)) == d;
      assert h * h * (v / h) == h * v;
    }
  }

  /** The new velocity is the Newmark velocity update
      `v + h ((1 - gamma) a + gamma a_new)` with the new acceleration. */
  lemma {:induction false} VelocityUpdate(beta: real, gamma: real, h: real, d: real, v: real, a: real)
    requires beta != 0.0 && h != 0.0
    ensures VelocityOf(beta, gamma, h, d, v, a) == v + h * ((1.0 - gamma) * a + gamma * AccelerationOf(beta, h, d, v, a))
  {
    var an := AccelerationOf(beta, h, d, v, a);
    DisplacementUpdate(beta, h, d, v, a);
    var k := gamma / beta;
    var s := beta * an;
    assert h * (h * s) == h * (d / h - v - h * (0.5 - beta) * a);
    assert h * s == d / h - v - h * (0.5 - beta) * a;
    assert h * gamma * an == k * (h * s);
    assert d * (gamma / (h * beta)) == k * (d / h);
    assert a * (h * (1.0 - gamma / (2.0 * beta))) == h * a * (1.0 - k / 2.0);
  }

  // ---------------------------------------------------------------------
  // The Newmark updates on vectors

  predicate SameSize(d: seq<real>, v: seq<real>, a: seq<real>) {
    |d| == |v| && |v| == |a|
  }

  /** `CalculateDof2`. */
  function CalculateDof2(p: Parameters, h: real, d: seq<real>, v: seq<real>, a: seq<real>): (r: seq<real>)
    requires p.beta != 0.0 && h != 0.0 && SameSize(d, v, a)
    ensures |r| == |d|
    ensures forall i :: 0 <= i < |d| ==> d[i] == h * v[i] + h * h * ((0.5 - p.beta) * a[i] + p.beta * r[i])
  {
    var r := seq(|d|, i requires 0 <= i < |d| => AccelerationOf(p.beta, h, d[i], v[i], a[i]));
    assert forall i :: 0 <= i < |d| ==> d[i] == h * v[i] + h * h * ((0.5 - p.beta) * a[i] + p.beta * r[i]) by {
      forall i | 0 <= i < |d| {
        DisplacementUpdate(p.beta, h, d[i], v[i], a[i]);
      }
    }
    r
  }

  /** `CalculateDof1`. */
  function CalculateDof1(p: Parameters, h: real, d: seq<real>, v: seq<real>, a: seq<real>): (r: seq<real>)
    requires p.beta != 0.0 && h != 0.0 && SameSize(d, v, a)
    ensures |r| == |d|
    ensures forall i :: 0 <= i < |d| ==>
      r[i] == v[i] + h * ((1.0 - p.gamma) * a[i] + p.gamma * CalculateDof2(p, h, d, v, a)[i])
  {
    var r := seq(|d|, i requires 0 <= i < |d| => VelocityOf(p.beta, p.gamma, h, d[i], v[i], a[i]));
    var an := CalculateDof2(p, h, d, v, a);
    assert forall i :: 0 <= i < |d| ==> r[i] == v[i] + h * ((1.0 - p.gamma) * a[i] + p.gamma * an[i]) by {
      forall i | 0 <= i < |d| {
        VelocityUpdate(p.beta, p.gamma, h, d[i], v[i], a[i]);
      }
    }
    r
  }

  /** The acceleration of `CalculateDof2` is the only one that satisfies the
      Newmark displacement update. */
  lemma {:induction false} AccelerationUnique(p: Parameters, h: real, d: seq<real>, v: seq<real>, a: seq<real>, x: seq<real>)
    requires p.beta != 0.0 && h != 0.0 && SameSize(d, v, a) && |x| == |d|
    requires forall i :: 0 <= i < |d| ==> d[i] == h * v[i] + h * h * ((0.5 - p.beta) * a[i] + p.beta * x[i])
    ensures x == CalculateDof2(p, h, d, v, a)
  {
    var r := CalculateDof2(p, h, d, v, a);
    forall i | 0 <= i < |d|
      ensures x[i] == r[i]
    {
      assert h * h * p.beta * x[i] == h * h * p.beta * r[i];
      assert h * h * p.beta != 0.0;
    }
  }

  /** Moving the displacement increment by delta * alpha moves the new
      acceleration by delta alpha / (h^2 beta) and the new velocity by
      delta alpha gamma / (h beta), which is how the line search updates its
      trial state. */
  lemma {:induction false} ShiftedIncrement(beta: real, gamma: real, h: real, d: real, shifted: real, v: real, a: real, delta: real, alpha: real)
    requires beta != 0.0 && h != 0.0 && shifted == d + alpha * delta
    ensures AccelerationOf(beta, h, shifted, v, a) == AccelerationOf(beta, h, d, v, a) + (alpha / (h * h * beta)) * delta
    ensures VelocityOf(beta, gamma, h, shifted, v, a) == VelocityOf(beta, gamma, h, d, v, a) + (alpha * gamma / (h * beta)) * delta
  {
    var c := 1.0 / (h * h * beta);
    assert (d + alpha * delta) * c == d * c + (alpha / (h * h * beta)) * delta;
    var g := gamma / (h * beta);
    assert (d + alpha * delta) * g == d * g + (alpha * gamma / (h * beta)) * delta;
  }

  /** Displacements, velocities and accelerations of all dofs. */
  datatype DofState = DofState(u: seq<real>, v: seq<real>, a: seq<real>)

  predicate Sized(s: DofState, n: nat) {
    |s.u| == n && |s.v| == n && |s.a| == n
  }

  /** The trial state of the first Newton iteration: the last converged
      displacements plus the increment d, and velocity and acceleration from
      the Newmark updates (two time derivatives). */
  function Predicted(p: Parameters, h: real, last: DofState, d: seq<real>): (r: DofState)
    requires p.beta != 0.0 && h != 0.0 && Sized(last, |d|)
    ensures Sized(r, |d|)
    ensures forall i :: 0 <= i < |d| ==> (r.u[i] == last.u[i] + d[i]
                                          && r.v[i] == VelocityOf(p.beta, p.gamma, h, d[i], last.v[i], last.a[i])
                                          && r.a[i] == AccelerationOf(p.beta, h, d[i], last.v[i], last.a[i]))
  {
    DofState(Add(last.u, d), CalculateDof1(p, h, d, last.v, last.a), CalculateDof2(p, h, d, last.v, last.a))
  }

  /** A line-search trial: the state moved by alpha times the Newton
      correction delta; velocities and accelerations follow only as far as
      the structure has time derivatives. */
  function TrialState(p: Parameters, h: real, timeDerivatives: nat, s: DofState, delta: seq<real>, alpha: real): (r: DofState)
    requires p.beta != 0.0 && h != 0.0 && Sized(s, |delta|)
    ensures Sized(r, |delta|)
    ensures timeDerivatives < 1 ==> r.v == s.v
    ensures timeDerivatives < 2 ==> r.a == s.a
    ensures forall i :: 0 <= i < |delta| ==> r.u[i] == s.u[i] + alpha * delta[i]
    ensures timeDerivatives >= 1 ==> forall i :: 0 <= i < |delta| ==> r.v[i] == s.v[i] + (alpha * p.gamma / (h * p.beta)) * delta[i]
    ensures timeDerivatives >= 2 ==> forall i :: 0 <= i < |delta| ==> r.a[i] == s.a[i] + (alpha / (h * h * p.beta)) * delta[i]
  {
    DofState(
      Add(s.u, Scale(alpha, delta)),
      if timeDerivatives >= 1 then Add(s.v, Scale(alpha * p.gamma / (h * p.beta), delta)) else s.v,
      if timeDerivatives >= 2 then Add(s.a, Scale(alpha / (h * h * p.beta), delta)) else s.a)
  }

  /** One dof of a trial made from a predicted state. */
  lemma {:induction false} TrialEntry(p: Parameters, h: real, s: DofState, delta: seq<real>, alpha: real, i: nat)
    requires p.beta != 0.0 && h != 0.0 && Sized(s, |delta|) && i < |delta|
    ensures TrialState(p, h, 2, s, delta, alpha).v[i] == s.v[i] + (alpha * p.gamma / (h * p.beta)) * delta[i]
    ensures TrialState(p, h, 2, s, delta, alpha).a[i] == s.a[i] + (alpha / (h * h * p.beta)) * delta[i]
  {
  }

  /** One dof of the trial is the predicted dof of the shifted increment. */
  lemma {:induction false} TrialDofShifted(p: Parameters, h: real, last: DofState, d: seq<real>, delta: seq<real>, alpha: real, i: nat)
    requires p.beta != 0.0 && h != 0.0 && Sized(last, |d|) && |delta| == |d| && i < |d|
    ensures TrialState(p, h, 2, Predicted(p, h, last, d), delta, alpha).v[i] == Predicted(p, h, last, Add(d, Scale(alpha, delta))).v[i]
    ensures TrialState(p, h, 2, Predicted(p, h, last, d), delta, alpha).a[i] == Predicted(p, h, last, Add(d, Scale(alpha, delta))).a[i]
  {
    var s := Predicted(p, h, last, d);
    var d' := Add(d, Scale(alpha, delta));
    TrialEntry(p, h, s, delta, alpha, i);
    assert d'[i] == d[i] + alpha * delta[i];
    ShiftedIncrement(p.beta, p.gamma, h, d[i], d'[i], last.v[i], last.a[i], delta[i], alpha);
  }

  /** The trial velocities are the Newmark velocities of the shifted
      increment. */
  lemma {:induction false} TrialVelocity(p: Parameters, h: real, last: DofState, d: seq<real>, delta: seq<real>, alpha: real)
    requires p.beta != 0.0 && h != 0.0 && Sized(last, |d|) && |delta| == |d|
    ensures TrialState(p, h, 2, Predicted(p, h, last, d), delta, alpha).v == Predicted(p, h, last, Add(d, Scale(alpha, delta))).v
  {
    var t := TrialState(p, h, 2, Predicted(p, h, last, d), delta, alpha);
    var q := Predicted(p, h, last, Add(d, Scale(alpha, delta)));
    forall i | 0 <= i < |d|
      ensures t.v[i] == q.v[i]
    {
      TrialDofShifted(p, h, last, d, delta, alpha, i);
    }
  }

  /** The trial accelerations are the Newmark accelerations of the shifted
      increment. */
  lemma {:induction false} TrialAcceleration(p: Parameters, h: real, last: DofState, d: seq<real>, delta: seq<real>, alpha: real)
    requires p.beta != 0.0 && h != 0.0 && Sized(last, |d|) && |delta| == |d|
    ensures TrialState(p, h, 2, Predicted(p, h, last, d), delta, alpha).a == Predicted(p, h, last, Add(d, Scale(alpha, delta))).a
  {
    var t := TrialState(p, h, 2, Predicted(p, h, last, d), delta, alpha);
    var q := Predicted(p, h, last, Add(d, Scale(alpha, delta)));
    forall i | 0 <= i < |d|
      ensures t.a[i] == q.a[i]
    {
      TrialDofShifted(p, h, last, d, delta, alpha, i);
    }
  }

  /** Every line-search trial stays a Newmark state: the trial from the
      predicted state of increment d is the predicted state of increment
      d + alpha delta. */
  lemma {:induction false} TrialStaysNewmark(p: Parameters, h: real, last: DofState, d: seq<real>, delta: seq<real>, alpha: real)
    requires p.beta != 0.0 && h != 0.0 && Sized(last, |d|) && |delta| == |d|
    ensures TrialState(p, h, 2, Predicted(p, h, last, d), delta, alpha) == Predicted(p, h, last, Add(d, Scale(alpha, delta)))
  {
    var t := TrialState(p, h, 2, Predicted(p, h, last, d), delta, alpha);
    var q := Predicted(p, h, last, Add(d, Scale(alpha, delta)));
    TrialVelocity(p, h, last, d, delta, alpha);
    TrialAcceleration(p, h, last, d, delta, alpha);
    assert t.u == q.u;
  }

  // ---------------------------------------------------------------------
  // Residual and damping

  /** Rows of equal length n. */
  predicate Rows(m: seq<seq<real>>, n: nat) {
    forall i :: 0 <= i < |m| ==> |m[i]| == n
  }

  /** A row times a combination mu v + a of two vectors. */
  lemma {:induction false} DotCombination(m: seq<real>, x: seq<real>, v: seq<real>, a: seq<real>, mu: real)
    requires |m| == |x| && |x| == |v| && |v| == |a|
    requires forall i :: 0 <= i < |x| ==> x[i] == mu * v[i] + a[i]
    ensures Dot(m, x) == mu * Dot(m, v) + Dot(m, a)
  {
    if |m| > 0 {
      var n := |m| - 1;
      DotCombination(m[..n], x[..n], v[..n], a[..n], mu);
      assert m[n] * x[n] == mu * (m[n] * v[n]) + m[n] * a[n];
    }
  }

  /** `CalculateResidual`: external minus internal forces and, with a mass
      matrix (two time derivatives), minus the damping force mu M v and the
      inertia force M a. */
  function CalculateResidual(timeDerivatives: nat, mu: real, mass: seq<seq<real>>,
                             intForce: seq<real>, extForce: seq<real>, v: seq<real>, a: seq<real>): (r: seq<real>)
    requires |intForce| == |extForce| && |mass| == |extForce| && |v| == |a| && Rows(mass, |v|)
    ensures |r| == |extForce|
    ensures timeDerivatives < 2 ==> forall i :: 0 <= i < |r| ==> r[i] + intForce[i] == extForce[i]
    ensures timeDerivatives >= 2 ==> forall i :: 0 <= i < |r| ==>
      r[i] + intForce[i] + mu * Dot(mass[i], v) + Dot(mass[i], a) == extForce[i]
  {
    var residual := Sub(extForce, intForce);
    if timeDerivatives >= 2 then
      var r := Sub(residual, MatVec(mass, Add(Scale(mu, v), a)));
      InertiaTerms(mu, mass, v, a);
      r
    else
      residual
  }

  /** Row by row, the mass matrix times mu v + a splits into mu M v + M a. */
  lemma {:induction false} InertiaTerms(mu: real, mass: seq<seq<real>>, v: seq<real>, a: seq<real>)
    requires |v| == |a| && Rows(mass, |v|)
    ensures forall i :: 0 <= i < |mass| ==>
      MatVec(mass, Add(Scale(mu, v), a))[i] == mu * Dot(mass[i], v) + Dot(mass[i], a)
  {
    var x := Add(Scale(mu, v), a);
    assert forall j :: 0 <= j < |x| ==> x[j] == mu * v[j] + a[j];
    var mx := MatVec(mass, x);
    forall i | 0 <= i < |mass|
      ensures mx[i] == mu * Dot(mass[i], v) + Dot(mass[i], a)
    {
      assert mx[i] == Dot(mass[i], x);
      DotCombination(mass[i], x, v, a, mu);
    }
  }

  /** `CalculateMuDampingMatrix`: mu times the mass matrix; with mu-damping
      switched on it needs a mass matrix, that is two time derivatives. */
  function CalculateMuDampingMatrix(useMuDamping: bool, timeDerivatives: nat, mu: real, mass: seq<seq<real>>): (r: Result<seq<seq<real>>>)
    ensures r.Failure? <==> useMuDamping && timeDerivatives < 2
    ensures r.Success? ==> |r.value| == |mass| && forall i :: 0 <= i < |mass| ==> r.value[i] == Scale(mu, mass[i])
  {
    if useMuDamping && timeDerivatives < 2 then Failure("MuDampingMass requires a mass matrix (2nd time derivatives).")
    else Success(seq(|mass|, i requires 0 <= i < |mass| => Scale(mu, mass[i])))
  }

  /** A scaled row times a vector. */
  lemma {:induction false} DotScaled(m: seq<real>, v: seq<real>, mu: real)
    requires |m| == |v|
    ensures Dot(Scale(mu, m), v) == mu * Dot(m, v)
  {
    if |m| > 0 {
      var n := |m| - 1;
      assert forall j :: 0 <= j < n ==> Scale(mu, m)[..n][j] == Scale(mu, m[..n])[j];
      assert Scale(mu, m)[..n] == Scale(mu, m[..n]);
      DotScaled(m[..n], v[..n], mu);
      assert (mu * m[n]) * v[n] == mu * (m[n] * v[n]);
    }
  }

  /** The residual's damping term is the damping matrix of
      `CalculateMuDampingMatrix` times the velocities. */
  lemma {:induction false} ResidualUsesDampingMatrix(useMuDamping: bool, timeDerivatives: nat, mu: real, mass: seq<seq<real>>,
                                  intForce: seq<real>, extForce: seq<real>, v: seq<real>, a: seq<real>)
    requires |intForce| == |extForce| && |mass| == |extForce| && |v| == |a| && Rows(mass, |v|)
    requires timeDerivatives >= 2
    ensures CalculateMuDampingMatrix(useMuDamping, timeDerivatives, mu, mass).Success?
    ensures var c := CalculateMuDampingMatrix(useMuDamping, timeDerivatives, mu, mass).value;
      var r := CalculateResidual(timeDerivatives, mu, mass, intForce, extForce, v, a);
      forall i :: 0 <= i < |r| ==> r[i] + intForce[i] + Dot(c[i], v) + Dot(mass[i], a) == extForce[i]
  {
    var c := CalculateMuDampingMatrix(useMuDamping, timeDerivatives, mu, mass).value;
    forall i | 0 <= i < |mass|
      ensures Dot(c[i], v) == mu * Dot(mass[i], v)
    {
      DotScaled(mass[i], v, mu);
    }
  }

  // ---------------------------------------------------------------------
  // Checks before the first step

  /** A stage of a staggered solution with no active dof. */
  predicate HasEmptyStage(stages: seq<set<Dof>>) {
    exists i :: 0 <= i < |stages| && stages[i] == {}
  }

  /** What `InitialState` settles: the stages of active dofs and, with a
      mass matrix, the damping matrix. */
  datatype Initial = Initial(stages: seq<set<Dof>>, damping: Option<seq<seq<real>>>)

  /** `InitialState` as written. No stage list means one stage with the
      structure's active dofs. The damping matrix is only computed with a mass
      matrix, so the check inside `CalculateMuDampingMatrix` never fires.
      The initial configuration must be in equilibrium within the tolerance. */
  function InitialStateAsWritten(maxTimeStep: real, stages: seq<set<Dof>>, active: set<Dof>, timeDerivatives: nat,
                                 useMuDamping: bool, mu: real, mass: seq<seq<real>>,
                                 initialResidualNorm: real, tolerance: real): (r: Result<Initial>)
    ensures r.Success? <==> maxTimeStep != 0.0 && !HasEmptyStage(stages) && !(tolerance < initialResidualNorm)
    ensures r.Success? ==> r.value.stages == if |stages| == 0 then [active] else stages
    ensures r.Success? ==> (r.value.damping.Some? <==> timeDerivatives >= 2)
  {
    if maxTimeStep == 0.0 then Failure("Maximum time step is set to zero.")
    else if HasEmptyStage(stages) then Failure("Calculation step has no active DOFs.")
    else
      var damping :=
        if timeDerivatives >= 2 then
          var c := CalculateMuDampingMatrix(useMuDamping, timeDerivatives, mu, mass);
          Some(c.value)
        else None;
      if tolerance < initialResidualNorm then Failure("Initial configuration is not in (dynamic) equilibrium.")
      else Success(Initial(if |stages| == 0 then [active] else stages, damping))
  }

  /** With mu-damping on and a single time derivative the damping matrix
      check would reject the setting, yet `InitialState` as written accepts
      it. */
  lemma {:induction false} AsWrittenAcceptsMuDampingWithoutMass()
    ensures CalculateMuDampingMatrix(true, 1, 0.1, []).Failure?
    ensures InitialStateAsWritten(1.0, [], {DISPLACEMENTS}, 1, true, 0.1, [], 0.0, 1.0e-6).Success?
  {
    assert !HasEmptyStage([]);
  }

  /** `InitialState` with the mu-damping check made whatever the number of
      time derivatives: it fails exactly when the maximum time step is zero,
      a stage has no active dofs, mu-damping lacks a mass matrix, or the
      initial configuration is out of equilibrium. */
  function InitialState(maxTimeStep: real, stages: seq<set<Dof>>, active: set<Dof>, timeDerivatives: nat,
                        useMuDamping: bool, mu: real, mass: seq<seq<real>>,
                        initialResidualNorm: real, tolerance: real): (r: Result<Initial>)
    ensures r.Success? <==> (maxTimeStep != 0.0 && !HasEmptyStage(stages) && !(useMuDamping && timeDerivatives < 2)
                             && !(tolerance < initialResidualNorm))
    ensures r.Success? ==> r.value.stages == if |stages| == 0 then [active] else stages
    ensures r.Success? ==> (r.value.damping.Some? <==> timeDerivatives >= 2)
    ensures r.Success? && timeDerivatives >= 2 ==> |r.value.damping.value| == |mass|
  {
    if maxTimeStep == 0.0 then Failure("Maximum time step is set to zero.")
    else if HasEmptyStage(stages) then Failure("Calculation step has no active DOFs.")
    else
      var c := CalculateMuDampingMatrix(useMuDamping, timeDerivatives, mu, mass);
      if c.Failure? then Failure(c.error)
      else if tolerance < initialResidualNorm then Failure("Initial configuration is not in (dynamic) equilibrium.")
      else Success(Initial(if |stages| == 0 then [active] else stages, if timeDerivatives >= 2 then Some(c.value) else None))
  }

  /** Both versions agree whenever the setting is consistent. */
  lemma {:induction false} InitialStateAgrees(maxTimeStep: real, stages: seq<set<Dof>>, active: set<Dof>, timeDerivatives: nat,
                           useMuDamping: bool, mu: real, mass: seq<seq<real>>,
                           initialResidualNorm: real, tolerance: real)
    requires !(useMuDamping && timeDerivatives < 2)
    ensures InitialState(maxTimeStep, stages, active, timeDerivatives, useMuDamping, mu, mass, initialResidualNorm, tolerance)
      == InitialStateAsWritten(maxTimeStep, stages, active, timeDerivatives, useMuDamping, mu, mass, initialResidualNorm, tolerance)
  {
  }

  // ---------------------------------------------------------------------
  // Newton iteration

  /** The trial residual norms are norms. */
  ghost predicate NonNegative(trialNorms: nat -> real -> real) {
    forall i: nat, alpha: real :: trialNorms(i)(alpha) >= 0.0
  }

  /** `FindEquilibrium` from iteration i on: Newton iterations, each with a
      line search, while the residual norm is not below the tolerance and
      the iteration budget lasts. `trialNorms(i)` gives the residual norm
      reached in iteration i with step length alpha. A failed line search
      ends the loop with the iteration count forced to the maximum and the
      previous norm. */
  function Iterate(trialNorms: nat -> real -> real, norm: real, tolerance: real, maxIterations: nat,
                   minStep: real, performLineSearch: bool, i: nat): (r: (nat, real))
    requires minStep > 0.0 && i <= maxIterations
    ensures i <= r.0 <= maxIterations
    ensures r.1 < tolerance || r.0 == maxIterations
    ensures norm < tolerance ==> r == (i, norm)
    ensures performLineSearch && 0.0 <= norm && NonNegative(trialNorms) ==> 0.0 <= r.1 <= norm
    decreases maxIterations - i
  {
    if !(norm < tolerance) && i < maxIterations then
      var o := Search(trialNorms(i), norm, minStep, performLineSearch, 0);
      if Accepted(o, minStep, performLineSearch) then
        assert performLineSearch && 0.0 <= norm ==> o.trialNorm <= norm by {
          if performLineSearch && 0.0 <= norm {
            var alpha := Alpha(o.trials);
            assert o.trialNorm <= (1.0 - alpha) * norm;
            assert alpha * norm >= 0.0;
          }
        }
        Iterate(trialNorms, o.trialNorm, tolerance, maxIterations, minStep, performLineSearch, i + 1)
      else
        (maxIterations, norm)
    else
      (i, norm)
  }

  /** `FindEquilibrium`: the iteration count and the final residual norm. */
  function FindEquilibrium(trialNorms: nat -> real -> real, norm: real, tolerance: real, maxIterations: nat,
                           minStep: real, performLineSearch: bool): (r: (nat, real))
    requires minStep > 0.0
    ensures r.0 <= maxIterations
    ensures r.1 < tolerance || r.0 == maxIterations
    ensures norm < tolerance ==> r == (0, norm)
    ensures performLineSearch && 0.0 <= norm && NonNegative(trialNorms) ==> 0.0 <= r.1 <= norm
  {
    Iterate(trialNorms, norm, tolerance, maxIterations, minStep, performLineSearch, 0)
  }

  /** A line search that fails in the first iteration ends the equilibrium
      search at once, unconverged. */
  lemma {:induction false} FailedLineSearchStops(trialNorms: nat -> real -> real, norm: real, tolerance: real, maxIterations: nat, minStep: real)
    requires minStep > 0.0 && maxIterations > 0 && !(norm < tolerance)
    requires !Accepted(Search(trialNorms(0), norm, minStep, true, 0), minStep, true)
    ensures FindEquilibrium(trialNorms, norm, tolerance, maxIterations, minStep, true) == (maxIterations, norm)
  {
  }

  // ---------------------------------------------------------------------
  // Time-step control

  /** The time object: current time, the time before the last `Proceed`,
      and the time step. */
  datatype TimeState = TimeState(current: real, previous: real, step: real)

  function Proceed(t: TimeState): TimeState {
    TimeState(t.current + t.step, t.current, t.step)
  }

  function RestorePreviousTime(t: TimeState): TimeState {
    t.(current := t.previous)
  }

  function ScaleTimestep(t: TimeState, factor: real): TimeState {
    t.(step := t.step * factor)
  }

  /** The minimum time step `Solve` sets: with automatic stepping an unset
      (non-positive) minimum becomes the step after six cut-backs. */
  function MinTimeStep(automatic: bool, minTimeStep: real, timeStep: real): (r: real)
    ensures !automatic || minTimeStep > 0.0 ==> r == minTimeStep
    ensures automatic && minTimeStep <= 0.0 ==> r == timeStep * Alpha(6)
  {
    assert Pow2(6) == 64;
    if automatic && !(minTimeStep > 0.0) then timeStep * 0.015625 else minTimeStep
  }

  /** The check at the top of each step. */
  function CheckTimeStep(t: TimeState, minTimeStep: real): (r: Result<()>)
    ensures r.Success? <==> t.step >= minTimeStep
  {
    if t.step < minTimeStep then Failure("Time step is smaller than minimum - no convergence was reached.") else Success(())
  }

  /** What follows an equilibrium search: a converged step keeps the new time
      and, with automatic stepping and fewer than a quarter of the allowed
      iterations, grows the step by 1.5; an unconverged one is retried from
      the previous time with half the step, or fails without automatic
      stepping. */
  function AfterEquilibrium(t: TimeState, automatic: bool, maxIterations: nat, iterations: nat,
                            residualNorm: real, tolerance: real): (r: Result<TimeState>)
    ensures r.Failure? <==> !(residualNorm < tolerance) && !automatic
    ensures residualNorm < tolerance ==> r.value.current == t.current
    ensures residualNorm < tolerance && automatic && (iterations as real) < 0.25 * (maxIterations as real) ==>
      r.value.step == 1.5 * t.step
    ensures residualNorm < tolerance && !(automatic && (iterations as real) < 0.25 * (maxIterations as real)) ==>
      r.value.step == t.step
    ensures !(residualNorm < tolerance) && automatic ==> r.value.current == t.previous && r.value.step == t.step / 2.0
  {
    if residualNorm < tolerance then
      Success(if automatic && (iterations as real) < 0.25 * (maxIterations as real) then ScaleTimestep(t, 1.5) else t)
    else if automatic then
      Success(ScaleTimestep(RestorePreviousTime(t), 0.5))
    else
      Failure("No convergence with the current maximum number of iterations, either use automatic time stepping, "
        + "reduce the time step or the minimal line search cut back factor.")
  }

  /** One pass of the `Solve` loop for a single stage: the step check,
      `Proceed`, the equilibrium search (whose outcome is given) and the
      step control. Time advances by exactly the step when the search
      converges and stays put otherwise. */
  function SolveStep(t: TimeState, minTimeStep: real, automatic: bool, maxIterations: nat,
                     outcome: (nat, real), tolerance: real): (r: Result<TimeState>)
    ensures r.Success? <==> t.step >= minTimeStep && (outcome.1 < tolerance || automatic)
    ensures r.Success? && outcome.1 < tolerance ==> r.value.current == t.current + t.step
    ensures r.Success? && !(outcome.1 < tolerance) ==> r.value.current == t.current && r.value.step == t.step / 2.0
  {
    var _ :- CheckTimeStep(t, minTimeStep);
    AfterEquilibrium(Proceed(t), automatic, maxIterations, outcome.0, outcome.1, tolerance)
  }

  /** k unconverged attempts in a row with automatic stepping. */
  function Retry(t: TimeState, k: nat, maxIterations: nat, residualNorm: real, tolerance: real): TimeState
    requires !(residualNorm < tolerance)
    decreases k
  {
    if k == 0 then t
    else Retry(AfterEquilibrium(Proceed(t), true, maxIterations, maxIterations, residualNorm, tolerance).value,
               k - 1, maxIterations, residualNorm, tolerance)
  }

  /** After k failed attempts the time is where it started and the step is
      halved k times. */
  lemma {:induction false} RetryHalves(t: TimeState, k: nat, maxIterations: nat, residualNorm: real, tolerance: real)
    requires !(residualNorm < tolerance)
    ensures Retry(t, k, maxIterations, residualNorm, tolerance).current == t.current
    ensures Retry(t, k, maxIterations, residualNorm, tolerance).step == t.step * Alpha(k)
    decreases k
  {
    if k > 0 {
      var next := AfterEquilibrium(Proceed(t), true, maxIterations, maxIterations, residualNorm, tolerance).value;
      RetryHalves(next, k - 1, maxIterations, residualNorm, tolerance);
      assert Retry(t, k, maxIterations, residualNorm, tolerance) == Retry(next, k - 1, maxIterations, residualNorm, tolerance);
      AlphaHalves(k - 1);
      var a := Alpha(k - 1);
      assert next.step == t.step * 0.5;
      assert (t.step * 0.5) * a == t.step * (a / 2.0);
    }
  }

  /** A positive factor keeps the order. */
  lemma {:induction false} ScaleKeepsOrder(c: real, x: real, y: real)
    requires c > 0.0
    ensures c * x >= c * y <==> x >= y
  {
    if x >= y {
      assert c * (x - y) >= 0.0;
    } else {
      assert c * (y - x) > 0.0;
    }
  }

  /** Alpha(k) stays at or above 1/64 for exactly the first six halvings. */
  lemma {:induction false} SixHalvings(k: nat)
    ensures Alpha(k) >= Alpha(6) <==> k <= 6
  {
    if k <= 6 {
      AlphaDecreasing(k, 6);
    } else {
      AlphaDecreasing(7, k);
      AlphaHalves(6);
    }
  }

  /** With automatic stepping and no minimum set, six cut-backs are allowed:
      the step check passes after k failed attempts exactly when k <= 6. */
  lemma {:induction false} SixCutBacks(t: TimeState, minTimeStep: real, k: nat, maxIterations: nat, residualNorm: real, tolerance: real)
    requires t.step > 0.0 && minTimeStep <= 0.0 && !(residualNorm < tolerance)
    ensures CheckTimeStep(Retry(t, k, maxIterations, residualNorm, tolerance), MinTimeStep(true, minTimeStep, t.step)).Success?
      <==> k <= 6
  {
    RetryHalves(t, k, maxIterations, residualNorm, tolerance);
    SixHalvings(k);
    ScaleKeepsOrder(t.step, Alpha(k), Alpha(6));
  }
}
