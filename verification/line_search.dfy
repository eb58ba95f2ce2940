/** The backtracking line search shared by the Newmark integrators: the step
    length alpha starts at one and is halved after every trial, until the
    trial residual has dropped enough or alpha has reached the minimum. */
module LineSearch {

  function Pow2(k: nat): (r: nat)
    ensures r >= 1
  {
    if k == 0 then 1 else 2 * Pow2(k - 1)
  }

  /** The step length after k halvings. */
  function Alpha(k: nat): (r: real)
    ensures 0.0 < r <= 1.0
  {
    1.0 / (Pow2(k) as real)
  }

  /** Each halving halves alpha. */
  lemma {:induction false} AlphaHalves(k: nat)
    ensures Alpha(k + 1) == Alpha(k) / 2.0
  {
    assert Pow2(k + 1) as real == 2.0 * (Pow2(k) as real);
  }

  /** Alpha only shrinks. */
  lemma {:induction false} AlphaDecreasing(j: nat, k: nat)
    requires j <= k
    ensures Alpha(k) <= Alpha(j)
  {
    if j < k {
      AlphaDecreasing(j, k - 1);
      AlphaHalves(k - 1);
    }
  }

  /** What a line search ends with: the number of trials made (alpha was
      `Alpha(trials - 1)` in the last one and is `Alpha(trials)` after the
      final halving) and the residual norm of the last trial. */
  datatype Outcome = Outcome(trials: nat, trialNorm: real)

  /** The loop condition of the `do ... while`, evaluated after trial k (made
      with `Alpha(k)`) and the halving that follows it. */
  predicate Continues(trialNorm: real -> real, residualNorm: real, minStep: real, perform: bool, k: nat) {
    perform && Alpha(k + 1) > minStep && trialNorm(Alpha(k)) > (1.0 - Alpha(k + 1)) * residualNorm
  }

  /** The search succeeded: alpha is still above the minimum, or there was no
      line search to begin with. */
  predicate Accepted(o: Outcome, minStep: real, perform: bool) {
    Alpha(o.trials) > minStep || !perform
  }

  /** How many more halvings alpha can take before it drops to the minimum. */
  function Room(minStep: real, k: nat): nat
    requires minStep > 0.0
  {
    var m := (1.0 / minStep).Floor - Pow2(k);
    if m < 0 then 0 else m
  }

  lemma {:induction false} RoomShrinks(minStep: real, k: nat)
    requires minStep > 0.0 && Alpha(k + 1) > minStep
    ensures Room(minStep, k + 1) < Room(minStep, k)
  {
    var p := Pow2(k + 1) as real;
    assert p * Alpha(k + 1) == 1.0;
    BelowInverse(p, minStep);
    assert Pow2(k + 1) <= (1.0 / minStep).Floor;
  }

  lemma {:induction false} PositiveProduct(x: real, y: real)
    requires x > 0.0 && y > 0.0
    ensures x * y > 0.0
  {
  }

  /** If 1/p is above m then p is below 1/m. */
  lemma {:induction false} BelowInverse(p: real, m: real)
    requires p > 0.0 && m > 0.0 && 1.0 / p > m
    ensures p < 1.0 / m
  {
    ProductBelowOne(p, 1.0 / p, m);
    var q := 1.0 / m;
    assert q * m == 1.0;
    assert p * m < q * m;
  }

  lemma {:induction false} ProductBelowOne(p: real, a: real, m: real)
    requires p > 0.0 && a > m && p * a == 1.0
    ensures p * m < 1.0
  {
    PositiveProduct(p, a - m);
    var pa := p * a;
    var pm := p * m;
    assert p * (a - m) == pa - pm;
    assert pa - pm > 0.0;
  }



  /** The trials from the k-th on. `trialNorm` gives the residual norm of
      the state reached with a step of length alpha. */
  function Search(trialNorm: real -> real, residualNorm: real, minStep: real, perform: bool, k: nat): (r: Outcome)
    requires minStep > 0.0
    ensures r.trials > k
    ensures r.trialNorm == trialNorm(Alpha(r.trials - 1))
    ensures !Continues(trialNorm, residualNorm, minStep, perform, r.trials - 1)
    ensures forall j :: k <= j < r.trials - 1 ==> Continues(trialNorm, residualNorm, minStep, perform, j)
    decreases Room(minStep, k)
  {
    if Continues(trialNorm, residualNorm, minStep, perform, k) then
      RoomShrinks(minStep, k);
      Search(trialNorm, residualNorm, minStep, perform, k + 1)
    else
      Outcome(k + 1, trialNorm(Alpha(k)))
  }

  /** Without line search there is exactly one trial, with the full step. */
  lemma {:induction false} NoLineSearchSingleTrial(trialNorm: real -> real, residualNorm: real, minStep: real)
    requires minStep > 0.0
    ensures Search(trialNorm, residualNorm, minStep, false, 0) == Outcome(1, trialNorm(1.0))
    ensures Accepted(Search(trialNorm, residualNorm, minStep, false, 0), minStep, false)
  {
    assert Alpha(0) == 1.0;
  }

  /** An accepted search with line search on reached a sufficient decrease:
      the trial residual is at most `(1 - alpha)` times the previous one;
      a rejected one has run alpha down to the minimum. */
  lemma {:induction false} AcceptedMeansDecrease(trialNorm: real -> real, residualNorm: real, minStep: real)
    requires minStep > 0.0
    ensures var o := Search(trialNorm, residualNorm, minStep, true, 0);
      (Accepted(o, minStep, true) ==> o.trialNorm <= (1.0 - Alpha(o.trials)) * residualNorm)
      && (!Accepted(o, minStep, true) ==> Alpha(o.trials) <= minStep)
  {
  }

  /** Once a trial gives a sufficient decrease with alpha above the minimum,
      the search stops there. */
  lemma {:induction false} StopsAtFirstSufficientTrial(trialNorm: real -> real, residualNorm: real, minStep: real, k: nat)
    requires minStep > 0.0
    ensures Alpha(k + 1) > minStep && trialNorm(Alpha(k)) <= (1.0 - Alpha(k + 1)) * residualNorm ==>
      Search(trialNorm, residualNorm, minStep, true, 0).trials <= k + 1
  {
    if Alpha(k + 1) > minStep && trialNorm(Alpha(k)) <= (1.0 - Alpha(k + 1)) * residualNorm {
      assert !Continues(trialNorm, residualNorm, minStep, true, k);
    }
  }

  /** The number of trials is bounded by the minimum step: alpha is never
      halved below the first power of one half that is at most the minimum. */
  lemma {:induction false} TrialsBounded(trialNorm: real -> real, residualNorm: real, minStep: real, perform: bool, n: nat)
    requires minStep > 0.0 && n >= 1 && Alpha(n) <= minStep
    ensures Search(trialNorm, residualNorm, minStep, perform, 0).trials <= n
  {
    assert !Continues(trialNorm, residualNorm, minStep, perform, n - 1);
  }
}
