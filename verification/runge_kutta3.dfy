/** `RungeKutta3`: the Butcher tableau of Kutta's third-order explicit
    Runge-Kutta method, handed out stage by stage to the generic
    Runge-Kutta time integration. */
module RungeKutta3 {
  import opened Wrappers

  /** Kutta's tableau written out: nodes c, stage coefficients a (row i has
      i entries) and weights b. */
  const Nodes: seq<real> := [0.0, 0.5, 1.0]
  const Coefficients: seq<seq<real>> := [[], [0.5], [-1.0, 2.0]]
  const Weights: seq<real> := [1.0 / 6.0, 2.0 / 3.0, 1.0 / 6.0]

  function StageError(): string {
    "rStage>3 not implemented."
  }

  /** `GetStageTimeFactor`: the node c of the stage. */
  function GetStageTimeFactor(stage: int): (r: Result<real>)
    ensures r.Success? <==> 0 <= stage < 3
    ensures r.Success? ==> r.value == Nodes[stage]
  {
    if stage == 0 then Success(0.0)
    else if stage == 1 then Success(0.5)
    else if stage == 2 then Success(1.0)
    else Failure(StageError())
  }

  /** `HasTimeChanged`: only the middle stage is at a new time. */
  function HasTimeChanged(stage: int): (r: Result<bool>)
    ensures r.Success? <==> 0 <= stage < 3
    ensures r.Success? ==> (r.value <==> stage == 1)
  {
    if stage == 0 then Success(false)
    else if stage == 1 then Success(true)
    else if stage == 2 then Success(false)
    else Failure(StageError())
  }

  /** `GetStageDerivativeFactor`: writes the stage's coefficients into the
      front of the two-entry weight vector; the rest is left as it was. */
  function GetStageDerivativeFactor(w: seq<real>, stage: int): (r: Result<seq<real>>)
    requires |w| == 2
    ensures r.Success? <==> 0 <= stage < 3
    ensures r.Success? ==> |r.value| == 2
    ensures r.Success? ==> r.value[..stage] == Coefficients[stage] && r.value[stage..] == w[stage..]
  {
    if stage == 0 then Success(w)
    else if stage == 1 then Success(w[0 := 0.5])
    else if stage == 2 then Success([-1.0, 2.0])
    else Failure(StageError())
  }

  /** `GetStageWeights`: the weight b of the stage. */
  function GetStageWeights(stage: int): (r: Result<real>)
    ensures r.Success? <==> 0 <= stage < 3
    ensures r.Success? ==> r.value == Weights[stage]
  {
    if stage == 0 then Success(1.0 / 6.0)
    else if stage == 1 then Success(2.0 / 3.0)
    else if stage == 2 then Success(1.0 / 6.0)
    else Failure(StageError())
  }

  function Sum(v: seq<real>): real {
    if |v| == 0 then 0.0 else Sum(v[..|v| - 1]) + v[|v| - 1]
  }

  /** Each stage's coefficients add up to its node, whatever the weight
      vector held before: the tableau is consistent. */
  lemma {:induction false} RowSumsAreNodes(w: seq<real>, stage: int)
    requires |w| == 2 && 0 <= stage < 3
    ensures Sum(GetStageDerivativeFactor(w, stage).value[..stage]) == GetStageTimeFactor(stage).value
  {
    var row := GetStageDerivativeFactor(w, stage).value[..stage];
    assert row == Coefficients[stage];
    if stage == 2 {
      assert row[..1] == [-1.0];
    }
  }

  /** The weights add up to one. */
  lemma {:induction false} WeightsSumToOne()
    ensures GetStageWeights(0).value + GetStageWeights(1).value + GetStageWeights(2).value == 1.0
  {
  }

  /** The conditions for order three: sum b c = 1/2, sum b c^2 = 1/3 and
      sum b_i a_ij c_j = 1/6. */
  lemma {:induction false} ThirdOrderConditions()
    ensures Weights[0] * Nodes[0] + Weights[1] * Nodes[1] + Weights[2] * Nodes[2] == 1.0 / 2.0
    ensures Weights[0] * Nodes[0] * Nodes[0] + Weights[1] * Nodes[1] * Nodes[1] + Weights[2] * Nodes[2] * Nodes[2] == 1.0 / 3.0
    ensures Weights[1] * Coefficients[1][0] * Nodes[0]
      + Weights[2] * (Coefficients[2][0] * Nodes[0] + Coefficients[2][1] * Nodes[1]) == 1.0 / 6.0
  {
  }
}
