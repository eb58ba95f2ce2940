/** The shared behaviour of every constitutive law (`ConstitutiveBase`): the
    parameter-validity flag, the dimension dispatch of `Evaluate`, and the
    defaults a law inherits when it does not override them. */
module ConstitutiveBase {
  import opened Wrappers

  /** `NuTo::eError`, as far as the modelled laws return it. */
  datatype ErrorCode = SUCCESSFUL | NOT_IMPLEMENTED | OtherError

  /** The state the base class keeps for every law. */
  datatype LawState = LawState(parametersValid: bool)

  /** History data allocated for an integration point; the base class hands
      out the empty leaf. */
  datatype StaticData = EmptyLeaf | OtherStaticData

  /** The constructor: the parameters are not yet known to be valid. */
  function Construct(): (r: LawState)
    ensures !AreParametersValid(r)
  {
    LawState(false)
  }

  function AreParametersValid(s: LawState): bool {
    s.parametersValid
  }

  /** `SetParametersValid`: the flag records whether the law's
      `CheckParameters` passes (the outcome of that check is a parameter,
      since each law supplies its own). */
  function SetParametersValid(s: LawState, check: Result<()>): (r: LawState)
    ensures AreParametersValid(r) <==> check.Success?
  {
    s.(parametersValid := check.Success?)
  }

  /** `Evaluate<TDim>`: TDim is 1, 2 or 3 at compile time. With invalid
      parameters the law's `CheckParameters` runs first and its exception
      ends the evaluation; otherwise the call goes to the evaluator of the
      matching dimension. The law's check outcome and its three evaluators
      are parameters. */
  function Evaluate<I>(s: LawState, dim: nat, input: I, check: Result<()>,
                       evaluate1D: I -> Result<ErrorCode>,
                       evaluate2D: I -> Result<ErrorCode>,
                       evaluate3D: I -> Result<ErrorCode>): (r: Result<ErrorCode>)
    requires 1 <= dim <= 3
    ensures !AreParametersValid(s) && check.Failure? ==> r.Failure?
    ensures AreParametersValid(s) || check.Success? ==>
      r == (if dim == 1 then evaluate1D(input) else if dim == 2 then evaluate2D(input) else evaluate3D(input))
  {
    if !s.parametersValid && check.Failure? then Failure(check.error)
    else if dim == 1 then evaluate1D(input)
    else if dim == 2 then evaluate2D(input)
    else evaluate3D(input)
  }

  /** With valid parameters the check is skipped: its outcome does not matter. */
  lemma {:induction false} ValidSkipsCheck<I>(s: LawState, dim: nat, input: I, check1: Result<()>, check2: Result<()>,
                           e1: I -> Result<ErrorCode>, e2: I -> Result<ErrorCode>, e3: I -> Result<ErrorCode>)
    requires 1 <= dim <= 3 && AreParametersValid(s)
    ensures Evaluate(s, dim, input, check1, e1, e2, e3) == Evaluate(s, dim, input, check2, e1, e2, e3)
  {
  }

  /** The inherited `Evaluate1D`/`2D`/`3D`: not implemented. */
  function DefaultEvaluate<I>(input: I): (r: Result<ErrorCode>)
    ensures r.Success? && r.value == NOT_IMPLEMENTED
  {
    Success(NOT_IMPLEMENTED)
  }

  /** A law that overrides no evaluator answers NOT_IMPLEMENTED in every
      dimension, unless its parameter check throws first. */
  lemma {:induction false} DefaultsNotImplemented<I>(s: LawState, dim: nat, input: I, check: Result<()>)
    requires 1 <= dim <= 3
    ensures var r := Evaluate(s, dim, input, check, DefaultEvaluate, DefaultEvaluate, DefaultEvaluate);
      r.Failure? || r.value == NOT_IMPLEMENTED
    ensures Evaluate(s, dim, input, check, DefaultEvaluate, DefaultEvaluate, DefaultEvaluate).Failure?
      <==> !AreParametersValid(s) && check.Failure?
  {
  }

  /** `AllocateStaticData1D`/`2D`/`3D` by default: an empty leaf. */
  function AllocateStaticData(dim: nat): (r: StaticData)
    requires 1 <= dim <= 3
    ensures r.EmptyLeaf?
  {
    EmptyLeaf
  }
}
