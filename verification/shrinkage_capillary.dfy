/** `ShrinkageCapillaryStressBased`: the capillary stress of drying
    concrete, a volumetric stress driven by relative humidity and water
    content. The stress values themselves come from a logarithm and physical
    constants and are given as parameters here; what is modelled is which
    combinations, inputs and outputs the law serves and how it fills them. */
module ShrinkageCapillary {
  import opened Wrappers
  import opened NutoEnums
  import opened ConstitutiveBase
  import opened ConstitutiveIO

  /** The one parameter the law has, and every other by its name. */
  datatype Parameter = TEMPERATURE | OtherParameter(name: string)

  datatype Law = Law(temperature: real)

  /** `CheckDofCombinationComputable`: only displacement rows against
      humidity or water-content columns, without time derivative. */
  function CheckDofCombinationComputable(row: Dof, col: Dof, t: nat): (r: bool)
    ensures r ==> t == 0 && row == DISPLACEMENTS
    ensures r <==> (row, col, t) in {(DISPLACEMENTS, RELATIVEHUMIDITY, 0), (DISPLACEMENTS, WATERVOLUMEFRACTION, 0)}
  {
    t == 0 && row == DISPLACEMENTS && (col == RELATIVEHUMIDITY || col == WATERVOLUMEFRACTION)
  }

  /** Attached to a composite law, this law contributes exactly the two
      humidity and water-content couplings, when those dofs exist. */
  lemma {:induction false} ContributedCombinations(id: nat, dofs: set<Dof>, timeDerivatives: nat)
    requires DISPLACEMENTS in dofs && RELATIVEHUMIDITY in dofs && WATERVOLUMEFRACTION in dofs && timeDerivatives > 0
    ensures CombinationsOf(AttachedLaw(id, CheckDofCombinationComputable), dofs, timeDerivatives)
      == {(DISPLACEMENTS, RELATIVEHUMIDITY, 0), (DISPLACEMENTS, WATERVOLUMEFRACTION, 0)}
  {
    var law := AttachedLaw(id, CheckDofCombinationComputable);
    var c := CombinationsOf(law, dofs, timeDerivatives);
    assert law.computable(DISPLACEMENTS, RELATIVEHUMIDITY, 0);
    assert law.computable(DISPLACEMENTS, WATERVOLUMEFRACTION, 0);
    assert (DISPLACEMENTS, RELATIVEHUMIDITY, 0) in c;
    assert (DISPLACEMENTS, WATERVOLUMEFRACTION, 0) in c;
    forall x | x in c
      ensures x in {(DISPLACEMENTS, RELATIVEHUMIDITY, 0), (DISPLACEMENTS, WATERVOLUMEFRACTION, 0)}
    {
      var (row, col, t) := x;
      assert law.computable(row, col, t);
    }
  }

  /** `CheckParameters`: there is nothing to check. */
  function CheckParameters(law: Law): (r: Result<()>)
    ensures r.Success?
  {
    Success(())
  }

  /** The outputs that need humidity and water content as inputs. */
  predicate IsStressOutput(o: Output) {
    o == ENGINEERING_STRESS || o == D_ENGINEERING_STRESS_D_RELATIVE_HUMIDITY
    || o == D_ENGINEERING_STRESS_D_WATER_VOLUME_FRACTION
  }

  /** `GetConstitutiveInputs`: humidity and water content as soon as one of
      the stress outputs is requested, nothing otherwise. */
  function GetConstitutiveInputs(requested: set<Output>): (r: set<Input>)
    ensures (exists o :: o in requested && IsStressOutput(o)) ==> r == {RELATIVE_HUMIDITY, WATER_VOLUME_FRACTION}
    ensures (forall o :: o in requested ==> !IsStressOutput(o)) ==> r == {}
  {
    if ENGINEERING_STRESS in requested || D_ENGINEERING_STRESS_D_RELATIVE_HUMIDITY in requested
       || D_ENGINEERING_STRESS_D_WATER_VOLUME_FRACTION in requested
    then {RELATIVE_HUMIDITY, WATER_VOLUME_FRACTION}
    else {}
  }

  /** `GetParameterDouble`: the temperature; any other parameter throws. */
  function GetParameterDouble(law: Law, p: Parameter): (r: Result<real>)
    ensures r.Success? <==> p == Parameter.TEMPERATURE
    ensures r.Success? ==> r.value == law.temperature
  {
    if p == Parameter.TEMPERATURE then Success(law.temperature) else Failure("Constitutive law does not have the parameter.")
  }

  /** `SetParameterDouble`: the temperature; any other parameter throws. */
  function SetParameterDouble(law: Law, p: Parameter, value: real): (r: Result<Law>)
    ensures r.Success? <==> p == Parameter.TEMPERATURE
  {
    if p == Parameter.TEMPERATURE then Success(law.(temperature := value)) else Failure("Constitutive law does not have the parameter.")
  }

  /** The temperature reads back as set, and setting it to what it reads
      changes nothing. */
  lemma {:induction false} TemperatureRoundTrip(law: Law, value: real)
    ensures GetParameterDouble(SetParameterDouble(law, Parameter.TEMPERATURE, value).value, Parameter.TEMPERATURE) == Success(value)
    ensures SetParameterDouble(law, Parameter.TEMPERATURE, GetParameterDouble(law, Parameter.TEMPERATURE).value) == Success(law)
  {
  }

  /** The number of Voigt components in dimension 1, 2 or 3. */
  function VoigtDim(dim: nat): (r: nat)
    requires 1 <= dim <= 3
    ensures dim <= r
  {
    if dim == 1 then 1 else if dim == 2 then 3 else 6
  }

  /** The three scalar values the law computes from humidity, water content
      and temperature: the capillary stress and its two derivatives. */
  datatype Scalars = Scalars(stress: real, dStressDRelativeHumidity: real, dStressDWaterVolumeFraction: real)

  function ScalarOf(o: Output, x: Scalars): real
    requires IsStressOutput(o)
  {
    if o == ENGINEERING_STRESS then x.stress
    else if o == D_ENGINEERING_STRESS_D_RELATIVE_HUMIDITY then x.dStressDRelativeHumidity
    else x.dStressDWaterVolumeFraction
  }

  /** The first dim components set to x, the others kept: the scalar times
      the Kronecker delta in Voigt form. */
  function Fill(v: seq<real>, dim: nat, x: real): (r: seq<real>)
    requires dim <= |v|
    ensures |r| == |v|
    ensures forall i :: 0 <= i < |v| ==> r[i] == if i < dim then x else v[i]
  {
    seq(|v|, i requires 0 <= i < |v| => if i < dim then x else v[i])
  }

  /** Every stress output requested has the Voigt size of the dimension. */
  predicate VoigtSized(outputs: map<Output, Slot>, dim: nat)
    requires 1 <= dim <= 3
  {
    forall o :: o in outputs && IsStressOutput(o) ==> |outputs[o].value| == VoigtDim(dim)
  }

  /** `EvaluateShrinkageCapillary<TDim>`: each requested stress output has
      its normal components set to its scalar and is flagged calculated;
      every other output is skipped. It always returns SUCCESSFUL. */
  function Evaluate(dim: nat, outputs: map<Output, Slot>, x: Scalars): (r: (ErrorCode, map<Output, Slot>))
    requires 1 <= dim <= 3 && VoigtSized(outputs, dim)
    ensures r.0 == SUCCESSFUL
    ensures r.1.Keys == outputs.Keys
    ensures forall o :: o in outputs && !IsStressOutput(o) ==> r.1[o] == outputs[o]
    ensures forall o :: o in outputs && IsStressOutput(o) ==>
      r.1[o].isCalculated && |r.1[o].value| == |outputs[o].value|
      && (forall i :: 0 <= i < dim ==> r.1[o].value[i] == ScalarOf(o, x))
      && (forall i :: dim <= i < |outputs[o].value| ==> r.1[o].value[i] == outputs[o].value[i])
  {
    (SUCCESSFUL, map o | o in outputs :: if IsStressOutput(o) then Slot(Fill(outputs[o].value, dim, ScalarOf(o, x)), true) else outputs[o])
  }

  /** Evaluating twice gives what evaluating once gives. */
  lemma {:induction false} EvaluateIdempotent(dim: nat, outputs: map<Output, Slot>, x: Scalars)
    requires 1 <= dim <= 3 && VoigtSized(outputs, dim)
    ensures VoigtSized(Evaluate(dim, outputs, x).1, dim)
    ensures Evaluate(dim, Evaluate(dim, outputs, x).1, x) == Evaluate(dim, outputs, x)
  {
    var once := Evaluate(dim, outputs, x).1;
    var twice := Evaluate(dim, once, x).1;
    forall o | o in outputs
      ensures twice[o] == once[o]
    {
      if IsStressOutput(o) {
        assert twice[o].value == once[o].value;
      }
    }
    assert twice == once;
  }

  /** In one dimension the stress is the capillary stress itself. */
  lemma {:induction false} OneDimensionalStress(outputs: map<Output, Slot>, x: Scalars)
    requires ENGINEERING_STRESS in outputs && VoigtSized(outputs, 1)
    ensures Evaluate(1, outputs, x).1[ENGINEERING_STRESS] == Slot([x.stress], true)
  {
    var r := Evaluate(1, outputs, x).1;
    assert |r[ENGINEERING_STRESS].value| == 1;
  }
}
