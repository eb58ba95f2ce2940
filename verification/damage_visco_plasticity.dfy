/** The linear-elastic behaviour of `DamageViscoPlasticityEngineeringStress`:
    its material parameters and their checks, the isotropic coefficients,
    and the 3D evaluation of stress, tangent and the trivial outputs. The
    return mapping is an empty stub in the code and is not modelled. */
module DamageViscoPlasticityEngineeringStress {
  import opened Wrappers
  import opened NutoEnums
  import opened ConstitutiveBase

  /** The material parameters and the base-class state. */
  datatype Law = Law(
    youngsModulus: real,
    poissonsRatio: real,
    density: real,
    thermalExpansionCoefficient: real,
    tensileStrength: real,
    compressiveStrength: real,
    biaxialCompressiveStrength: real,
    state: LawState)

  datatype Parameter =
    | Density | YoungsModulus | PoissonsRatio | ThermalExpansionCoefficient
    | TensileStrength | CompressiveStrength | BiaxialCompressiveStrength

  function Get(law: Law, p: Parameter): real {
    match p
    case Density => law.density
    case YoungsModulus => law.youngsModulus
    case PoissonsRatio => law.poissonsRatio
    case ThermalExpansionCoefficient => law.thermalExpansionCoefficient
    case TensileStrength => law.tensileStrength
    case CompressiveStrength => law.compressiveStrength
    case BiaxialCompressiveStrength => law.biaxialCompressiveStrength
  }

  /** The values each check refuses. */
  predicate Rejects(law: Law, p: Parameter, value: real) {
    match p
    case Density => value < 0.0
    case YoungsModulus => value < 0.0
    case PoissonsRatio => value <= -1.0 || value >= 0.5
    case ThermalExpansionCoefficient => false
    case TensileStrength => value <= 0.0
    case CompressiveStrength => value <= 0.0
    case BiaxialCompressiveStrength => value <= 0.0 || value <= law.compressiveStrength
  }

  /** The value checks (`CheckDensity` ... `CheckBiaxialCompressiveStrength`).
      The biaxial check compares against the compressive strength stored at
      the time of the call. */
  function CheckValue(law: Law, p: Parameter, value: real): (r: Result<()>)
    ensures r.Failure? <==> Rejects(law, p, value)
  {
    if Rejects(law, p, value) then Failure(RejectionMessage(p)) else Success(())
  }

  function RejectionMessage(p: Parameter): string {
    match p
    case Density => "The density must be a positive value."
    case YoungsModulus => "The Young's modulus must be a non-negative value."
    case PoissonsRatio => "Poisson's ratio must lie between -1.0 and 0.5."
    case ThermalExpansionCoefficient => ""
    case TensileStrength => "The tensile strength must be a positive value."
    case CompressiveStrength => "The compressive strength must be a positive value."
    case BiaxialCompressiveStrength => "The biaxial compressive strength must be positive and higher than the uniaxial one."
  }

  /** The elastic parameters `CheckParameters` accepts. */
  predicate ElasticValid(law: Law) {
    law.youngsModulus >= 0.0 && -1.0 < law.poissonsRatio < 0.5 && law.density >= 0.0
  }

  /** `CheckParameters`: Young's modulus, Poisson's ratio, density and the
      thermal expansion coefficient, in that order. The strengths are not
      checked. */
  function CheckParameters(law: Law): (r: Result<()>)
    ensures r.Success? <==> ElasticValid(law)
  {
    match CheckValue(law, YoungsModulus, law.youngsModulus)
    case Failure(m) => Failure(m)
    case Success(_) =>
      match CheckValue(law, PoissonsRatio, law.poissonsRatio)
      case Failure(m) => Failure(m)
      case Success(_) =>
        match CheckValue(law, Density, law.density)
        case Failure(m) => Failure(m)
        case Success(_) => CheckValue(law, ThermalExpansionCoefficient, law.thermalExpansionCoefficient)
  }

  /** The flag is only ever set by a passing check. */
  predicate Consistent(law: Law) {
    AreParametersValid(law.state) ==> ElasticValid(law)
  }

  /** The constructor: every parameter 0 except the thermal expansion
      coefficient, which the constructor leaves uninitialised and is a
      parameter here; then `SetParametersValid`, which passes. */
  function Create(thermalExpansionCoefficient: real): (r: Law)
    ensures forall p :: p != ThermalExpansionCoefficient ==> Get(r, p) == 0.0
    ensures Get(r, ThermalExpansionCoefficient) == thermalExpansionCoefficient
    ensures AreParametersValid(r.state) && Consistent(r)
  {
    var law := Law(0.0, 0.0, 0.0, thermalExpansionCoefficient, 0.0, 0.0, 0.0, Construct());
    law.(state := SetParametersValid(law.state, CheckParameters(law)))
  }

  /** The default law passes `CheckParameters` although its strengths would
      each be rejected by their setters. */
  lemma {:induction false} DefaultStrengthsUnchecked(alpha: real)
    ensures CheckParameters(Create(alpha)).Success?
    ensures CheckValue(Create(alpha), TensileStrength, Get(Create(alpha), TensileStrength)).Failure?
  {
  }

  function Assign(law: Law, p: Parameter, value: real): (r: Law)
    ensures r.state == law.state
    ensures forall q :: Get(r, q) == if q == p then value else Get(law, q)
  {
    match p
    case Density => law.(density := value)
    case YoungsModulus => law.(youngsModulus := value)
    case PoissonsRatio => law.(poissonsRatio := value)
    case ThermalExpansionCoefficient => law.(thermalExpansionCoefficient := value)
    case TensileStrength => law.(tensileStrength := value)
    case CompressiveStrength => law.(compressiveStrength := value)
    case BiaxialCompressiveStrength => law.(biaxialCompressiveStrength := value)
  }

  /** The setters: a value its check rejects throws before anything is
      updated; an accepted value replaces the parameter, leaves the others
      alone and the validity flag is recomputed. */
  function Set(law: Law, p: Parameter, value: real): (r: Result<Law>)
    ensures r.Success? <==> CheckValue(law, p, value).Success?
    ensures r.Success? ==> forall q :: Get(r.value, q) == if q == p then value else Get(law, q)
    ensures r.Success? ==> (AreParametersValid(r.value.state) <==> ElasticValid(r.value))
  {
    var check := CheckValue(law, p, value);
    if check.Failure? then Failure(check.error)
    else
      var updated := Assign(law, p, value);
      Success(updated.(state := SetParametersValid(updated.state, CheckParameters(updated))))
  }

  /** Starting from a law whose elastic parameters pass, every accepted
      setter call keeps them passing and the flag set. */
  lemma {:induction false} SetKeepsValid(law: Law, p: Parameter, value: real)
    requires ElasticValid(law)
    requires Set(law, p, value).Success?
    ensures ElasticValid(Set(law, p, value).value)
    ensures AreParametersValid(Set(law, p, value).value.state)
  {
    var r := Set(law, p, value).value;
    assert CheckValue(law, p, value).Success?;
    assert Get(r, YoungsModulus) == Get(law, YoungsModulus) || p == YoungsModulus;
    assert Get(r, PoissonsRatio) == Get(law, PoissonsRatio) || p == PoissonsRatio;
    assert Get(r, Density) == Get(law, Density) || p == Density;
  }

  /** The biaxial strength is compared with the compressive strength only
      when the biaxial strength is set: lowering it is caught, raising the
      compressive strength past it afterwards is not. */
  lemma {:induction false} CompressiveSetterSkipsBiaxialCheck()
    ensures var law := Create(0.0);
      var a := Set(law, CompressiveStrength, 1.0);
      a.Success? && Set(a.value, BiaxialCompressiveStrength, 2.0).Success?
      && Set(Set(a.value, BiaxialCompressiveStrength, 2.0).value, CompressiveStrength, 3.0).Success?
      && Set(a.value, BiaxialCompressiveStrength, 0.5).Failure?
  {
    var law := Create(0.0);
    var a := Set(law, CompressiveStrength, 1.0);
    assert Get(a.value, CompressiveStrength) == 1.0;
    var b := Set(a.value, BiaxialCompressiveStrength, 2.0);
    assert b.Success?;
  }

  /** The isotropic coefficients C11, C12 and C44 (or C33 in plane stress). */
  datatype Coefficients = Coefficients(c11: real, c12: real, c44: real)

  /** `CalculateCoefficients3D`, for Poisson ratios the checks admit. */
  function Coefficients3D(e: real, nu: real): (r: Coefficients)
    requires -1.0 < nu < 0.5
    ensures r.c11 * ((1.0 + nu) * (1.0 - 2.0 * nu)) == e * (1.0 - nu)
    ensures r.c12 * ((1.0 + nu) * (1.0 - 2.0 * nu)) == e * nu
    ensures r.c44 * (2.0 * (1.0 + nu)) == e
    ensures r.c11 - r.c12 == 2.0 * r.c44
  {
    var d := (1.0 + nu) * (1.0 - 2.0 * nu);
    assert d > 0.0;
    var factor := e / d;
    var r := Coefficients(factor * (1.0 - nu), factor * nu, e / (2.0 * (1.0 + nu)));
    IsotropyRelation(e, nu, d, factor, r.c44);
    r
  }

  lemma {:induction false} IsotropyRelation(e: real, nu: real, d: real, factor: real, c44: real)
    requires -1.0 < nu < 0.5 && d == (1.0 + nu) * (1.0 - 2.0 * nu) && factor == e / d
    requires c44 == e / (2.0 * (1.0 + nu))
    ensures factor * (1.0 - nu) - factor * nu == 2.0 * c44
  {
    assert d > 0.0;
    assert factor * d == e;
    var x := factor * (1.0 - 2.0 * nu);
    assert x * (1.0 + nu) == e;
    assert (2.0 * c44) * (1.0 + nu) == e;
    assert (x - 2.0 * c44) * (1.0 + nu) == 0.0;
  }

  /** `CalculateCoefficients2DPlainStress`. */
  function CoefficientsPlaneStress(e: real, nu: real): (r: Coefficients)
    requires -1.0 < nu < 0.5
    ensures r.c11 * (1.0 - nu * nu) == e
    ensures r.c12 == nu * r.c11
    ensures r.c11 - r.c12 == 2.0 * r.c44
  {
    assert 1.0 - nu * nu > 0.0;
    var factor := e / (1.0 - nu * nu);
    Coefficients(factor, factor * nu, factor * 0.5 * (1.0 - nu))
  }

  /** Engineering strains and stresses in Voigt order xx, yy, zz, yz, zx, xy. */
  predicate IsVoigt(v: seq<real>) {
    |v| == 6
  }

  function Dot6(a: seq<real>, b: seq<real>): real
    requires IsVoigt(a) && IsVoigt(b)
  {
    a[0] * b[0] + a[1] * b[1] + a[2] * b[2] + a[3] * b[3] + a[4] * b[4] + a[5] * b[5]
  }

  /** The 6x6 linear-elastic tangent that `Evaluate3D` reports. */
  function Tangent(c: Coefficients): (m: seq<seq<real>>)
    ensures |m| == 6 && forall i :: 0 <= i < 6 ==> |m[i]| == 6
    ensures forall i, j :: 0 <= i < 6 && 0 <= j < 6 ==> m[i][j] == m[j][i]
    ensures forall i, j :: 0 <= i < 3 && 0 <= j < 3 ==> m[i][j] == if i == j then c.c11 else c.c12
    ensures forall i, j :: 3 <= i < 6 && 0 <= j < 6 ==> m[i][j] == if i == j then c.c44 else 0.0
  {
    [[c.c11, c.c12, c.c12, 0.0, 0.0, 0.0],
     [c.c12, c.c11, c.c12, 0.0, 0.0, 0.0],
     [c.c12, c.c12, c.c11, 0.0, 0.0, 0.0],
     [0.0, 0.0, 0.0, c.c44, 0.0, 0.0],
     [0.0, 0.0, 0.0, 0.0, c.c44, 0.0],
     [0.0, 0.0, 0.0, 0.0, 0.0, c.c44]]
  }

  /** The linear-elastic stress `Evaluate3D` computes from an elastic strain. */
  function Stress(c: Coefficients, e: seq<real>): (s: seq<real>)
    requires IsVoigt(e)
    ensures IsVoigt(s)
  {
    [c.c11 * e[0] + c.c12 * (e[1] + e[2]),
     c.c11 * e[1] + c.c12 * (e[0] + e[2]),
     c.c11 * e[2] + c.c12 * (e[0] + e[1]),
     c.c44 * e[3],
     c.c44 * e[4],
     c.c44 * e[5]]
  }

  /** The stress is the tangent applied to the strain. */
  lemma {:induction false} StressIsTangentTimesStrain(c: Coefficients, e: seq<real>, i: nat)
    requires IsVoigt(e) && i < 6
    ensures Stress(c, e)[i] == Dot6(Tangent(c)[i], e)
  {
    var m := Tangent(c);
    if i == 0 {
      assert m[0] == [c.c11, c.c12, c.c12, 0.0, 0.0, 0.0];
    } else if i == 1 {
      assert m[1] == [c.c12, c.c11, c.c12, 0.0, 0.0, 0.0];
    } else if i == 2 {
      assert m[2] == [c.c12, c.c12, c.c11, 0.0, 0.0, 0.0];
    }
  }

  /** The strain of free thermal expansion: αT on each normal component. */
  function ThermalStrain(alpha: real, temperature: real): (t: seq<real>)
    ensures IsVoigt(t)
  {
    var d := alpha * temperature;
    [d, d, d, 0.0, 0.0, 0.0]
  }

  function Minus(a: seq<real>, b: seq<real>): (r: seq<real>)
    requires IsVoigt(a) && IsVoigt(b)
    ensures IsVoigt(r) && forall i :: 0 <= i < 6 ==> r[i] == a[i] - b[i]
  {
    [a[0] - b[0], a[1] - b[1], a[2] - b[2], a[3] - b[3], a[4] - b[4], a[5] - b[5]]
  }

  /** The outputs `Evaluate3D` is asked for, in the map's order. */
  datatype Output =
    | ENGINEERING_STRESS_3D | D_ENGINEERING_STRESS_D_ENGINEERING_STRAIN_3D
    | ENGINEERING_STRAIN_3D | ENGINEERING_PLASTIC_STRAIN_3D | DAMAGE
    | UPDATE_TMP_STATIC_DATA | UPDATE_STATIC_DATA
    | OtherOutput(name: string)

  datatype OutputValue = Vector(v: seq<real>) | Matrix(m: seq<seq<real>>) | Scalar(d: real) | NoValue

  /** The inputs: the engineering strain of the 3D deformation gradient and
      the temperature, each present or not. */
  datatype Inputs = Inputs(strain: Option<seq<real>>, temperature: Option<real>)

  /** An output `Evaluate3D` can produce with these inputs: a known kind,
      and for the stress a temperature whenever the section makes it an
      input. */
  predicate Producible(o: Output, temperatureIsInput: bool, inputs: Inputs) {
    !o.OtherOutput? && (o == ENGINEERING_STRESS_3D && temperatureIsInput ==> inputs.temperature.Some?)
  }

  /** The values for the outputs, given the strain the stress is computed
      from. */
  function OutputValues(c: Coefficients, strain: seq<real>, stressStrain: seq<real>,
                        temperatureIsInput: bool, inputs: Inputs, outputs: seq<Output>): (r: Result<seq<OutputValue>>)
    requires IsVoigt(strain) && IsVoigt(stressStrain)
    ensures r.Success? <==> forall i :: 0 <= i < |outputs| ==> Producible(outputs[i], temperatureIsInput, inputs)
    ensures r.Success? ==> |r.value| == |outputs|
    ensures r.Success? ==> forall i :: 0 <= i < |outputs| ==>
      r.value[i] == match outputs[i]
        case ENGINEERING_STRESS_3D => Vector(Stress(c, stressStrain))
        case D_ENGINEERING_STRESS_D_ENGINEERING_STRAIN_3D => Matrix(Tangent(c))
        case ENGINEERING_STRAIN_3D => Vector(strain)
        case ENGINEERING_PLASTIC_STRAIN_3D => Vector([0.0, 0.0, 0.0, 0.0, 0.0, 0.0])
        case DAMAGE => Scalar(0.0)
        case _ => NoValue
    decreases |outputs|
  {
    if |outputs| == 0 then Success([])
    else
      var front := OutputValues(c, strain, stressStrain, temperatureIsInput, inputs, outputs[..|outputs| - 1]);
      var o := outputs[|outputs| - 1];
      if front.Failure? then
        assert forall i :: 0 <= i < |outputs| - 1 ==> outputs[..|outputs| - 1][i] == outputs[i];
        Failure(front.error)
      else if o.OtherOutput? then Failure("output object could not be calculated")
      else if o == ENGINEERING_STRESS_3D && temperatureIsInput && inputs.temperature.None? then
        Failure("temperature needed to evaluate thermal engineering strain3d.")
      else
        var v := match o
          case ENGINEERING_STRESS_3D => Vector(Stress(c, stressStrain))
          case D_ENGINEERING_STRESS_D_ENGINEERING_STRAIN_3D => Matrix(Tangent(c))
          case ENGINEERING_STRAIN_3D => Vector(strain)
          case ENGINEERING_PLASTIC_STRAIN_3D => Vector([0.0, 0.0, 0.0, 0.0, 0.0, 0.0])
          case DAMAGE => Scalar(0.0)
          case _ => NoValue;
        Success(front.value + [v])
  }

  /** The check `Evaluate3D` runs first: `CheckParameters` when the flag is
      not set. */
  predicate PassesCheck(law: Law) {
    AreParametersValid(law.state) || CheckParameters(law).Success?
  }

  /** The strain the stress is computed from: with temperature as an input,
      the total strain less the free thermal expansion. */
  function ElasticStrain(law: Law, strain: seq<real>, temperatureIsInput: bool, inputs: Inputs): (e: seq<real>)
    requires IsVoigt(strain)
    ensures IsVoigt(e)
  {
    if temperatureIsInput && inputs.temperature.Some? then
      Minus(strain, ThermalStrain(law.thermalExpansionCoefficient, inputs.temperature.value))
    else strain
  }

  /** `Evaluate3D`: fails when the parameter check throws, without a
      deformation gradient input, or for an output it cannot produce;
      otherwise answers SUCCESSFUL with one value per output. */
  function Evaluate3D(law: Law, temperatureIsInput: bool, inputs: Inputs, outputs: seq<Output>): (r: Result<(ErrorCode, seq<OutputValue>)>)
    requires Consistent(law)
    requires inputs.strain.Some? ==> IsVoigt(inputs.strain.value)
    ensures r.Success? <==>
      PassesCheck(law) && inputs.strain.Some?
      && forall i :: 0 <= i < |outputs| ==> Producible(outputs[i], temperatureIsInput, inputs)
    ensures r.Success? ==> r.value.0 == SUCCESSFUL && |r.value.1| == |outputs|
    ensures r.Success? ==> forall i :: 0 <= i < |outputs| && outputs[i] == ENGINEERING_STRESS_3D ==>
      r.value.1[i] == Vector(Stress(Coefficients3D(law.youngsModulus, law.poissonsRatio),
                                    ElasticStrain(law, inputs.strain.value, temperatureIsInput, inputs)))
  {
    EvaluateWith(law, temperatureIsInput, inputs, outputs, true)
  }

  /** `Evaluate3D` as written: the temperature branch subtracts the thermal
      strain from a fresh local variable that shadows the elastic strain,
      so the stress is always computed from the total strain. */
  function Evaluate3DAsWritten(law: Law, temperatureIsInput: bool, inputs: Inputs, outputs: seq<Output>): (r: Result<(ErrorCode, seq<OutputValue>)>)
    requires Consistent(law)
    requires inputs.strain.Some? ==> IsVoigt(inputs.strain.value)
    ensures r.Success? <==> Evaluate3D(law, temperatureIsInput, inputs, outputs).Success?
    ensures r.Success? ==> r.value.0 == SUCCESSFUL && |r.value.1| == |outputs|
    ensures r.Success? ==> forall i :: 0 <= i < |outputs| && outputs[i] == ENGINEERING_STRESS_3D ==>
      r.value.1[i] == Vector(Stress(Coefficients3D(law.youngsModulus, law.poissonsRatio), inputs.strain.value))
  {
    EvaluateWith(law, temperatureIsInput, inputs, outputs, false)
  }

  function EvaluateWith(law: Law, temperatureIsInput: bool, inputs: Inputs, outputs: seq<Output>, subtractThermal: bool): (r: Result<(ErrorCode, seq<OutputValue>)>)
    requires Consistent(law)
    requires inputs.strain.Some? ==> IsVoigt(inputs.strain.value)
    ensures r.Success? <==>
      PassesCheck(law) && inputs.strain.Some?
      && forall i :: 0 <= i < |outputs| ==> Producible(outputs[i], temperatureIsInput, inputs)
    ensures r.Success? ==> r.value.0 == SUCCESSFUL && |r.value.1| == |outputs|
    ensures r.Success? ==> forall i :: 0 <= i < |outputs| && outputs[i] == ENGINEERING_STRESS_3D ==>
      r.value.1[i] == Vector(Stress(Coefficients3D(law.youngsModulus, law.poissonsRatio),
        if subtractThermal then ElasticStrain(law, inputs.strain.value, temperatureIsInput, inputs) else inputs.strain.value))
  {
    if !PassesCheck(law) then Failure(CheckParameters(law).error)
    else if inputs.strain.None? then Failure("deformation gradient 3d needed to evaluate engineering strain3d.")
    else
      var strain := inputs.strain.value;
      var c := Coefficients3D(law.youngsModulus, law.poissonsRatio);
      var stressStrain := if subtractThermal then ElasticStrain(law, strain, temperatureIsInput, inputs) else strain;
      match OutputValues(c, strain, stressStrain, temperatureIsInput, inputs, outputs)
      case Failure(m) => Failure(m)
      case Success(values) => Success((SUCCESSFUL, values))
  }

  /** With temperature as an input, a strain that is exactly the free
      thermal expansion gives zero stress. */
  lemma {:induction false} FreeThermalExpansionIsStressFree(law: Law, temperature: real, i: nat)
    requires Consistent(law) && PassesCheck(law)
    requires i < 6
    ensures var inputs := Inputs(Some(ThermalStrain(law.thermalExpansionCoefficient, temperature)), Some(temperature));
      var r := Evaluate3D(law, true, inputs, [ENGINEERING_STRESS_3D]);
      r.Success? && r.value.1[0].Vector? && r.value.1[0].v[i] == 0.0
  {
    var inputs := Inputs(Some(ThermalStrain(law.thermalExpansionCoefficient, temperature)), Some(temperature));
    var e := ElasticStrain(law, inputs.strain.value, true, inputs);
    assert e[0] == 0.0 && e[1] == 0.0 && e[2] == 0.0 && e[3] == 0.0 && e[4] == 0.0 && e[5] == 0.0;
    assert Producible(ENGINEERING_STRESS_3D, true, inputs);
  }

  /** As written, the same free thermal expansion is stressed: for E = 1,
      ν = 0, α = 1 and a temperature of 1 the normal stress is 1, not 0. */
  lemma {:induction false} AsWrittenStressesFreeExpansion()
    ensures var law := Law(1.0, 0.0, 0.0, 1.0, 0.0, 0.0, 0.0, LawState(true));
      var inputs := Inputs(Some(ThermalStrain(1.0, 1.0)), Some(1.0));
      var r := Evaluate3DAsWritten(law, true, inputs, [ENGINEERING_STRESS_3D]);
      r.Success? && r.value.1[0] == Vector([1.0, 1.0, 1.0, 0.0, 0.0, 0.0])
  {
    var law := Law(1.0, 0.0, 0.0, 1.0, 0.0, 0.0, 0.0, LawState(true));
    var c := Coefficients3D(1.0, 0.0);
    assert c.c11 == 1.0 && c.c12 == 0.0;
    var inputs := Inputs(Some(ThermalStrain(1.0, 1.0)), Some(1.0));
    assert Producible(ENGINEERING_STRESS_3D, true, inputs);
  }

  /** `Evaluate1D` and `Evaluate2D` are not implemented and throw. */
  function Evaluate1D(law: Law): (r: Result<ErrorCode>)
    ensures r.Failure?
  {
    Failure("not implemented for 1D.")
  }

  function Evaluate2D(law: Law): (r: Result<ErrorCode>)
    ensures r.Failure?
  {
    Failure("not implemented for 2D.")
  }

  /** The element types the law may be updated to. */
  const CompatibleElements: set<ElementType> :=
    {BRICK8N, PLANE2D10N, PLANE2D3N, PLANE2D4N, PLANE2D4NSPECTRALORDER2, PLANE2D4NSPECTRALORDER3,
     PLANE2D4NSPECTRALORDER4, PLANE2D6N, TETRAHEDRON4N, TETRAHEDRON10N, TRUSS1D2N, TRUSS1D3N}

  /** `CheckElementCompatibility`. */
  function CheckElementCompatibility(t: ElementType): (r: bool)
    ensures r <==> t in CompatibleElements
  {
    match t
    case BOUNDARYGRADIENTDAMAGE1D => false
    case OtherElementType => false
    case _ => true
  }
}
