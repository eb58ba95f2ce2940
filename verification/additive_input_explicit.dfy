/** `AdditiveInputExplicit`: a composite law with one output law and any
    number of modifying laws. Each modifying law is evaluated first; the
    engineering strain it reports is subtracted from the strain handed to the
    output law, and the stress derivatives with respect to humidity, water
    content and temperature are assembled from the output law's tangent and
    the modifiers' strain derivatives. The attached laws are not modelled;
    what they report is given. */
module AdditiveInputExplicit {
  import opened Wrappers
  import opened NutoEnums
  import opened ConstitutiveBase
  import opened ConstitutiveIO

  /** A modifying law and the input it modifies. */
  datatype Modifier = Modifier(law: AttachedLaw, input: Input)

  /** The output law (if attached yet), the modifying laws in the order they
      were attached, the set of modified inputs, every attached law in order
      (for the dof combinations), the union of their computable
      combinations, and whether static data have been handed out. */
  datatype State = State(outputLaw: Option<AttachedLaw>, modifiers: seq<Modifier>, modifiedInputs: set<Input>,
                         attached: seq<AttachedLaw>, combinations: set<Combination>, staticDataAllocated: bool)

  /** The modified-input set is exactly the set of inputs the modifying laws
      modify, and NONE is never among them. */
  ghost predicate Consistent(s: State) {
    NONE !in s.modifiedInputs
    && forall x :: x in s.modifiedInputs <==> exists i :: 0 <= i < |s.modifiers| && s.modifiers[i].input == x
  }

  function Create(): (r: State)
    ensures r.outputLaw.None? && r.modifiers == [] && !r.staticDataAllocated && Consistent(r)
    ensures forall dofs, timeDerivatives :: RecordsLaws(r.combinations, r.attached, dofs, timeDerivatives)
  {
    State(None, [], {}, [], {}, false)
  }

  /** `AddConstitutiveLaw(law, input)`: refused once static data exist. With
      NONE the law becomes the output law, and a second such law is refused;
      otherwise the law joins the modifying laws and its input the modified
      inputs. Either way its computable combinations are added. */
  function AddConstitutiveLaw(s: State, law: AttachedLaw, input: Input, dofs: set<Dof>, timeDerivatives: nat): (r: Result<State>)
    ensures r.Failure? <==> s.staticDataAllocated || (input == NONE && s.outputLaw.Some?)
    ensures r.Success? && input == NONE ==>
      r.value.outputLaw == Some(law) && r.value.modifiers == s.modifiers && r.value.modifiedInputs == s.modifiedInputs
    ensures r.Success? && input != NONE ==>
      r.value.outputLaw == s.outputLaw && r.value.modifiers == s.modifiers + [Modifier(law, input)]
      && r.value.modifiedInputs == s.modifiedInputs + {input}
    ensures r.Success? ==> r.value.attached == s.attached + [law] && !r.value.staticDataAllocated
    ensures r.Success? && RecordsLaws(s.combinations, s.attached, dofs, timeDerivatives) ==>
      RecordsLaws(r.value.combinations, r.value.attached, dofs, timeDerivatives)
  {
    if s.staticDataAllocated then Failure("All constitutive laws have to be attached before static data is allocated!")
    else if input == NONE && s.outputLaw.Some? then Failure("There can be only one law which calculates the output.")
    else
      RecordsAddedLaw(s.combinations, s.attached, law, dofs, timeDerivatives);
      var combinations := s.combinations + CombinationsOf(law, dofs, timeDerivatives);
      var attached := s.attached + [law];
      if input == NONE then
        Success(s.(outputLaw := Some(law), attached := attached, combinations := combinations))
      else
        Success(s.(modifiers := s.modifiers + [Modifier(law, input)], modifiedInputs := s.modifiedInputs + {input},
                   attached := attached, combinations := combinations))
  }

  /** Attaching a law keeps the modified-input set in step with the
      modifying laws. */
  lemma {:induction false} AddKeepsConsistent(s: State, law: AttachedLaw, input: Input, dofs: set<Dof>, timeDerivatives: nat)
    requires Consistent(s)
    ensures var r := AddConstitutiveLaw(s, law, input, dofs, timeDerivatives);
      r.Success? ==> Consistent(r.value)
  {
    var r := AddConstitutiveLaw(s, law, input, dofs, timeDerivatives);
    if r.Success? && input != NONE {
      var t := r.value;
      assert t.modifiers[|s.modifiers|].input == input;
      forall x | x in t.modifiedInputs
        ensures exists i :: 0 <= i < |t.modifiers| && t.modifiers[i].input == x
      {
        if x != input {
          var i :| 0 <= i < |s.modifiers| && s.modifiers[i].input == x;
          assert t.modifiers[i] == s.modifiers[i];
        }
      }
      forall x | exists i :: 0 <= i < |t.modifiers| && t.modifiers[i].input == x
        ensures x in t.modifiedInputs
      {
        var i :| 0 <= i < |t.modifiers| && t.modifiers[i].input == x;
        if i < |s.modifiers| {
          assert t.modifiers[i] == s.modifiers[i];
        }
      }
    }
  }

  /** There is only one output law: once one is attached, attaching another
      with NONE fails whatever else was attached in between. */
  lemma {:induction false} OnlyOneOutputLaw(s: State, law: AttachedLaw, other: AttachedLaw, dofs: set<Dof>, timeDerivatives: nat)
    requires AddConstitutiveLaw(s, law, NONE, dofs, timeDerivatives).Success?
    ensures AddConstitutiveLaw(AddConstitutiveLaw(s, law, NONE, dofs, timeDerivatives).value, other, NONE, dofs, timeDerivatives).Failure?
  {
  }

  /** `CheckDofCombinationComputable`: for a state built by the operations
      above, a combination is computable exactly when some attached law
      (output or modifying) reports it computable. */
  function CheckDofCombinationComputable(s: State, row: Dof, col: Dof, t: nat, dofs: set<Dof>, timeDerivatives: nat): (r: bool)
    requires RecordsLaws(s.combinations, s.attached, dofs, timeDerivatives)
    requires row in dofs && col in dofs && t < timeDerivatives
    ensures r <==> exists i :: 0 <= i < |s.attached| && s.attached[i].computable(row, col, t)
  {
    (row, col, t) in s.combinations
  }

  /** The stress derivatives assembled from the output law's tangent. */
  predicate IsStressDerivative(o: Output) {
    o == D_ENGINEERING_STRESS_D_RELATIVE_HUMIDITY || o == D_ENGINEERING_STRESS_D_WATER_VOLUME_FRACTION
    || o == D_ENGINEERING_STRESS_D_TEMPERATURE
  }

  /** The strain derivatives the modifying laws supply. */
  predicate IsStrainDerivative(o: Output) {
    o == D_ENGINEERING_STRAIN_D_RELATIVE_HUMIDITY || o == D_ENGINEERING_STRAIN_D_WATER_VOLUME_FRACTION
    || o == D_STRAIN_D_TEMPERATURE
  }

  /** The strain derivative a stress derivative is assembled from. */
  function FactorOf(d: Output): (r: Output)
    requires IsStressDerivative(d)
    ensures IsStrainDerivative(r) && StressDerivativeOf(r) == d
  {
    match d
    case D_ENGINEERING_STRESS_D_RELATIVE_HUMIDITY => D_ENGINEERING_STRAIN_D_RELATIVE_HUMIDITY
    case D_ENGINEERING_STRESS_D_WATER_VOLUME_FRACTION => D_ENGINEERING_STRAIN_D_WATER_VOLUME_FRACTION
    case D_ENGINEERING_STRESS_D_TEMPERATURE => D_STRAIN_D_TEMPERATURE
  }

  /** The stress derivative a strain derivative serves. */
  function StressDerivativeOf(f: Output): (r: Output)
    requires IsStrainDerivative(f)
    ensures IsStressDerivative(r)
  {
    match f
    case D_ENGINEERING_STRAIN_D_RELATIVE_HUMIDITY => D_ENGINEERING_STRESS_D_RELATIVE_HUMIDITY
    case D_ENGINEERING_STRAIN_D_WATER_VOLUME_FRACTION => D_ENGINEERING_STRESS_D_WATER_VOLUME_FRACTION
    case D_STRAIN_D_TEMPERATURE => D_ENGINEERING_STRESS_D_TEMPERATURE
  }

  /** The outputs the evaluation reads are sized for dimension n: vectors of
      n components and the tangent as an n×n matrix stored by rows. */
  predicate Sized(m: map<Output, Slot>, n: nat) {
    (Output.ENGINEERING_STRAIN in m ==> |m[Output.ENGINEERING_STRAIN].value| == n)
    && (D_ENGINEERING_STRAIN_D_RELATIVE_HUMIDITY in m ==> |m[D_ENGINEERING_STRAIN_D_RELATIVE_HUMIDITY].value| == n)
    && (D_ENGINEERING_STRAIN_D_WATER_VOLUME_FRACTION in m ==> |m[D_ENGINEERING_STRAIN_D_WATER_VOLUME_FRACTION].value| == n)
    && (D_STRAIN_D_TEMPERATURE in m ==> |m[D_STRAIN_D_TEMPERATURE].value| == n)
    && (D_ENGINEERING_STRESS_D_ENGINEERING_STRAIN in m ==> |m[D_ENGINEERING_STRESS_D_ENGINEERING_STRAIN].value| == n * n)
  }

  /** The same sizing for what a law writes. */
  predicate WritesSized(w: map<Output, seq<real>>, n: nat) {
    (Output.ENGINEERING_STRAIN in w ==> |w[Output.ENGINEERING_STRAIN]| == n)
    && (D_ENGINEERING_STRAIN_D_RELATIVE_HUMIDITY in w ==> |w[D_ENGINEERING_STRAIN_D_RELATIVE_HUMIDITY]| == n)
    && (D_ENGINEERING_STRAIN_D_WATER_VOLUME_FRACTION in w ==> |w[D_ENGINEERING_STRAIN_D_WATER_VOLUME_FRACTION]| == n)
    && (D_STRAIN_D_TEMPERATURE in w ==> |w[D_STRAIN_D_TEMPERATURE]| == n)
    && (D_ENGINEERING_STRESS_D_ENGINEERING_STRAIN in w ==> |w[D_ENGINEERING_STRESS_D_ENGINEERING_STRAIN]| == n * n)
  }

  /** A sized map has every strain derivative it holds sized. */
  lemma {:induction false} SizedFactor(m: map<Output, Slot>, n: nat, f: Output)
    requires Sized(m, n) && IsStrainDerivative(f) && f in m
    ensures |m[f].value| == n
  {
  }

  /** A freshly made output: zero and not calculated. */
  function Fresh(n: nat): (r: Slot)
    ensures |r.value| == n && !r.isCalculated
  {
    Slot(Zeros(n), false)
  }

  /** Before a law that modifies the strain runs, the strain derivative
      behind each requested stress derivative is made afresh. */
  predicate Refreshed(o: Output, m: map<Output, Slot>, input: Input) {
    input == Input.ENGINEERING_STRAIN && IsStrainDerivative(o) && StressDerivativeOf(o) in m
  }

  function Refresh(m: map<Output, Slot>, d: Output, input: Input, n: nat): map<Output, Slot>
    requires IsStressDerivative(d)
  {
    if d in m && input == Input.ENGINEERING_STRAIN then m[FactorOf(d) := Fresh(n)] else m
  }

  function Prepare(m: map<Output, Slot>, input: Input, n: nat): (r: map<Output, Slot>)
    ensures forall o :: o in r <==> o in m || Refreshed(o, m, input)
    ensures forall o :: o in r ==> r[o] == if Refreshed(o, m, input) then Fresh(n) else m[o]
    ensures Sized(m, n) ==> Sized(r, n)
  {
    var m1 := Refresh(m, D_ENGINEERING_STRESS_D_RELATIVE_HUMIDITY, input, n);
    var m2 := Refresh(m1, D_ENGINEERING_STRESS_D_WATER_VOLUME_FRACTION, input, n);
    Refresh(m2, D_ENGINEERING_STRESS_D_TEMPERATURE, input, n)
  }

  /** A law's evaluation writes each output it calculates and that is
      present in the map it was given, and flags it as calculated. */
  function Write(m: map<Output, Slot>, w: map<Output, seq<real>>): (r: map<Output, Slot>)
    ensures r.Keys == m.Keys
    ensures forall o :: o in m ==> r[o] == if o in w then Slot(w[o], true) else m[o]
    ensures forall n: nat :: Sized(m, n) && WritesSized(w, n) ==> Sized(r, n)
  {
    map o | o in m :: if o in w then Slot(w[o], true) else m[o]
  }

  /** Every evaluation writes sized values. */
  predicate AllWritesSized(evals: seq<SubResult>, n: nat) {
    forall i :: 0 <= i < |evals| ==> WritesSized(evals[i].calculated, n)
  }

  /** Every evaluation returned SUCCESSFUL. */
  predicate AllSucceeded(evals: seq<SubResult>) {
    forall i :: 0 <= i < |evals| ==> evals[i].error == SUCCESSFUL
  }

  /** The two predicates above over k+1 evaluations, from those over k. */
  lemma {:induction false} EvalsSnoc(evals: seq<SubResult>, n: nat)
    requires |evals| > 0
    ensures AllWritesSized(evals, n) ==>
      AllWritesSized(evals[..|evals| - 1], n) && WritesSized(evals[|evals| - 1].calculated, n)
    ensures AllSucceeded(evals) <==> AllSucceeded(evals[..|evals| - 1]) && evals[|evals| - 1].error == SUCCESSFUL
  {
    var k := |evals| - 1;
    assert forall i :: 0 <= i < k ==> evals[..k][i] == evals[i];
  }

  /** The strain held in the modified output map after the given modifying
      laws ran: the last one written, zero if none was. */
  function LastStrainWrite(evals: seq<SubResult>, n: nat): (r: seq<real>)
    requires AllWritesSized(evals, n)
    ensures |r| == n
  {
    if |evals| == 0 then Zeros(n)
    else
      EvalsSnoc(evals, n);
      var last := evals[|evals| - 1];
      if Output.ENGINEERING_STRAIN in last.calculated then last.calculated[Output.ENGINEERING_STRAIN]
      else LastStrainWrite(evals[..|evals| - 1], n)
  }

  /** What an output that is never made afresh holds after the given
      modifying laws ran: the last value one of them calculated for it,
      `initial` if none did. */
  function LastWrite(evals: seq<SubResult>, o: Output, initial: Slot): (r: Slot)
    ensures r == initial || r.isCalculated
  {
    if |evals| == 0 then initial
    else
      var last := evals[|evals| - 1];
      if o in last.calculated then Slot(last.calculated[o], true)
      else LastWrite(evals[..|evals| - 1], o, initial)
  }

  /** What is subtracted from the input strain: after each modifying law,
      the strain then held in the modified output map. */
  function TotalSubtracted(evals: seq<SubResult>, n: nat): (r: seq<real>)
    requires AllWritesSized(evals, n)
    ensures |r| == n
  {
    if |evals| == 0 then Zeros(n)
    else
      EvalsSnoc(evals, n);
      Add(TotalSubtracted(evals[..|evals| - 1], n), LastStrainWrite(evals, n))
  }

  /** The strain and the modified output map after some modifying laws. */
  datatype Pass = Pass(strain: seq<real>, modified: map<Output, Slot>)

  function Inputs(mods: seq<Modifier>): (r: seq<Input>)
    ensures |r| == |mods| && forall i :: 0 <= i < |mods| ==> r[i] == mods[i].input
  {
    seq(|mods|, i requires 0 <= i < |mods| => mods[i].input)
  }

  /** One modifying law that returned SUCCESSFUL: refresh the strain
      derivatives, write what it calculated, subtract the strain then held. */
  function Step(pass: Pass, input: Input, eval: SubResult, n: nat): (r: Pass)
    requires Sized(pass.modified, n) && Output.ENGINEERING_STRAIN in pass.modified && |pass.strain| == n
    requires WritesSized(eval.calculated, n)
    ensures pass.modified.Keys <= r.modified.Keys && Sized(r.modified, n)
    ensures input != Input.ENGINEERING_STRAIN ==> r.modified.Keys == pass.modified.Keys
    ensures r.modified[Output.ENGINEERING_STRAIN].value ==
      if Output.ENGINEERING_STRAIN in eval.calculated then eval.calculated[Output.ENGINEERING_STRAIN]
      else pass.modified[Output.ENGINEERING_STRAIN].value
    ensures r.strain == Sub(pass.strain, r.modified[Output.ENGINEERING_STRAIN].value)
    ensures forall o :: o in pass.modified && !IsStrainDerivative(o) ==>
      r.modified[o] == if o in eval.calculated then Slot(eval.calculated[o], true) else pass.modified[o]
  {
    var m := Write(Prepare(pass.modified, input, n), eval.calculated);
    Pass(Sub(pass.strain, m[Output.ENGINEERING_STRAIN].value), m)
  }

  /** The loop over the modifying laws: each is evaluated and taken in by
      `Step`; an error code other than SUCCESSFUL throws. */
  function RunModifiers(strain: seq<real>, mods: seq<Input>, evals: seq<SubResult>, m0: map<Output, Slot>, n: nat): (r: Result<Pass>)
    requires |strain| == n && |mods| == |evals| && AllWritesSized(evals, n)
    requires Sized(m0, n) && Output.ENGINEERING_STRAIN in m0 && m0[Output.ENGINEERING_STRAIN].value == Zeros(n)
    ensures r.Success? <==> AllSucceeded(evals)
    ensures r.Success? ==> m0.Keys <= r.value.modified.Keys && Sized(r.value.modified, n)
    ensures r.Success? ==> r.value.modified[Output.ENGINEERING_STRAIN].value == LastStrainWrite(evals, n)
    ensures r.Success? ==> r.value.strain == Sub(strain, TotalSubtracted(evals, n))
    ensures r.Success? && (forall i :: 0 <= i < |mods| ==> mods[i] != Input.ENGINEERING_STRAIN) ==>
      r.value.modified.Keys == m0.Keys
    ensures r.Success? ==> forall o :: o in m0 && !IsStrainDerivative(o) ==>
      r.value.modified[o] == LastWrite(evals, o, m0[o])
  {
    if |evals| == 0 then
      assert Sub(strain, Zeros(n)) == strain;
      Success(Pass(strain, m0))
    else
      var k := |evals| - 1;
      EvalsSnoc(evals, n);
      assert forall i :: 0 <= i < k ==> mods[..k][i] == mods[i];
      match RunModifiers(strain, mods[..k], evals[..k], m0, n)
      case Failure(e) => Failure(e)
      case Success(pass) =>
        if evals[k].error != SUCCESSFUL then Failure("Attached constitutive law returned an error code. Can't handle this")
        else
          var next := Step(pass, mods[k], evals[k], n);
          SubtractStep(strain, pass.strain, TotalSubtracted(evals[..k], n), next.modified[Output.ENGINEERING_STRAIN].value);
          Success(next)
  }

  /** Subtracting two vectors in turn subtracts their sum. */
  lemma {:induction false} SubtractStep(e: seq<real>, p: seq<real>, t: seq<real>, v: seq<real>)
    requires |e| == |p| == |t| == |v| && p == Sub(e, t)
    ensures Sub(p, v) == Sub(e, Add(t, v))
  {
  }

  /** Row i of a flat row-major n×n matrix. */
  function Row(flat: seq<real>, n: nat, i: nat): (r: seq<real>)
    requires |flat| == n * n && i < n
    ensures |r| == n
  {
    RowBounds(i, n);
    flat[i * n .. i * n + n]
  }

  lemma {:induction false} RowBounds(i: nat, n: nat)
    requires i < n
    ensures i * n + n <= n * n
  {
    MulMonotone(i + 1, n, n);
  }

  lemma {:induction false} MulMonotone(a: nat, b: nat, c: nat)
    requires a <= b
    ensures a * c <= b * c
  {
  }

  /** A flat row-major n×n matrix as its rows. */
  function Rows(flat: seq<real>, n: nat): (r: seq<seq<real>>)
    requires |flat| == n * n
    ensures |r| == n && forall i :: 0 <= i < n ==> r[i] == Row(flat, n, i)
  {
    seq(n, i requires 0 <= i < n => Row(flat, n, i))
  }

  /** What a requested stress derivative needs: the tangent among the
      outputs and its strain derivative present and calculated. */
  predicate Available(outs: map<Output, Slot>, modified: map<Output, Slot>, d: Output)
    requires IsStressDerivative(d)
  {
    D_ENGINEERING_STRESS_D_ENGINEERING_STRAIN in outs && FactorOf(d) in modified && modified[FactorOf(d)].isCalculated
  }

  /** A requested stress derivative that cannot be assembled. */
  predicate Missing(outs: map<Output, Slot>, modified: map<Output, Slot>, d: Output)
    requires IsStressDerivative(d)
  {
    d in outs && !Available(outs, modified, d)
  }

  /** Some requested stress derivative cannot be assembled. */
  predicate AnyMissing(outs: map<Output, Slot>, modified: map<Output, Slot>) {
    Missing(outs, modified, D_ENGINEERING_STRESS_D_RELATIVE_HUMIDITY)
    || Missing(outs, modified, D_ENGINEERING_STRESS_D_WATER_VOLUME_FRACTION)
    || Missing(outs, modified, D_ENGINEERING_STRESS_D_TEMPERATURE)
  }

  /** The stress derivative from the tangent (an n×n matrix by rows) and a
      strain derivative. */
  function Assembled(tangent: seq<real>, factor: seq<real>, n: nat): (r: Slot)
    requires |tangent| == n * n && |factor| == n
    ensures r.isCalculated && |r.value| == n
  {
    Slot(MatVec(Rows(tangent, n), factor), true)
  }

  function Derived(outs: map<Output, Slot>, modified: map<Output, Slot>, d: Output, n: nat): (r: Slot)
    requires IsStressDerivative(d) && Sized(outs, n) && Sized(modified, n) && Available(outs, modified, d)
  {
    SizedFactor(modified, n, FactorOf(d));
    Assembled(outs[D_ENGINEERING_STRESS_D_ENGINEERING_STRAIN].value, modified[FactorOf(d)].value, n)
  }

  /** What the evaluation gives: the output law's error code, the strain it
      was handed, the modified output map after the modifying laws, and the
      requested outputs. */
  datatype Evaluation = Evaluation(error: ErrorCode, strainGiven: seq<real>, modified: map<Output, Slot>, outputs: map<Output, Slot>)

  /** The requested outputs after the modifying laws: each one except the
      strain takes the content it has in the modified output map. */
  function CopyBack(outputs: map<Output, Slot>, modified: map<Output, Slot>): (r: map<Output, Slot>)
    requires outputs.Keys <= modified.Keys
    ensures r.Keys == outputs.Keys
    ensures forall o :: o in outputs ==> r[o] == if o == Output.ENGINEERING_STRAIN then outputs[o] else modified[o]
    ensures forall n: nat :: Sized(outputs, n) && Sized(modified, n) ==> Sized(r, n)
  {
    map o | o in outputs :: if o == Output.ENGINEERING_STRAIN then outputs[o] else modified[o]
  }

  /** `EvaluateAdditiveInputExplicit<TDim>` for a Voigt dimension n. The
      input strain is read from the input map (missing: it throws); the
      modifying laws' evaluations and the output law (as a function of the
      strain it is handed) are given. */
  function Evaluate(s: State, n: nat, strain: Option<seq<real>>, outputs: map<Output, Slot>,
                    evals: seq<SubResult>, outputLaw: seq<real> -> SubResult): (r: Result<Evaluation>)
    requires s.outputLaw.Some? && |evals| == |s.modifiers|
    requires strain.Some? ==> |strain.value| == n
    requires Sized(outputs, n)
    requires AllWritesSized(evals, n)
    requires forall e :: WritesSized(outputLaw(e).calculated, n)
    ensures strain.None? ==> r.Failure?
    ensures !AllSucceeded(evals) ==> r.Failure?
    ensures r.Failure? && strain.Some? && AllSucceeded(evals) ==>
      exists d :: IsStressDerivative(d) && d in outputs
    ensures r.Success? ==> r.value.strainGiven == Sub(strain.value, TotalSubtracted(evals, n))
    ensures r.Success? ==> r.value.error == outputLaw(r.value.strainGiven).error
    ensures r.Success? ==> r.value.outputs.Keys == outputs.Keys
    ensures r.Success? ==> Sized(r.value.outputs, n) && Sized(r.value.modified, n)
    ensures r.Success? ==> forall o :: o in outputs && !IsStressDerivative(o) && !IsStrainDerivative(o) ==>
      r.value.outputs[o] == Requested(o, outputs, evals, outputLaw(r.value.strainGiven))
    ensures r.Success? ==> forall d :: IsStressDerivative(d) && d in outputs ==>
      Available(r.value.outputs, r.value.modified, d)
      && r.value.outputs[d] == Assembled(r.value.outputs[D_ENGINEERING_STRESS_D_ENGINEERING_STRAIN].value,
                                         r.value.modified[FactorOf(d)].value, n)
  {
    if strain.None? then Failure("The input map holds no engineering strain.")
    else
      var m0 := outputs[Output.ENGINEERING_STRAIN := Fresh(n)];
      match RunModifiers(strain.value, Inputs(s.modifiers), evals, m0, n)
      case Failure(e) => Failure(e)
      case Success(pass) => Finish(outputs, pass, outputLaw(pass.strain), n)
  }

  /** A requested output other than a stress or strain derivative, after the
      evaluation: what the output law calculated for it; otherwise the strain
      keeps its own value and any other output the last value a modifying
      law calculated for it. */
  function Requested(o: Output, outputs: map<Output, Slot>, evals: seq<SubResult>, law: SubResult): Slot
    requires o in outputs
  {
    if o in law.calculated then Slot(law.calculated[o], true)
    else if o == Output.ENGINEERING_STRAIN then outputs[o]
    else LastWrite(evals, o, outputs[o])
  }

  /** After the modifying laws: the requested outputs take what the
      modifying laws left in the modified map, the output law writes its
      outputs, and the stress derivatives are assembled. */
  function Finish(outputs: map<Output, Slot>, pass: Pass, law: SubResult, n: nat): (r: Result<Evaluation>)
    requires outputs.Keys <= pass.modified.Keys && Sized(outputs, n) && Sized(pass.modified, n)
    requires WritesSized(law.calculated, n)
    ensures r.Failure? ==> exists d :: IsStressDerivative(d) && d in outputs
    ensures r.Success? ==> r.value.strainGiven == pass.strain && r.value.modified == pass.modified && r.value.error == law.error
    ensures r.Success? ==> r.value.outputs.Keys == outputs.Keys && Sized(r.value.outputs, n)
    ensures r.Success? ==> forall o :: o in outputs && !IsStressDerivative(o) ==>
      r.value.outputs[o] == if o in law.calculated then Slot(law.calculated[o], true)
                            else if o == Output.ENGINEERING_STRAIN then outputs[o]
                            else pass.modified[o]
    ensures r.Success? ==> forall d :: IsStressDerivative(d) && d in outputs ==>
      Available(r.value.outputs, pass.modified, d)
      && r.value.outputs[d] == Assembled(r.value.outputs[D_ENGINEERING_STRESS_D_ENGINEERING_STRAIN].value,
                                         pass.modified[FactorOf(d)].value, n)
  {
    var written := Write(CopyBack(outputs, pass.modified), law.calculated);
    match Assemble(written, pass.modified, n)
    case Failure(e) => Failure(e)
    case Success(final) => Success(Evaluation(law.error, pass.strain, pass.modified, final))
  }

  /** The loop over the requested outputs that assembles the three stress
      derivatives: any of them that cannot be assembled throws; the tangent
      and the strain derivatives are not changed by it, so the order of the
      loop does not matter. */
  function Assemble(outs: map<Output, Slot>, modified: map<Output, Slot>, n: nat): (r: Result<map<Output, Slot>>)
    requires Sized(outs, n) && Sized(modified, n)
    ensures r.Failure? <==> AnyMissing(outs, modified)
    ensures r.Success? ==> r.value.Keys == outs.Keys && Sized(r.value, n)
    ensures r.Success? ==> forall o :: o in outs && !IsStressDerivative(o) ==> r.value[o] == outs[o]
    ensures r.Success? ==> forall d :: IsStressDerivative(d) && d in outs ==>
      Available(outs, modified, d)
      && r.value[d] == Assembled(outs[D_ENGINEERING_STRESS_D_ENGINEERING_STRAIN].value, modified[FactorOf(d)].value, n)
  {
    if AnyMissing(outs, modified) then Failure("Necessary value to determine the stress derivative was not calculated!")
    else
      assert forall d :: IsStressDerivative(d) && d in outs ==> Available(outs, modified, d) by {
        forall d | IsStressDerivative(d) && d in outs
          ensures Available(outs, modified, d)
        {
          assert !Missing(outs, modified, d);
        }
      }
      Success(map o | o in outs :: if IsStressDerivative(o) then Derived(outs, modified, o, n) else outs[o])
  }

  /** When every modifying law writes a strain, what is subtracted is the
      sum of the strains they report. */
  function SumOfStrains(evals: seq<SubResult>, n: nat): (r: seq<real>)
    requires forall i :: 0 <= i < |evals| ==> Output.ENGINEERING_STRAIN in evals[i].calculated
    requires AllWritesSized(evals, n)
    ensures |r| == n
  {
    if |evals| == 0 then Zeros(n)
    else
      EvalsSnoc(evals, n);
      Add(SumOfStrains(evals[..|evals| - 1], n), evals[|evals| - 1].calculated[Output.ENGINEERING_STRAIN])
  }

  lemma {:induction false} SubtractsReportedStrains(evals: seq<SubResult>, n: nat)
    requires forall i :: 0 <= i < |evals| ==> Output.ENGINEERING_STRAIN in evals[i].calculated
    requires AllWritesSized(evals, n)
    ensures TotalSubtracted(evals, n) == SumOfStrains(evals, n)
  {
    if |evals| > 0 {
      var k := |evals| - 1;
      assert forall i :: 0 <= i < k ==> evals[..k][i] == evals[i];
      SubtractsReportedStrains(evals[..k], n);
    }
  }

  /** A modifying law that writes no strain subtracts again the strain the
      previous one wrote, since the map entry is made only once. */
  lemma {:induction false} StaleStrainSubtractedAgain()
    ensures var evals := [SubResult(SUCCESSFUL, map[Output.ENGINEERING_STRAIN := [1.0]]), SubResult(SUCCESSFUL, map[])];
      TotalSubtracted(evals, 1) == [2.0]
  {
    var evals := [SubResult(SUCCESSFUL, map[Output.ENGINEERING_STRAIN := [1.0]]), SubResult(SUCCESSFUL, map[])];
    assert evals[..1] == [evals[0]];
    assert evals[..1][..0] == [];
    assert LastStrainWrite(evals[..1], 1) == [1.0];
    assert LastStrainWrite(evals, 1) == [1.0];
    assert TotalSubtracted(evals[..1], 1) == Add(Zeros(1), [1.0]);
  }

  /** Without any law modifying the strain, no strain derivative is made: a
      requested stress derivative whose strain derivative was not requested
      as well makes the evaluation throw. */
  lemma {:induction false} NoStrainModifierNoDerivative(s: State, n: nat, strain: seq<real>, outputs: map<Output, Slot>,
                                                       evals: seq<SubResult>, outputLaw: seq<real> -> SubResult, d: Output)
    requires s.outputLaw.Some? && |evals| == |s.modifiers| && |strain| == n && Sized(outputs, n)
    requires AllWritesSized(evals, n)
    requires forall e :: WritesSized(outputLaw(e).calculated, n)
    requires forall i :: 0 <= i < |s.modifiers| ==> s.modifiers[i].input != Input.ENGINEERING_STRAIN
    requires IsStressDerivative(d) && d in outputs && FactorOf(d) !in outputs
    ensures Evaluate(s, n, Some(strain), outputs, evals, outputLaw).Failure?
  {
    var m0 := outputs[Output.ENGINEERING_STRAIN := Fresh(n)];
    var run := RunModifiers(strain, Inputs(s.modifiers), evals, m0, n);
    if run.Success? {
      assert FactorOf(d) !in run.value.modified;
    }
  }

  /** `GetConstitutiveInputs`: the merge of the inputs the modifying laws
      ask for (in their order) and those the output law asks for, plus the
      engineering strain. */
  function GetConstitutiveInputs(s: State, modifierInputs: seq<set<Input>>, outputLawInputs: set<Input>): (r: set<Input>)
    requires s.outputLaw.Some? && |modifierInputs| == |s.modifiers|
    ensures forall x :: x in r <==>
      x == Input.ENGINEERING_STRAIN || x in outputLawInputs || exists i :: 0 <= i < |s.modifiers| && x in modifierInputs[i]
  {
    MergeInputs(modifierInputs) + outputLawInputs + {Input.ENGINEERING_STRAIN}
  }

  /** `GetOutputEnumFromInputEnum`: only the engineering strain has an
      output counterpart. */
  function GetOutputEnumFromInputEnum(i: Input): (r: Result<Output>)
    ensures r.Success? <==> i == Input.ENGINEERING_STRAIN
    ensures r.Success? ==> r.value == Output.ENGINEERING_STRAIN
  {
    if i == Input.ENGINEERING_STRAIN then Success(Output.ENGINEERING_STRAIN)
    else Failure("There is no output enum specified which is related to the input enum.")
  }
}
