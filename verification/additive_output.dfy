/** `AdditiveOutput`: a composite law whose outputs are the sums of the
    outputs of the laws attached to it. The attached laws are not modelled;
    what they report (computable combinations, required inputs, evaluation
    results) is given. */
module AdditiveOutput {
  import opened Wrappers
  import opened NutoEnums
  import opened ConstitutiveBase
  import opened ConstitutiveIO

  /** The attached laws, the union of their computable dof combinations, and
      whether static data have been handed out (which freezes the list). */
  datatype State = State(laws: seq<AttachedLaw>, combinations: set<Combination>, staticDataAllocated: bool)

  function Create(): (r: State)
    ensures r.laws == [] && !r.staticDataAllocated
    ensures forall dofs, timeDerivatives :: RecordsLaws(r.combinations, r.laws, dofs, timeDerivatives)
  {
    State([], {}, false)
  }

  /** `AddConstitutiveLaw(law, input)`: refused once static data exist;
      otherwise the law is appended and its computable combinations are
      added. The modified input is not used by this law. */
  function AddConstitutiveLaw(s: State, law: AttachedLaw, modifiesInput: Input, dofs: set<Dof>, timeDerivatives: nat): (r: Result<State>)
    ensures r.Failure? <==> s.staticDataAllocated
    ensures r.Success? ==> r.value.laws == s.laws + [law] && !r.value.staticDataAllocated
    ensures r.Success? && RecordsLaws(s.combinations, s.laws, dofs, timeDerivatives) ==>
      RecordsLaws(r.value.combinations, r.value.laws, dofs, timeDerivatives)
  {
    if s.staticDataAllocated then Failure("All constitutive laws have to be attached before static data is allocated!")
    else
      var combinations := s.combinations + CombinationsOf(law, dofs, timeDerivatives);
      RecordsAddedLaw(s.combinations, s.laws, law, dofs, timeDerivatives);
      Success(State(s.laws + [law], combinations, false))
  }

  /** The one-argument `AddConstitutiveLaw`: the two-argument form with NONE. */
  function AddConstitutiveLawWithoutInput(s: State, law: AttachedLaw, dofs: set<Dof>, timeDerivatives: nat): (r: Result<State>)
    ensures r.Failure? <==> s.staticDataAllocated
    ensures r.Success? ==> r.value.laws == s.laws + [law]
  {
    AddConstitutiveLaw(s, law, NONE, dofs, timeDerivatives)
  }

  /** The modified input given with a law makes no difference here. */
  lemma {:induction false} ModifiedInputIgnored(s: State, law: AttachedLaw, a: Input, b: Input, dofs: set<Dof>, timeDerivatives: nat)
    ensures AddConstitutiveLaw(s, law, a, dofs, timeDerivatives) == AddConstitutiveLaw(s, law, b, dofs, timeDerivatives)
    ensures AddConstitutiveLawWithoutInput(s, law, dofs, timeDerivatives) == AddConstitutiveLaw(s, law, a, dofs, timeDerivatives)
  {
  }

  /** `AllocateStaticData1D`/`2D`/`3D`: marks static data as allocated. */
  function AllocateStaticData(s: State): (r: State)
    ensures r.staticDataAllocated && r.laws == s.laws && r.combinations == s.combinations
  {
    s.(staticDataAllocated := true)
  }

  /** Once static data are allocated no law can be attached any more. */
  lemma {:induction false} NoLawAfterAllocation(s: State, law: AttachedLaw, input: Input, dofs: set<Dof>, timeDerivatives: nat)
    ensures AddConstitutiveLaw(AllocateStaticData(s), law, input, dofs, timeDerivatives).Failure?
  {
  }

  /** `CheckDofCombinationComputable`: for a state built by the operations
      above, a combination is computable exactly when some attached law
      reports it computable. */
  function CheckDofCombinationComputable(s: State, row: Dof, col: Dof, t: nat, dofs: set<Dof>, timeDerivatives: nat): (r: bool)
    requires RecordsLaws(s.combinations, s.laws, dofs, timeDerivatives)
    requires row in dofs && col in dofs && t < timeDerivatives
    ensures r <==> exists i :: 0 <= i < |s.laws| && s.laws[i].computable(row, col, t)
  {
    (row, col, t) in s.combinations
  }

  /** The names of the further output kinds `Evaluate` adds up. */
  const HandledNames: set<string> := {
    "LOCAL_EQ_STRAIN", "NONLOCAL_PARAMETER_XI", "DAMAGE", "EXTRAPOLATION_ERROR", "HEAT_CHANGE",
    "D_HEAT_D_TEMPERATURE", "INTERNAL_GRADIENT_RELATIVE_HUMIDITY_N", "D_INTERNAL_GRADIENT_RH_D_RH_BB_H0",
    "D_INTERNAL_GRADIENT_RH_D_RH_NN_H0", "D_INTERNAL_GRADIENT_RH_D_WV_NN_H0",
    "INTERNAL_GRADIENT_WATER_VOLUME_FRACTION_N", "D_INTERNAL_GRADIENT_WV_D_WV_BB_H0",
    "D_INTERNAL_GRADIENT_WV_D_WV_NN_H0", "D_INTERNAL_GRADIENT_WV_D_RH_NN_H0",
    "D_INTERNAL_GRADIENT_RH_D_RH_NN_H1", "D_INTERNAL_GRADIENT_RH_D_WV_NN_H1",
    "D_INTERNAL_GRADIENT_WV_D_WV_NN_H1", "INTERNAL_GRADIENT_RELATIVE_HUMIDITY_BOUNDARY_N",
    "INTERNAL_GRADIENT_WATER_VOLUME_FRACTION_BOUNDARY_N", "D_INTERNAL_GRADIENT_RH_D_RH_BOUNDARY_NN_H0",
    "D_INTERNAL_GRADIENT_WV_D_WV_BOUNDARY_NN_H0", "INTERNAL_GRADIENT_RELATIVE_HUMIDITY_B",
    "INTERNAL_GRADIENT_WATER_VOLUME_FRACTION_B", "D_INTERNAL_GRADIENT_RH_D_WV_BN_H0",
    "D_INTERNAL_GRADIENT_WV_D_WV_BN_H0", "HEAT_FLUX", "D_ENGINEERING_STRESS_D_NONLOCAL_EQ_STRAIN",
    "D_LOCAL_EQ_STRAIN_XI_D_STRAIN", "D_LOCAL_EQ_STRAIN_D_STRAIN", "ENGINEERING_PLASTIC_STRAIN_VISUALIZE",
    "ENGINEERING_STRAIN_VISUALIZE", "SHRINKAGE_STRAIN_VISUALIZE", "THERMAL_STRAIN",
    "ENGINEERING_STRESS_VISUALIZE", "D_HEAT_FLUX_D_TEMPERATURE_GRADIENT"}

  /** The output kinds `Evaluate` can add up; a sub-law result of any other
      kind makes it throw. */
  predicate Handled(o: Output) {
    match o
    case ENGINEERING_STRESS => true
    case D_ENGINEERING_STRESS_D_ENGINEERING_STRAIN => true
    case D_ENGINEERING_STRESS_D_RELATIVE_HUMIDITY => true
    case D_ENGINEERING_STRESS_D_WATER_VOLUME_FRACTION => true
    case D_ENGINEERING_STRESS_D_TEMPERATURE => true
    case Named(name) => name in HandledNames
    case _ => false
  }

  /** Every sub-law result is for a requested output and has its size. */
  predicate Fits(sizes: map<Output, nat>, results: seq<SubResult>) {
    forall i :: 0 <= i < |results| ==>
      forall o :: o in results[i].calculated ==> o in sizes && |results[i].calculated[o]| == sizes[o]
  }

  /** The reference sum of one output over the sub-laws that calculated it. */
  function Sum(results: seq<SubResult>, o: Output, n: nat): (r: seq<real>)
    requires forall i :: 0 <= i < |results| && o in results[i].calculated ==> |results[i].calculated[o]| == n
    ensures |r| == n
  {
    if |results| == 0 then Zeros(n)
    else
      var last := results[|results| - 1];
      var front := Sum(results[..|results| - 1], o, n);
      if o in last.calculated then Add(front, last.calculated[o]) else front
  }

  /** Some sub-law flagged this output as calculated. */
  predicate CalculatedBySome(results: seq<SubResult>, o: Output) {
    exists i :: 0 <= i < |results| && o in results[i].calculated
  }

  /** Every calculated sub-law output is of a kind `Evaluate` can add up. */
  predicate AllHandled(results: seq<SubResult>) {
    forall i :: 0 <= i < |results| ==> forall o :: o in results[i].calculated ==> Handled(o)
  }

  /** The outputs after the first k sub-laws: zeroed, then each calculated
      sub-law output added in. */
  function Accumulate(sizes: map<Output, nat>, results: seq<SubResult>): (r: Result<map<Output, Slot>>)
    requires Fits(sizes, results)
    ensures r.Success? <==> AllHandled(results)
    ensures r.Success? ==> r.value.Keys == sizes.Keys
    ensures r.Success? ==> forall o :: o in sizes ==>
      r.value[o].value == Sum(results, o, sizes[o]) && (r.value[o].isCalculated <==> CalculatedBySome(results, o))
  {
    if |results| == 0 then Success(map o | o in sizes :: Slot(Zeros(sizes[o]), false))
    else
      var front := results[..|results| - 1];
      var last := results[|results| - 1];
      SnocFacts(sizes, results);
      var acc := Accumulate(sizes, front);
      if acc.Failure? then Failure(acc.error)
      else if exists o :: o in last.calculated && !Handled(o) then
        Failure("Output is not implemented or can't be handled.")
      else
        Success(AddIn(sizes, acc.value, last))
  }

  /** How the summary predicates over k+1 sub-laws follow from those over
      the first k. */
  lemma {:induction false} SnocFacts(sizes: map<Output, nat>, results: seq<SubResult>)
    requires |results| > 0 && Fits(sizes, results)
    ensures Fits(sizes, results[..|results| - 1])
    ensures AllHandled(results) <==>
      AllHandled(results[..|results| - 1]) && forall o :: o in results[|results| - 1].calculated ==> Handled(o)
    ensures forall o :: CalculatedBySome(results, o) <==>
      CalculatedBySome(results[..|results| - 1], o) || o in results[|results| - 1].calculated
  {
    var front := results[..|results| - 1];
    assert forall i :: 0 <= i < |front| ==> front[i] == results[i];
    forall o | CalculatedBySome(results, o) && o !in results[|results| - 1].calculated
      ensures CalculatedBySome(front, o)
    {
      var i :| 0 <= i < |results| && o in results[i].calculated;
      assert i < |front|;
    }
  }

  /** Adds one sub-law's calculated outputs into the accumulated outputs. */
  function AddIn(sizes: map<Output, nat>, m: map<Output, Slot>, last: SubResult): (r: map<Output, Slot>)
    requires m.Keys == sizes.Keys
    requires forall o :: o in sizes ==> |m[o].value| == sizes[o]
    requires forall o :: o in last.calculated ==> o in sizes && |last.calculated[o]| == sizes[o]
    ensures r.Keys == m.Keys
    ensures forall o :: o in m ==>
      r[o].value == (if o in last.calculated then Add(m[o].value, last.calculated[o]) else m[o].value)
      && (r[o].isCalculated <==> m[o].isCalculated || o in last.calculated)
  {
    map o | o in m :: if o in last.calculated then Slot(Add(m[o].value, last.calculated[o]), true) else m[o]
  }

  /** `Evaluate<TDim>`: every requested output is zeroed and then receives
      the sum of the sub-laws' calculated values; it is flagged calculated
      when some sub-law calculated it. A calculated output of a kind it
      cannot add makes it throw. The error code returned is that of the
      last attached law (SUCCESSFUL without any), whatever the earlier ones
      returned. */
  function Evaluate(sizes: map<Output, nat>, results: seq<SubResult>): (r: Result<(ErrorCode, map<Output, Slot>)>)
    requires Fits(sizes, results)
    ensures r.Success? <==> AllHandled(results)
    ensures r.Success? ==> r.value.0 == if |results| == 0 then SUCCESSFUL else results[|results| - 1].error
    ensures r.Success? ==> r.value.1.Keys == sizes.Keys
    ensures r.Success? ==> forall o :: o in sizes ==>
      r.value.1[o].value == Sum(results, o, sizes[o]) && (r.value.1[o].isCalculated <==> CalculatedBySome(results, o))
  {
    match Accumulate(sizes, results)
    case Failure(e) => Failure(e)
    case Success(m) => Success((if |results| == 0 then SUCCESSFUL else results[|results| - 1].error, m))
  }

  /** Only the last law's code is reported: a failing first law followed by
      a succeeding one gives SUCCESSFUL. */
  lemma {:induction false} EarlierErrorsDropped()
    ensures var r := Evaluate(map[], [SubResult(NOT_IMPLEMENTED, map[]), SubResult(SUCCESSFUL, map[])]);
      r.Success? && r.value.0 == SUCCESSFUL
  {
  }

  /** The order in which the laws were attached does not change the sums. */
  lemma {:induction false} SumOfTwo(a: SubResult, b: SubResult, o: Output, n: nat)
    requires o in a.calculated ==> |a.calculated[o]| == n
    requires o in b.calculated ==> |b.calculated[o]| == n
    ensures Sum([a, b], o, n) == Sum([b, a], o, n)
  {
    assert [a, b][..1] == [a] && [b, a][..1] == [b];
    assert [a][..0] == [] && [b][..0] == [];
    if o in a.calculated && o in b.calculated {
      var x := Add(Add(Zeros(n), a.calculated[o]), b.calculated[o]);
      var y := Add(Add(Zeros(n), b.calculated[o]), a.calculated[o]);
      assert forall i :: 0 <= i < n ==> x[i] == y[i];
    }
  }

  /** `GetConstitutiveInputs`: the merge of the inputs every attached law
      asks for (given in the order of the laws). */
  function GetConstitutiveInputs(s: State, inputsOf: seq<set<Input>>): (r: set<Input>)
    requires |inputsOf| == |s.laws|
    ensures forall x :: x in r <==> exists i :: 0 <= i < |s.laws| && x in inputsOf[i]
  {
    MergeInputs(inputsOf)
  }
}
