/** The constitutive inputs and outputs the composite laws route between
    their sub-laws, and the bookkeeping of dof combinations they share. */
module ConstitutiveIO {
  import opened NutoEnums
  import opened ConstitutiveBase

  /** `Constitutive::eInput`, as far as the modelled code names it. */
  datatype Input =
    | NONE | ENGINEERING_STRAIN | RELATIVE_HUMIDITY | WATER_VOLUME_FRACTION | TEMPERATURE
    | OtherInput(inputName: string)

  /** `Constitutive::eOutput`: the kinds the modelled code names, and every
      other kind by its name. */
  datatype Output =
    | ENGINEERING_STRESS | D_ENGINEERING_STRESS_D_ENGINEERING_STRAIN | ENGINEERING_STRAIN
    | D_ENGINEERING_STRESS_D_RELATIVE_HUMIDITY | D_ENGINEERING_STRESS_D_WATER_VOLUME_FRACTION
    | D_ENGINEERING_STRESS_D_TEMPERATURE
    | D_ENGINEERING_STRAIN_D_RELATIVE_HUMIDITY | D_ENGINEERING_STRAIN_D_WATER_VOLUME_FRACTION
    | D_STRAIN_D_TEMPERATURE
    | Named(outputName: string)

  /** An entry of a constitutive output map: its values and whether it is
      flagged as calculated. */
  datatype Slot = Slot(value: seq<real>, isCalculated: bool)

  /** What one attached law's evaluation gave: its error code and the
      outputs it flagged as calculated, with their values. */
  datatype SubResult = SubResult(error: ErrorCode, calculated: map<Output, seq<real>>)

  /** A (row dof, column dof, time derivative) combination. */
  type Combination = (Dof, Dof, nat)

  /** What the composite laws need to know of an attached law: an identity
      and its `CheckDofCombinationComputable`. */
  datatype AttachedLaw = AttachedLaw(id: nat, computable: (Dof, Dof, nat) -> bool)

  /** `AddCalculableDofCombinations`: every combination over the dof set and
      the time derivatives below `timeDerivatives` the law reports
      computable. */
  function CombinationsOf(law: AttachedLaw, dofs: set<Dof>, timeDerivatives: nat): (r: set<Combination>)
    ensures forall row, col, t: nat :: (row, col, t) in r <==>
      row in dofs && col in dofs && t < timeDerivatives && law.computable(row, col, t)
  {
    set row, col, t: nat | row in dofs && col in dofs && 0 <= t < timeDerivatives && law.computable(row, col, t) :: (row, col, t)
  }

  /** The recorded combinations are exactly those some attached law reports
      computable (within the dof set and the time derivatives). */
  ghost predicate RecordsLaws(combinations: set<Combination>, laws: seq<AttachedLaw>, dofs: set<Dof>, timeDerivatives: nat) {
    forall row, col, t: nat :: (row, col, t) in combinations <==>
      row in dofs && col in dofs && t < timeDerivatives
      && exists i :: 0 <= i < |laws| && laws[i].computable(row, col, t)
  }

  /** Adding a law's combinations keeps the record exact. */
  lemma {:induction false} RecordsAddedLaw(combinations: set<Combination>, laws: seq<AttachedLaw>, law: AttachedLaw,
                                           dofs: set<Dof>, timeDerivatives: nat)
    ensures RecordsLaws(combinations, laws, dofs, timeDerivatives) ==>
      RecordsLaws(combinations + CombinationsOf(law, dofs, timeDerivatives), laws + [law], dofs, timeDerivatives)
  {
    if !RecordsLaws(combinations, laws, dofs, timeDerivatives) {
      return;
    }
    var added := CombinationsOf(law, dofs, timeDerivatives);
    var all := laws + [law];
    forall row, col, t: nat
      ensures (row, col, t) in combinations + added <==>
        row in dofs && col in dofs && t < timeDerivatives
        && exists i :: 0 <= i < |all| && all[i].computable(row, col, t)
    {
      if (row, col, t) in combinations {
        var i :| 0 <= i < |laws| && laws[i].computable(row, col, t);
        assert all[i] == laws[i];
      } else if (row, col, t) in added {
        assert all[|laws|] == law;
      } else if row in dofs && col in dofs && t < timeDerivatives {
        forall i | 0 <= i < |all|
          ensures !all[i].computable(row, col, t)
        {
          if i < |laws| {
            assert all[i] == laws[i];
          }
        }
      }
    }
  }

  /** The input-map `Merge`: the union of the inputs each law asks for. */
  function MergeInputs(inputs: seq<set<Input>>): (r: set<Input>)
    ensures forall x :: x in r <==> exists i :: 0 <= i < |inputs| && x in inputs[i]
  {
    if |inputs| == 0 then {}
    else
      var front := inputs[..|inputs| - 1];
      assert forall i :: 0 <= i < |front| ==> front[i] == inputs[i];
      MergeInputs(front) + inputs[|inputs| - 1]
  }

  /** Component-wise sum of two equally long vectors. */
  function Add(a: seq<real>, b: seq<real>): (r: seq<real>)
    requires |a| == |b|
    ensures |r| == |a| && forall i :: 0 <= i < |a| ==> r[i] == a[i] + b[i]
  {
    seq(|a|, i requires 0 <= i < |a| => a[i] + b[i])
  }

  /** Component-wise difference of two equally long vectors. */
  function Sub(a: seq<real>, b: seq<real>): (r: seq<real>)
    requires |a| == |b|
    ensures |r| == |a| && forall i :: 0 <= i < |a| ==> r[i] == a[i] - b[i]
  {
    seq(|a|, i requires 0 <= i < |a| => a[i] - b[i])
  }

  function Scale(c: real, v: seq<real>): (r: seq<real>)
    ensures |r| == |v| && forall i :: 0 <= i < |v| ==> r[i] == c * v[i]
  {
    seq(|v|, i requires 0 <= i < |v| => c * v[i])
  }

  function Zeros(n: nat): (r: seq<real>)
    ensures |r| == n && forall i :: 0 <= i < n ==> r[i] == 0.0
  {
    seq(n, i => 0.0)
  }

  function Dot(a: seq<real>, b: seq<real>): real
    requires |a| == |b|
    decreases |a|
  {
    if |a| == 0 then 0.0 else Dot(a[..|a| - 1], b[..|b| - 1]) + a[|a| - 1] * b[|b| - 1]
  }

  /** Matrix (as rows) times vector. */
  function MatVec(m: seq<seq<real>>, v: seq<real>): (r: seq<real>)
    requires forall i :: 0 <= i < |m| ==> |m[i]| == |v|
    ensures |r| == |m| && forall i :: 0 <= i < |m| ==> r[i] == Dot(m[i], v)
  {
    seq(|m|, i requires 0 <= i < |m| => Dot(m[i], v))
  }
}
