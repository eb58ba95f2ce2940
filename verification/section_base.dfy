/** The flags every section carries (`SectionBase`): which quantities are
    passed to the constitutive law and which are degrees of freedom. */
module SectionBase {
  import opened Wrappers

  /** One Set/Get accessor pair of the section. `RotationDof` has no flag of
      its own: its accessors read and write the displacement flag. */
  datatype Flag =
    | InputTemperature | InputTemperatureGradient | InputNonlocalEqPlasticStrain
    | InputNonlocalTotalStrain | InputNonlocalEqStrain | InputDeformationGradient
    | DisplacementDof | TemperatureDof | NonlocalEqPlasticStrainDof
    | NonlocalTotalStrainDof | NonlocalEqStrainDof | RotationDof

  /** The stored flags, as the set of those switched on; no rotation flag is
      ever stored. */
  datatype Section = Section(on: set<Flag>)

  /** The flag an accessor pair actually stores into. */
  function StoredIn(f: Flag): (r: Flag)
    ensures r != RotationDof
    ensures r == f <==> f != RotationDof
  {
    if f == RotationDof then DisplacementDof else f
  }

  function Get(s: Section, f: Flag): bool {
    StoredIn(f) in s.on
  }

  /** The section as constructed: only the deformation gradient is a
      constitutive input and only the displacements are dofs. */
  function Default(): (r: Section)
    ensures forall f :: Get(r, f) <==> StoredIn(f) == InputDeformationGradient || StoredIn(f) == DisplacementDof
    ensures RotationDof !in r.on
  {
    Section({InputDeformationGradient, DisplacementDof})
  }

  /** The setters: the addressed flag takes the new value, every flag stored
      elsewhere keeps its value. */
  function Set(s: Section, f: Flag, value: bool): (r: Section)
    ensures forall g :: Get(r, g) == if StoredIn(g) == StoredIn(f) then value else Get(s, g)
    ensures RotationDof in r.on <==> RotationDof in s.on
  {
    if value then Section(s.on + {StoredIn(f)}) else Section(s.on - {StoredIn(f)})
  }

  /** Two sections with no rotation flag stored that agree on every accessor
      are the same section. */
  lemma {:induction false} GetExtensional(s: Section, t: Section)
    requires RotationDof !in s.on && RotationDof !in t.on
    requires forall f :: Get(s, f) == Get(t, f)
    ensures s == t
  {
    forall f | f in s.on
      ensures f in t.on
    {
      assert Get(s, f) == Get(t, f);
    }
    forall f | f in t.on
      ensures f in s.on
    {
      assert Get(s, f) == Get(t, f);
    }
  }

  /** Setting a flag to the value it already has changes nothing, and a
      second setting of the same flag overrides the first. */
  lemma {:induction false} SetIdempotent(s: Section, f: Flag, a: bool, b: bool)
    requires RotationDof !in s.on
    ensures Set(s, f, Get(s, f)) == s
    ensures Set(Set(s, f, a), f, b) == Set(s, f, b)
  {
    GetExtensional(Set(s, f, Get(s, f)), s);
    GetExtensional(Set(Set(s, f, a), f, b), Set(s, f, b));
  }

  /** The rotation-dof accessors are the displacement-dof accessors. */
  lemma {:induction false} RotationAliasesDisplacement(s: Section, value: bool)
    ensures Get(s, RotationDof) == Get(s, DisplacementDof)
    ensures Set(s, RotationDof, value) == Set(s, DisplacementDof, value)
    ensures Get(Set(s, RotationDof, value), DisplacementDof) == value
  {
  }

  function Count(b: bool): nat {
    if b then 1 else 0
  }

  /** The flags `GetNumInputConstitutive` counts. */
  predicate CountsAsInput(f: Flag) {
    f == InputTemperature || f == InputTemperatureGradient || f == InputDeformationGradient
  }

  /** `GetNumInputConstitutive`: the number of the temperature,
      temperature-gradient and deformation-gradient inputs switched on. */
  function NumInputConstitutive(s: Section): (n: nat)
    ensures n <= 3
    ensures n == 0 <==> forall f :: CountsAsInput(f) ==> !Get(s, f)
    ensures n == 3 <==> forall f :: CountsAsInput(f) ==> Get(s, f)
  {
    assert CountsAsInput(InputTemperature) && CountsAsInput(InputTemperatureGradient)
      && CountsAsInput(InputDeformationGradient);
    Count(InputTemperature in s.on) + Count(InputTemperatureGradient in s.on) + Count(InputDeformationGradient in s.on)
  }

  /** `GetNumDofs`: the displacement flag plus the temperature flag. */
  function NumDofs(s: Section): (n: nat)
    ensures n <= 2
    ensures n == 0 <==> !Get(s, DisplacementDof) && !Get(s, TemperatureDof)
    ensures n == 2 <==> Get(s, DisplacementDof) && Get(s, TemperatureDof)
  {
    Count(DisplacementDof in s.on) + Count(TemperatureDof in s.on)
  }

  /** A default section has one constitutive input and one dof. */
  lemma {:induction false} DefaultCounts()
    ensures NumInputConstitutive(Default()) == 1
    ensures NumDofs(Default()) == 1
  {
  }

  /** Switching a flag changes the input count by exactly the change of a
      counted flag, and leaves it alone for any other flag. */
  lemma {:induction false} NumInputAfterSet(s: Section, f: Flag, value: bool)
    ensures NumInputConstitutive(Set(s, f, value))
      == NumInputConstitutive(s) - (if CountsAsInput(f) then Count(Get(s, f)) else 0)
         + (if CountsAsInput(f) then Count(value) else 0)
  {
  }

  /** Switching a flag changes the dof count exactly when it is the
      displacement (or rotation) flag or the temperature flag. */
  lemma {:induction false} NumDofsAfterSet(s: Section, f: Flag, value: bool)
    ensures var counted := StoredIn(f) == DisplacementDof || f == TemperatureDof;
      NumDofs(Set(s, f, value)) == NumDofs(s) - (if counted then Count(Get(s, f)) else 0)
         + (if counted then Count(value) else 0)
  {
  }

  /** The base section has no cross-section area and no thickness. */
  function GetArea(s: Section): (r: Result<real>)
    ensures r.Failure?
  {
    Failure("section type has no cross-section area.")
  }

  function SetArea(s: Section, area: real): (r: Result<Section>)
    ensures r.Failure?
  {
    Failure("section type has no cross-section area.")
  }

  function GetThickness(s: Section): (r: Result<real>)
    ensures r.Failure?
  {
    Failure("section type has no thickness.")
  }

  function SetThickness(s: Section, thickness: real): (r: Result<Section>)
    ensures r.Failure?
  {
    Failure("section type has no thickness.")
  }
}
