/** The element part of `StructureBase` (StructureBaseElement.cpp): the guard
    on pending temporary static data, the element matrices, the assignment of
    constitutive laws and sections to one element, a group or all elements,
    the updates of the static data, and the averages and energies summed over
    the elements.

    What an element computes (its matrices, integrated stress and strain, ip
    energies) is stored in the element's state here; the constitutive laws
    and sections are known by their ids. */
module StructureBaseElement {
  import opened Wrappers
  import opened ConstitutiveIO
  import StructureElement

  /** The element state the structure reads and writes. `totalEnergy` and
      `elasticEnergy` hold the two rows of the element's ip energy data,
      one pair per integration point. The update counters record how often
      the static and the temporary static data were updated. */
  datatype ElementState = ElementState(
    law: Option<int>, section: Option<int>,
    integratedStress: seq<real>, integratedStrain: seq<real>,
    totalEnergy: seq<(real, real)>, elasticEnergy: seq<(real, real)>,
    staticUpdates: nat, tmpStaticUpdates: nat)

  /** The structure: elements by id, the order `GetElementsTotal` lists them
      in, the groups, the ids of the laws and sections, and the two flags on
      temporary static data. */
  datatype Base = Base(
    elements: map<int, ElementState>, order: seq<int>, groups: map<int, StructureElement.Group>,
    laws: set<int>, sections: set<int>,
    haveTmpStaticData: bool, updateTmpStaticDataRequired: bool)

  /** The listing order names existing elements, and the integrated stress
      and strain are Voigt 6-vectors. */
  predicate Valid(s: Base) {
    ListsElements(s, s.order)
    && (forall k :: k in s.elements ==> |s.elements[k].integratedStress| == 6 && |s.elements[k].integratedStrain| == 6)
  }

  predicate ListsElements(s: Base, ids: seq<int>) {
    forall i :: 0 <= i < |ids| ==> ids[i] in s.elements
  }

  /** Element groups list existing elements. */
  predicate GroupsListElements(s: Base) {
    forall g :: g in s.groups && s.groups[g].kind == StructureElement.ElementGroup ==> ListsElements(s, s.groups[g].members)
  }

  // ---------------------------------------------------------------------
  // Queries on a single element

  /** Element queries refuse to work while temporary static data exist and
      wait for an update. */
  function TmpStaticDataGuard(s: Base): (r: Result<()>)
    ensures r.Failure? <==> s.haveTmpStaticData && s.updateTmpStaticDataRequired
  {
    if s.haveTmpStaticData && s.updateTmpStaticDataRequired then Failure("First update of tmp static data required.")
    else Success(())
  }

  /** `ElementGetElementPtr`. */
  function ElementGet(s: Base, id: int): (r: Result<ElementState>)
    ensures r.Success? <==> id in s.elements
    ensures r.Success? ==> r.value == s.elements[id]
  {
    if id in s.elements then Success(s.elements[id]) else Failure("Element with the given identifier does not exist.")
  }

  /** The start of every element query (stiffness check, coefficient
      matrices, internal force, strain and stress): the guard, then the
      element lookup. */
  function ElementQuery(s: Base, id: int): (r: Result<ElementState>)
    ensures r.Success? <==> !(s.haveTmpStaticData && s.updateTmpStaticDataRequired) && id in s.elements
    ensures r.Success? ==> r.value == s.elements[id]
  {
    var _ :- TmpStaticDataGuard(s);
    ElementGet(s, id)
  }

  /** `ElementCoefficientMatrix_0` as written: the element's row and column
      dof lists are copied out, but the column output is filled from the row
      list. `rows` and `cols` are what the element's own computation gave. */
  function ElementCoefficientMatrix0AsWritten(s: Base, id: int, rows: seq<int>, cols: seq<int>): (r: Result<(seq<int>, seq<int>)>)
    requires |rows| == |cols|
    ensures r.Success? <==> ElementQuery(s, id).Success?
    ensures r.Success? ==> r.value.0 == rows && |r.value.1| == |cols|
    ensures r.Success? ==> r.value.1 == rows
  {
    var _ :- ElementQuery(s, id);
    Success((rows, rows))
  }

  /** An element whose rows and columns differ gets its rows back as
      columns. */
  lemma {:induction false} AsWrittenReturnsRowsAsColumns()
    ensures var e := ElementState(None, None, [], [], [], [], 0, 0);
      var s := Base(map[1 := e], [1], map[], {}, {}, false, false);
      ElementCoefficientMatrix0AsWritten(s, 1, [0, 1], [2, 3]) == Success(([0, 1], [0, 1]))
      && ElementCoefficientMatrix0(s, 1, [0, 1], [2, 3]) == Success(([0, 1], [2, 3]))
  {
  }

  /** `ElementCoefficientMatrix_0` copying each dof list to its own output,
      as `ElementCoefficientMatrix_2` does. */
  function ElementCoefficientMatrix0(s: Base, id: int, rows: seq<int>, cols: seq<int>): (r: Result<(seq<int>, seq<int>)>)
    ensures r.Success? <==> !(s.haveTmpStaticData && s.updateTmpStaticDataRequired) && id in s.elements
    ensures r.Success? ==> r.value == (rows, cols)
  {
    var _ :- ElementQuery(s, id);
    Success((rows, cols))
  }

  /** For a symmetric dof pattern (rows equal columns, the usual stiffness
      matrix) the written and the corrected version agree. */
  lemma {:induction false} SymmetricDofsAgree(s: Base, id: int, dofs: seq<int>)
    ensures ElementCoefficientMatrix0AsWritten(s, id, dofs, dofs) == ElementCoefficientMatrix0(s, id, dofs, dofs)
  {
  }

  /** `ElementCoefficientMatrix_1` is not implemented. */
  function ElementCoefficientMatrix1(s: Base, id: int): (r: Result<(seq<int>, seq<int>)>)
    ensures r.Failure?
  {
    Failure("To be implemented.")
  }

  // ---------------------------------------------------------------------
  // Laws and sections

  datatype Attribute = ConstitutiveLaw | Section

  predicate Known(s: Base, kind: Attribute, id: int) {
    if kind == ConstitutiveLaw then id in s.laws else id in s.sections
  }

  /** The element with its law or section replaced. */
  function Assign(e: ElementState, kind: Attribute, id: int): (r: ElementState)
    ensures kind == ConstitutiveLaw ==> r == e.(law := Some(id))
    ensures kind == Section ==> r == e.(section := Some(id))
  {
    if kind == ConstitutiveLaw then e.(law := Some(id)) else e.(section := Some(id))
  }

  /** Every element in `ids` assigned; the others as they were. */
  function AssignAll(s: Base, ids: set<int>, kind: Attribute, id: int): (r: Base)
    ensures r.elements.Keys == s.elements.Keys
    ensures forall k :: k in s.elements ==> r.elements[k] == if k in ids then Assign(s.elements[k], kind, id) else s.elements[k]
    ensures r == s.(elements := r.elements)
  {
    s.(elements := map k | k in s.elements :: if k in ids then Assign(s.elements[k], kind, id) else s.elements[k])
  }

  function AttributeError(kind: Attribute): string {
    if kind == ConstitutiveLaw then "Constitutive law with the given identifier does not exist."
    else "Section with the given identifier does not exist."
  }

  function RefusalError(kind: Attribute): string {
    if kind == ConstitutiveLaw then "Error setting constitutive law for element."
    else "Error setting section for element."
  }

  /** `ElementSetConstitutiveLaw` / `ElementSetSection`: the element is looked
      up first, then the law or section. The element itself may still refuse
      it: its own `SetConstitutiveLaw` / `SetSection` is not part of this
      model and is given as `accepts`, and its failure is passed on. */
  function ElementSet(s: Base, kind: Attribute, elementId: int, id: int, accepts: int -> bool): (r: Result<Base>)
    ensures r.Success? <==> elementId in s.elements && Known(s, kind, id) && accepts(elementId)
    ensures r.Success? ==> r.value == AssignAll(s, {elementId}, kind, id)
  {
    var _ :- ElementGet(s, elementId);
    if !Known(s, kind, id) then Failure(AttributeError(kind))
    else if !accepts(elementId) then Failure(RefusalError(kind))
    else Success(AssignAll(s, {elementId}, kind, id))
  }

  /** The members of an element group. */
  function GroupMembers(s: Base, groupId: int): (r: Result<seq<int>>)
    ensures r.Success? <==> groupId in s.groups && s.groups[groupId].kind == StructureElement.ElementGroup
    ensures r.Success? ==> r.value == s.groups[groupId].members
  {
    if groupId !in s.groups then Failure("Group with the given identifier does not exist.")
    else if s.groups[groupId].kind != StructureElement.ElementGroup then Failure("Group is not an element group.")
    else Success(s.groups[groupId].members)
  }

  /** How many members, from the front, accept before the first one that
      refuses. */
  function AcceptedPrefix(ids: seq<int>, accepts: int -> bool): (n: nat)
    ensures n <= |ids|
    ensures forall i :: 0 <= i < n ==> accepts(ids[i])
    ensures n < |ids| ==> !accepts(ids[n])
  {
    if |ids| == 0 || !accepts(ids[0]) then 0
    else 1 + AcceptedPrefix(ids[1..], accepts)
  }

  predicate AllAccept(ids: seq<int>, accepts: int -> bool) {
    forall i :: 0 <= i < |ids| ==> accepts(ids[i])
  }

  lemma {:induction false} AllAcceptMembers(ids: seq<int>, accepts: int -> bool)
    ensures AllAccept(ids, accepts) <==> forall k :: k in ids ==> accepts(k)
  {
    if AllAccept(ids, accepts) {
      forall k | k in ids
        ensures accepts(k)
      {
        var i :| 0 <= i < |ids| && ids[i] == k;
      }
    }
    if forall k :: k in ids ==> accepts(k) {
      forall i | 0 <= i < |ids|
        ensures accepts(ids[i])
      {
        assert ids[i] in ids;
      }
    }
  }

  /** The elements a list of ids names. */
  function Members(ids: seq<int>): set<int> {
    set k | k in ids
  }

  /** The members of a prefix one longer: the first member and the shorter
      prefix of the rest. */
  lemma {:induction false} PrefixMembersStep(ids: seq<int>, n: nat)
    requires n < |ids|
    ensures Members(ids[..n + 1]) == {ids[0]} + Members(ids[1..][..n])
  {
    assert ids[..n + 1] == [ids[0]] + ids[1..][..n];
  }

  /** What a group or total assignment leaves behind: the structure, in which
      the members before a refusing element keep their new law or section,
      and the failure that stopped the assignment, if any. */
  datatype Assigned = Assigned(state: Base, error: Option<string>)

  /** The member loop: each member in turn gets the law or section until one
      refuses it; the rethrown failure leaves the earlier members assigned. */
  function SetEach(s: Base, kind: Attribute, ids: seq<int>, id: int, accepts: int -> bool): (r: Assigned)
    ensures r.error.None? <==> AllAccept(ids, accepts)
    ensures r.state == AssignAll(s, Members(ids[..AcceptedPrefix(ids, accepts)]), kind, id)
    decreases |ids|
  {
    if |ids| == 0 || !accepts(ids[0]) then
      assert AssignAll(s, {}, kind, id).elements == s.elements;
      assert Members(ids[..0]) == {};
      Assigned(s, if |ids| == 0 then None else Some(RefusalError(kind)))
    else
      var first := AssignAll(s, {ids[0]}, kind, id);
      var rest := SetEach(first, kind, ids[1..], id, accepts);
      var n := AcceptedPrefix(ids[1..], accepts);
      AssignAllCompose(s, {ids[0]}, Members(ids[1..][..n]), kind, id);
      PrefixMembersStep(ids, n);
      assert AllAccept(ids[1..], accepts) <==> AllAccept(ids, accepts) by {
        assert forall i :: 0 <= i < |ids| - 1 ==> ids[1..][i] == ids[i + 1];
      }
      rest
  }

  /** When every member accepts, the loop assigns all of them and succeeds. */
  lemma {:induction false} SetEachIsAssignAll(s: Base, kind: Attribute, ids: seq<int>, id: int, accepts: int -> bool)
    requires forall k :: k in ids ==> accepts(k)
    ensures SetEach(s, kind, ids, id, accepts) == Assigned(AssignAll(s, Members(ids), kind, id), None)
  {
    AllAcceptMembers(ids, accepts);
    assert ids[..AcceptedPrefix(ids, accepts)] == ids;
  }

  /** `ElementGroupSetConstitutiveLaw` / `ElementGroupSetSection`: the group
      is checked first (missing, not an element group), then the law or
      section; then the members are assigned in group order until one of
      them refuses. */
  function ElementGroupSet(s: Base, kind: Attribute, groupId: int, id: int, accepts: int -> bool): (r: Assigned)
    ensures r.error.None? <==> GroupMembers(s, groupId).Success? && Known(s, kind, id)
                               && forall k :: k in s.groups[groupId].members ==> accepts(k)
    ensures GroupMembers(s, groupId).Failure? || !Known(s, kind, id) ==> r.state == s
    ensures GroupMembers(s, groupId).Success? && Known(s, kind, id) ==>
      var members := s.groups[groupId].members;
      r.state == AssignAll(s, Members(members[..AcceptedPrefix(members, accepts)]), kind, id)
  {
    match GroupMembers(s, groupId)
    case Failure(e) => Assigned(s, Some(e))
    case Success(members) =>
      if !Known(s, kind, id) then Assigned(s, Some(AttributeError(kind)))
      else
        AllAcceptMembers(members, accepts);
        SetEach(s, kind, members, id, accepts)
  }

  /** `ElementTotalSetConstitutiveLaw` / `ElementTotalSetSection`: the law or
      section is checked, then the elements are assigned in the order
      `GetElementsTotal` lists them until one refuses. */
  function ElementTotalSet(s: Base, kind: Attribute, id: int, accepts: int -> bool): (r: Assigned)
    ensures r.error.None? <==> Known(s, kind, id) && forall k :: k in s.order ==> accepts(k)
    ensures !Known(s, kind, id) ==> r.state == s
    ensures Known(s, kind, id) ==> r.state == AssignAll(s, Members(s.order[..AcceptedPrefix(s.order, accepts)]), kind, id)
  {
    if !Known(s, kind, id) then Assigned(s, Some(AttributeError(kind)))
    else
      AllAcceptMembers(s.order, accepts);
      SetEach(s, kind, s.order, id, accepts)
  }

  /** When the listing names every element and every element accepts, each
      element gets the law or section. */
  lemma {:induction false} TotalSetAssignsEveryElement(s: Base, kind: Attribute, id: int, accepts: int -> bool)
    requires Known(s, kind, id)
    requires Members(s.order) == s.elements.Keys && forall k :: k in s.order ==> accepts(k)
    ensures ElementTotalSet(s, kind, id, accepts) == Assigned(AssignAll(s, s.elements.Keys, kind, id), None)
  {
    SetEachIsAssignAll(s, kind, s.order, id, accepts);
  }

  /** Two assignments of the same law or section combine. */
  lemma {:induction false} AssignAllCompose(s: Base, a: set<int>, b: set<int>, kind: Attribute, id: int)
    ensures AssignAll(AssignAll(s, a, kind, id), b, kind, id) == AssignAll(s, a + b, kind, id)
  {
    var lhs := AssignAll(AssignAll(s, a, kind, id), b, kind, id);
    var rhs := AssignAll(s, a + b, kind, id);
    forall k | k in s.elements
      ensures lhs.elements[k] == rhs.elements[k]
    {
      AssignTwice(s.elements[k], kind, id);
    }
    assert lhs.elements == rhs.elements;
  }

  lemma {:induction false} AssignTwice(e: ElementState, kind: Attribute, id: int)
    ensures Assign(Assign(e, kind, id), kind, id) == Assign(e, kind, id)
  {
  }

  /** Setting an element group that lists the same elements as the total
      listing, with every element accepting, is setting all elements. */
  lemma {:induction false} GroupOfAllIsTotal(s: Base, kind: Attribute, groupId: int, id: int, accepts: int -> bool)
    requires GroupMembers(s, groupId).Success?
    requires Members(s.groups[groupId].members) == Members(s.order)
    requires forall k :: k in s.order ==> accepts(k)
    ensures ElementGroupSet(s, kind, groupId, id, accepts) == ElementTotalSet(s, kind, id, accepts)
  {
    var members := s.groups[groupId].members;
    if Known(s, kind, id) {
      forall k | k in members
        ensures accepts(k)
      {
        assert k in Members(members) && k in Members(s.order);
      }
      SetEachIsAssignAll(s, kind, members, id, accepts);
      SetEachIsAssignAll(s, kind, s.order, id, accepts);
    }
  }

  /** Assigning the same law or section twice is assigning it once. */
  lemma {:induction false} ElementSetIdempotent(s: Base, kind: Attribute, elementId: int, id: int, accepts: int -> bool)
    requires ElementSet(s, kind, elementId, id, accepts).Success?
    ensures ElementSet(ElementSet(s, kind, elementId, id, accepts).value, kind, elementId, id, accepts)
         == ElementSet(s, kind, elementId, id, accepts)
  {
    AssignTwice(s.elements[elementId], kind, id);
    var once := ElementSet(s, kind, elementId, id, accepts).value;
    assert AssignAll(once, {elementId}, kind, id).elements == once.elements;
  }

  // ---------------------------------------------------------------------
  // Static data

  /** `ElementTotalUpdateTmpStaticData`: with temporary static data every
      element updates them; in any case no update is pending afterwards. */
  function UpdateTmpStaticData(s: Base): (r: Base)
    ensures !r.updateTmpStaticDataRequired
    ensures r.elements.Keys == s.elements.Keys
    ensures s.haveTmpStaticData ==>
      forall k :: k in s.elements ==> r.elements[k] == s.elements[k].(tmpStaticUpdates := s.elements[k].tmpStaticUpdates + 1)
    ensures !s.haveTmpStaticData ==> r.elements == s.elements
    ensures r == s.(elements := r.elements, updateTmpStaticDataRequired := false)
  {
    var elements := if s.haveTmpStaticData then
      map k | k in s.elements :: s.elements[k].(tmpStaticUpdates := s.elements[k].tmpStaticUpdates + 1)
    else s.elements;
    s.(elements := elements, updateTmpStaticDataRequired := false)
  }

  /** `ElementTotalUpdateStaticData`: a pending temporary update is done
      first, then every element updates its static data. */
  function UpdateStaticData(s: Base): (r: Base)
    ensures r.elements.Keys == s.elements.Keys
    ensures r.updateTmpStaticDataRequired <==> s.updateTmpStaticDataRequired && !s.haveTmpStaticData
    ensures forall k :: k in s.elements ==>
      r.elements[k].staticUpdates == s.elements[k].staticUpdates + 1
      && r.elements[k].tmpStaticUpdates == s.elements[k].tmpStaticUpdates
        + (if s.haveTmpStaticData && s.updateTmpStaticDataRequired then 1 else 0)
  {
    var t := if s.haveTmpStaticData && s.updateTmpStaticDataRequired then UpdateTmpStaticData(s) else s;
    t.(elements := map k | k in t.elements :: t.elements[k].(staticUpdates := t.elements[k].staticUpdates + 1))
  }

  /** After either update the element queries work again. */
  lemma {:induction false} UpdatesReleaseGuard(s: Base)
    ensures TmpStaticDataGuard(UpdateTmpStaticData(s)).Success?
    ensures TmpStaticDataGuard(UpdateStaticData(s)).Success?
  {
  }

  // ---------------------------------------------------------------------
  // Energies

  datatype EnergyKind = TotalEnergy | ElasticEnergy

  function IpEnergies(e: ElementState, kind: EnergyKind): seq<(real, real)> {
    if kind == TotalEnergy then e.totalEnergy else e.elasticEnergy
  }

  /** The ip contributions: row 0 times row 1, summed over the ips. */
  function IpSum(ips: seq<(real, real)>): real {
    if |ips| == 0 then 0.0 else IpSum(ips[..|ips| - 1]) + ips[|ips| - 1].0 * ips[|ips| - 1].1
  }

  /** The energy of the listed elements. */
  function EnergyOf(s: Base, ids: seq<int>, kind: EnergyKind): real
    requires ListsElements(s, ids)
  {
    if |ids| == 0 then 0.0 else EnergyOf(s, ids[..|ids| - 1], kind) + IpSum(IpEnergies(s.elements[ids[|ids| - 1]], kind))
  }

  /** `ElementTotalGetTotalEnergy` / `ElementTotalGetElasticEnergy`: over all
      elements, with no guard on static data. */
  function ElementTotalGetEnergy(s: Base, kind: EnergyKind): (r: real)
    requires Valid(s)
    ensures r == IpSum(AllIps(s, s.order, kind))
  {
    EnergyIsSumOverAllIps(s, s.order, kind);
    EnergyOf(s, s.order, kind)
  }

  /** All ip pairs of the listed elements, one after the other. */
  function AllIps(s: Base, ids: seq<int>, kind: EnergyKind): seq<(real, real)>
    requires ListsElements(s, ids)
  {
    if |ids| == 0 then [] else AllIps(s, ids[..|ids| - 1], kind) + IpEnergies(s.elements[ids[|ids| - 1]], kind)
  }

  lemma {:induction false} IpSumAppend(a: seq<(real, real)>, b: seq<(real, real)>)
    ensures IpSum(a + b) == IpSum(a) + IpSum(b)
    decreases |b|
  {
    if |b| > 0 {
      var n := |b| - 1;
      assert (a + b)[..|a + b| - 1] == a + b[..n];
      IpSumAppend(a, b[..n]);
    } else {
      assert a + b == a;
    }
  }

  /** The energy is one sum over every integration point of every element of
      row 0 times row 1. */
  lemma {:induction false} EnergyIsSumOverAllIps(s: Base, ids: seq<int>, kind: EnergyKind)
    requires ListsElements(s, ids)
    ensures EnergyOf(s, ids, kind) == IpSum(AllIps(s, ids, kind))
    decreases |ids|
  {
    if |ids| > 0 {
      var n := |ids| - 1;
      EnergyIsSumOverAllIps(s, ids[..n], kind);
      IpSumAppend(AllIps(s, ids[..n], kind), IpEnergies(s.elements[ids[n]], kind));
    }
  }

  /** The energy of two lists of elements is the sum of their energies. */
  lemma {:induction false} EnergyAdditive(s: Base, a: seq<int>, b: seq<int>, kind: EnergyKind)
    requires ListsElements(s, a)
    requires ListsElements(s, b)
    ensures EnergyOf(s, a + b, kind) == EnergyOf(s, a, kind) + EnergyOf(s, b, kind)
    decreases |b|
  {
    if |b| > 0 {
      var n := |b| - 1;
      assert (a + b)[..|a + b| - 1] == a + b[..n];
      EnergyAdditive(s, a, b[..n], kind);
    } else {
      assert a + b == a;
    }
  }

  // ---------------------------------------------------------------------
  // Averages

  datatype Quantity = Stress | Strain

  function Integrated(e: ElementState, q: Quantity): (r: seq<real>)
    ensures |e.integratedStress| == 6 && |e.integratedStrain| == 6 ==> |r| == 6
  {
    if q == Stress then e.integratedStress else e.integratedStrain
  }

  /** The integrated values of the listed elements added up, starting from a
      6-vector of zeros. */
  function IntegratedSum(s: Base, ids: seq<int>, q: Quantity): (r: seq<real>)
    requires Valid(s) && ListsElements(s, ids)
    ensures |r| == 6
  {
    if |ids| == 0 then Zeros(6)
    else
      var k := ids[|ids| - 1];
      assert k in s.elements;
      var e := s.elements[k];
      assert |e.integratedStress| == 6 && |e.integratedStrain| == 6;
      Add(IntegratedSum(s, ids[..|ids| - 1], q), Integrated(e, q))
  }

  /** `ElementTotalGetAverageStress` / `...Strain`: the sum over all elements
      divided by the volume given. */
  function ElementTotalGetAverage(s: Base, volume: real, q: Quantity): (r: seq<real>)
    requires Valid(s) && volume != 0.0
    ensures |r| == 6
    ensures forall i :: 0 <= i < 6 ==> r[i] * volume == IntegratedSum(s, s.order, q)[i]
  {
    var sum := IntegratedSum(s, s.order, q);
    var r := Scale(1.0 / volume, sum);
    ScaleByInverse(volume, sum);
    r
  }

  /** `ElementGroupGetAverageStress` / `...Strain`: the same over the members
      of an element group. */
  function ElementGroupGetAverage(s: Base, groupId: int, volume: real, q: Quantity): (r: Result<seq<real>>)
    requires Valid(s) && volume != 0.0 && GroupsListElements(s)
    ensures r.Success? <==> GroupMembers(s, groupId).Success?
    ensures r.Success? ==> |r.value| == 6
    ensures r.Success? ==> forall i :: 0 <= i < 6 ==> r.value[i] * volume == IntegratedSum(s, s.groups[groupId].members, q)[i]
  {
    var members :- GroupMembers(s, groupId);
    var sum := IntegratedSum(s, members, q);
    var r := Scale(1.0 / volume, sum);
    ScaleByInverse(volume, sum);
    Success(r)
  }

  lemma {:induction false} ScaleByInverse(volume: real, sum: seq<real>)
    requires volume != 0.0
    ensures forall i :: 0 <= i < |sum| ==> Scale(1.0 / volume, sum)[i] * volume == sum[i]
  {
    forall i | 0 <= i < |sum|
      ensures Scale(1.0 / volume, sum)[i] * volume == sum[i]
    {
      assert Scale(1.0 / volume, sum)[i] * volume == sum[i] * ((1.0 / volume) * volume);
    }
  }

  /** The integrated values of two lists of elements add up. */
  lemma {:induction false} IntegratedSumAdditive(s: Base, a: seq<int>, b: seq<int>, q: Quantity)
    requires Valid(s) && ListsElements(s, a) && ListsElements(s, b)
    ensures ListsElements(s, a + b)
    ensures forall j :: 0 <= j < 6 ==> IntegratedSum(s, a + b, q)[j] == IntegratedSum(s, a, q)[j] + IntegratedSum(s, b, q)[j]
    decreases |b|
  {
    assert ListsElements(s, a + b) by {
      forall i | 0 <= i < |a + b| ensures (a + b)[i] in s.elements {
        if i >= |a| { assert (a + b)[i] == b[i - |a|]; }
      }
    }
    if |b| > 0 {
      var n := |b| - 1;
      assert (a + b)[..|a + b| - 1] == a + b[..n];
      assert (a + b)[|a + b| - 1] == b[n];
      assert ListsElements(s, b[..n]);
      IntegratedSumAdditive(s, a, b[..n], q);
    } else {
      assert a + b == a;
    }
  }
}
