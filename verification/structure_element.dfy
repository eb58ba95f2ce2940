/** The element table of an unstructured structure (`Structure` in
    StructureElement.cpp): creation with explicit or fresh ids, parsing of
    element, element-data and ip-data names, deletion of single elements and
    of element groups, and the node placement of 1D virtual boundary elements.

    Nodes are identified by their ids; the node table itself (`NodeGetNodePtr`,
    `NodeDelete`) is reduced to a set of node ids. */
module StructureElement {
  import opened Wrappers
  import opened NutoEnums

  datatype Element = Element(kind: ElementType, nodes: seq<int>, dataType: ElementDataType, ipType: IpDataType)

  /** `Groups::eGroupType`, reduced to the two kinds the code tells apart. */
  datatype GroupKind = ElementGroup | NodeGroup

  /** A group keeps its member ids in the order its map iterates them. */
  datatype Group = Group(kind: GroupKind, members: seq<int>)

  datatype Structure = Structure(dimension: int, nodes: set<int>, elements: map<int, Element>, groups: map<int, Group>)

  function GetNumElements(s: Structure): nat {
    |s.elements|
  }

  /** The smallest id at or above `n` that is not in use: the probing loop of
      every auto-numbered creation. */
  function FreshFrom(keys: set<int>, n: int): (r: int)
    ensures r >= n && r !in keys
    ensures forall k :: n <= k < r ==> k in keys
    decreases |set k | k in keys && k >= n|
  {
    if n !in keys then n
    else
      var above := set k | k in keys && k >= n + 1;
      var from := set k | k in keys && k >= n;
      assert from == above + {n};
      FreshFrom(keys, n + 1)
  }

  /** Auto-numbering starts the search at the current number of elements. */
  function FreshElementId(s: Structure): (id: int)
    ensures id !in s.elements && id >= |s.elements|
  {
    FreshFrom(s.elements.Keys, |s.elements|)
  }

  /** The names accepted for element types, after upper-casing. */
  function ParseElementType(name: string): (r: Option<ElementType>)
    ensures r.Some? <==> Upper(name) in CreatableTypeNames()
  {
    match Upper(name)
    case "TRUSS1D2N" => Some(TRUSS1D2N)
    case "TRUSS1D3N" => Some(TRUSS1D3N)
    case "BRICK8N" => Some(BRICK8N)
    case "PLANE2D3N" => Some(PLANE2D3N)
    case "PLANE2D4N" => Some(PLANE2D4N)
    case "PLANE2D6N" => Some(PLANE2D6N)
    case "TETRAHEDRON10N" => Some(TETRAHEDRON10N)
    case _ => None
  }

  function CreatableTypeNames(): set<string> {
    {"TRUSS1D2N", "TRUSS1D3N", "BRICK8N", "PLANE2D3N", "PLANE2D4N", "PLANE2D6N", "TETRAHEDRON10N"}
  }

  /** The upper-case name of a creatable type. */
  function ElementTypeName(t: ElementType): Option<string> {
    match t
    case TRUSS1D2N => Some("TRUSS1D2N")
    case TRUSS1D3N => Some("TRUSS1D3N")
    case BRICK8N => Some("BRICK8N")
    case PLANE2D3N => Some("PLANE2D3N")
    case PLANE2D4N => Some("PLANE2D4N")
    case PLANE2D6N => Some("PLANE2D6N")
    case TETRAHEDRON10N => Some("TETRAHEDRON10N")
    case _ => None
  }

  /** Parsing is case-insensitive and inverts the naming of every creatable type. */
  lemma {:induction false} ParseElementTypeRoundTrip(t: ElementType, name: string)
    requires ElementTypeName(t).Some?
    requires Upper(name) == ElementTypeName(t).value
    ensures ParseElementType(name) == Some(t)
  {
  }

  function ParseElementDataType(name: string): (r: Option<ElementDataType>)
    ensures r.Some? <==> Upper(name) in {"CONSTITUTIVELAWIP", "CONSTITUTIVELAWIPCRACK", "CONSTITUTIVELAWIPNONLOCAL"}
  {
    match Upper(name)
    case "CONSTITUTIVELAWIP" => Some(CONSTITUTIVELAWIP)
    case "CONSTITUTIVELAWIPCRACK" => Some(CONSTITUTIVELAWIPCRACK)
    case "CONSTITUTIVELAWIPNONLOCAL" => Some(CONSTITUTIVELAWIPNONLOCAL)
    case _ => None
  }

  function ParseIpDataType(name: string): (r: Option<IpDataType>)
    ensures r.Some? <==> Upper(name) in {"NOIPDATA", "STATICDATA", "STATICDATANONLOCAL"}
  {
    match Upper(name)
    case "NOIPDATA" => Some(NOIPDATA)
    case "STATICDATA" => Some(STATICDATA)
    case "STATICDATANONLOCAL" => Some(STATICDATANONLOCAL)
    case _ => None
  }

  /** The structure dimension an element type needs; None for the types the
      typed creation rejects as invalid. */
  function RequiredDimension(t: ElementType): (r: Option<int>)
    ensures r.Some? <==> ElementTypeName(t).Some?
  {
    match t
    case TRUSS1D2N => Some(1)
    case TRUSS1D3N => Some(1)
    case BRICK8N => Some(3)
    case PLANE2D3N => Some(2)
    case PLANE2D4N => Some(2)
    case PLANE2D6N => Some(2)
    case TETRAHEDRON10N => Some(3)
    case _ => None
  }

  /** The typed creation: checks the type against the structure dimension and
      stores the element. Inserting under a key that is already present leaves
      the table unchanged (pointer-map insertion). */
  function ElementCreateTyped(s: Structure, id: int, t: ElementType, nodes: seq<int>,
                              dataType: ElementDataType, ipType: IpDataType): (r: Result<Structure>)
    ensures r.Success? <==> RequiredDimension(t) == Some(s.dimension)
    ensures r.Success? ==> r.value.elements.Keys == s.elements.Keys + {id}
    ensures r.Success? && id !in s.elements ==> r.value.elements == s.elements[id := Element(t, nodes, dataType, ipType)]
    ensures r.Success? ==> r.value.(elements := s.elements) == s
  {
    match RequiredDimension(t)
    case None => Failure("Invalid element type.")
    case Some(d) =>
      if d != s.dimension then Failure("element type does not match the structure dimension")
      else if id in s.elements then Success(s)
      else Success(s.(elements := s.elements[id := Element(t, nodes, dataType, ipType)]))
  }

  /** Creation with an explicit id from type names and a node-number matrix
      given as its list of columns. The checks run in the source's order:
      existing id, single column, known nodes, then the three names. */
  function ElementCreate(s: Structure, id: int, typeName: string, nodeNumbers: seq<seq<int>>,
                         dataName: string, ipName: string): (r: Result<Structure>)
    ensures id in s.elements ==> r.Failure?
    ensures |nodeNumbers| != 1 ==> r.Failure?
    ensures ParseElementType(typeName).None? || ParseElementDataType(dataName).None? || ParseIpDataType(ipName).None? ==> r.Failure?
    ensures r.Success? <==>
      && id !in s.elements && |nodeNumbers| == 1
      && (forall n :: n in nodeNumbers[0] ==> n in s.nodes)
      && ParseElementType(typeName).Some? && ParseElementDataType(dataName).Some? && ParseIpDataType(ipName).Some?
      && RequiredDimension(ParseElementType(typeName).value) == Some(s.dimension)
    ensures r.Success? ==>
      && r.value.elements == s.elements[id := Element(ParseElementType(typeName).value, nodeNumbers[0],
                                                      ParseElementDataType(dataName).value, ParseIpDataType(ipName).value)]
      && r.value.(elements := s.elements) == s
  {
    if id in s.elements then Failure("Element already exists.")
    else if |nodeNumbers| != 1 then Failure("Matrix with node numbers should have a single column.")
    else if exists n :: n in nodeNumbers[0] && n !in s.nodes then Failure("Node does not exist.")
    else
      match (ParseElementType(typeName), ParseElementDataType(dataName), ParseIpDataType(ipName))
      case (None, _, _) => Failure("Element type does not exist.")
      case (_, None, _) => Failure("Element data type does not exist.")
      case (_, _, None) => Failure("Ip data type does not exist.")
      case (Some(t), Some(d), Some(ip)) => ElementCreateTyped(s, id, t, nodeNumbers[0], d, ip)
  }

  /** The default names used when none are given. */
  function ElementCreateDefault(s: Structure, id: int, typeName: string, nodeNumbers: seq<seq<int>>): Result<Structure> {
    ElementCreate(s, id, typeName, nodeNumbers, "CONSTITUTIVELAWIP", "NOIPDATA")
  }

  /** Auto-numbered creation: on success the returned id was fresh and is the
      only key added. */
  function ElementCreateAuto(s: Structure, typeName: string, nodeNumbers: seq<seq<int>>,
                             dataName: string, ipName: string): (r: Result<(Structure, int)>)
    ensures r.Success? ==> r.value.1 !in s.elements && r.value.1 >= |s.elements|
    ensures r.Success? ==> r.value.0.elements.Keys == s.elements.Keys + {r.value.1}
    ensures r.Success? ==> forall k :: k in s.elements ==> k in r.value.0.elements && r.value.0.elements[k] == s.elements[k]
    ensures r.Success? ==> Built(typeName, nodeNumbers, dataName, ipName) == Some(r.value.0.elements[r.value.1])
    ensures r.Success? ==> r.value.0.(elements := s.elements) == s
  {
    var id := FreshElementId(s);
    var created :- ElementCreate(s, id, typeName, nodeNumbers, dataName, ipName);
    Success((created, id))
  }

  /** The element a creation from these names and node numbers stores, when
      the names parse and there is a single column. */
  function Built(typeName: string, nodeNumbers: seq<seq<int>>, dataName: string, ipName: string): Option<Element> {
    match (ParseElementType(typeName), ParseElementDataType(dataName), ParseIpDataType(ipName))
    case (Some(t), Some(d), Some(ip)) => if |nodeNumbers| == 1 then Some(Element(t, nodeNumbers[0], d, ip)) else None
    case _ => None
  }

  /** What `ElementsCreate` leaves behind: the structure (which keeps the
      elements created before a failure), the ids created, and the failure if
      one stopped the loop. */
  datatype Batch = Batch(structure: Structure, ids: seq<int>, error: Option<string>)

  /** One auto-numbered element per incidence column, in column order. */
  function ElementsCreate(s: Structure, typeName: string, columns: seq<seq<int>>,
                          dataName: string, ipName: string): (b: Batch)
    ensures b.error.None? ==> |b.ids| == |columns|
    ensures |b.ids| <= |columns|
    decreases |columns|
  {
    if |columns| == 0 then Batch(s, [], None)
    else
      var front := ElementsCreate(s, typeName, columns[..|columns| - 1], dataName, ipName);
      if front.error.Some? then front
      else
        var created := ElementCreateAuto(front.structure, typeName, [columns[|columns| - 1]], dataName, ipName);
        if created.Failure? then Batch(front.structure, front.ids, Some(created.error))
        else Batch(created.value.0, front.ids + [created.value.1], None)
  }

  /** A batch keeps every element that was there, and its ids are new,
      distinct and present afterwards. */
  predicate FreshBatch(s: Structure, b: Batch) {
    && (forall k :: k in s.elements ==> k in b.structure.elements)
    && (forall i :: 0 <= i < |b.ids| ==> b.ids[i] !in s.elements && b.ids[i] in b.structure.elements)
    && (forall i, j :: 0 <= i < j < |b.ids| ==> b.ids[i] != b.ids[j])
  }

  lemma {:induction false} ElementsCreateFresh(s: Structure, typeName: string, columns: seq<seq<int>>,
                                               dataName: string, ipName: string)
    ensures FreshBatch(s, ElementsCreate(s, typeName, columns, dataName, ipName))
    decreases |columns|
  {
    if |columns| > 0 {
      var front := ElementsCreate(s, typeName, columns[..|columns| - 1], dataName, ipName);
      ElementsCreateFresh(s, typeName, columns[..|columns| - 1], dataName, ipName);
      if front.error.None? {
        var created := ElementCreateAuto(front.structure, typeName, [columns[|columns| - 1]], dataName, ipName);
        if created.Success? {
          AppendFresh(s, front, created.value.0, created.value.1);
        }
      }
    }
  }

  /** Id i of a batch holds the element built from column i, the elements
      that were there are kept, nothing but the element table changes, and a
      batch that stopped early failed on the next column. */
  ghost predicate HoldsColumns(s: Structure, b: Batch, typeName: string, columns: seq<seq<int>>,
                               dataName: string, ipName: string) {
    && |b.ids| <= |columns|
    && b.structure.(elements := s.elements) == s
    && (forall k :: k in s.elements ==> k in b.structure.elements && b.structure.elements[k] == s.elements[k])
    && (forall i :: 0 <= i < |b.ids| ==>
          (b.ids[i] in b.structure.elements && Built(typeName, [columns[i]], dataName, ipName) == Some(b.structure.elements[b.ids[i]])))
    && (b.error.Some? ==>
          (|b.ids| < |columns| && ElementCreateAuto(b.structure, typeName, [columns[|b.ids|]], dataName, ipName).Failure?))
  }

  lemma {:induction false} ElementsCreateHoldsColumns(s: Structure, typeName: string, columns: seq<seq<int>>,
                                                      dataName: string, ipName: string)
    ensures HoldsColumns(s, ElementsCreate(s, typeName, columns, dataName, ipName), typeName, columns, dataName, ipName)
    decreases |columns|
  {
    if |columns| > 0 {
      var prefix := columns[..|columns| - 1];
      var front := ElementsCreate(s, typeName, prefix, dataName, ipName);
      ElementsCreateHoldsColumns(s, typeName, prefix, dataName, ipName);
      if front.error.Some? {
        HoldsColumnsLonger(s, front, typeName, columns, dataName, ipName);
      } else {
        var created := ElementCreateAuto(front.structure, typeName, [columns[|columns| - 1]], dataName, ipName);
        if created.Success? {
          HoldsColumnsAppend(s, front, created.value.0, created.value.1, typeName, columns, dataName, ipName);
        } else {
          HoldsColumnsStopped(s, front, created.error, typeName, columns, dataName, ipName);
        }
      }
    }
  }

  /** A batch that stopped on a prefix of the columns stopped on all of them. */
  lemma {:induction false} HoldsColumnsLonger(s: Structure, b: Batch, typeName: string, columns: seq<seq<int>>,
                                              dataName: string, ipName: string)
    requires |columns| > 0 && b.error.Some?
    requires HoldsColumns(s, b, typeName, columns[..|columns| - 1], dataName, ipName)
    ensures HoldsColumns(s, b, typeName, columns, dataName, ipName)
  {
    assert columns[..|columns| - 1][|b.ids|] == columns[|b.ids|];
    forall i | 0 <= i < |b.ids|
      ensures b.ids[i] in b.structure.elements && Built(typeName, [columns[i]], dataName, ipName) == Some(b.structure.elements[b.ids[i]])
    {
      assert columns[..|columns| - 1][i] == columns[i];
    }
  }

  lemma {:induction false} HoldsColumnsAppend(s: Structure, front: Batch, next: Structure, id: int,
                                              typeName: string, columns: seq<seq<int>>, dataName: string, ipName: string)
    requires |columns| > 0 && front.error.None? && |front.ids| == |columns| - 1
    requires HoldsColumns(s, front, typeName, columns[..|columns| - 1], dataName, ipName)
    requires ElementCreateAuto(front.structure, typeName, [columns[|columns| - 1]], dataName, ipName) == Success((next, id))
    ensures HoldsColumns(s, Batch(next, front.ids + [id], None), typeName, columns, dataName, ipName)
  {
    var ids := front.ids + [id];
    forall i | 0 <= i < |ids|
      ensures ids[i] in next.elements && Built(typeName, [columns[i]], dataName, ipName) == Some(next.elements[ids[i]])
    {
      if i < |front.ids| {
        assert ids[i] == front.ids[i];
        assert columns[..|columns| - 1][i] == columns[i];
      }
    }
  }

  lemma {:induction false} HoldsColumnsStopped(s: Structure, front: Batch, error: string,
                                               typeName: string, columns: seq<seq<int>>, dataName: string, ipName: string)
    requires |columns| > 0 && front.error.None? && |front.ids| == |columns| - 1
    requires HoldsColumns(s, front, typeName, columns[..|columns| - 1], dataName, ipName)
    requires ElementCreateAuto(front.structure, typeName, [columns[|columns| - 1]], dataName, ipName).Failure?
    ensures HoldsColumns(s, Batch(front.structure, front.ids, Some(error)), typeName, columns, dataName, ipName)
  {
    forall i | 0 <= i < |front.ids|
      ensures front.ids[i] in front.structure.elements && Built(typeName, [columns[i]], dataName, ipName) == Some(front.structure.elements[front.ids[i]])
    {
      assert columns[..|columns| - 1][i] == columns[i];
    }
  }

  lemma {:induction false} AppendFresh(s: Structure, front: Batch, next: Structure, id: int)
    requires FreshBatch(s, front)
    requires id !in front.structure.elements && id in next.elements
    requires forall k :: k in front.structure.elements ==> k in next.elements
    ensures FreshBatch(s, Batch(next, front.ids + [id], None))
  {
    var ids := front.ids + [id];
    assert forall i :: 0 <= i < |front.ids| ==> ids[i] == front.ids[i];
  }

  /** Removes an element from the table and from every element group; an
      unknown id fails. */
  function ElementDeleteInternal(s: Structure, id: int): (r: Result<Structure>)
    ensures r.Success? <==> id in s.elements
    ensures r.Success? ==> r.value.elements == s.elements - {id}
    ensures r.Success? ==> r.value.groups.Keys == s.groups.Keys
    ensures r.Success? ==> forall g :: g in s.groups ==>
      r.value.groups[g] == if s.groups[g].kind == ElementGroup then s.groups[g].(members := Prune(s.groups[g].members, {id})) else s.groups[g]
  {
    if id !in s.elements then Failure("Element does not exist.")
    else
      var groups := map g | g in s.groups ::
        if s.groups[g].kind == ElementGroup then s.groups[g].(members := Prune(s.groups[g].members, {id})) else s.groups[g];
      Success(s.(elements := s.elements - {id}, groups := groups))
  }

  /** The nodes referenced by any element of a table. */
  function NodesOf(elements: map<int, Element>): set<int> {
    set k, n | k in elements && n in elements[k].nodes :: n
  }

  /** The members of `members` that are not in `gone`, in order. */
  function Prune(members: seq<int>, gone: set<int>): (r: seq<int>)
    ensures forall x :: x in r <==> x in members && x !in gone
    ensures |r| <= |members|
  {
    if |members| == 0 then []
    else Prune(members[..|members| - 1], gone) + (if members[|members| - 1] in gone then [] else [members[|members| - 1]])
  }

  /** Pruning twice is pruning by the union. */
  lemma {:induction false} PruneTwice(members: seq<int>, a: set<int>, b: set<int>)
    ensures Prune(Prune(members, a), b) == Prune(members, a + b)
  {
    if |members| > 0 {
      var front := members[..|members| - 1];
      var last := members[|members| - 1];
      PruneTwice(front, a, b);
      var tail := if last in a then [] else [last];
      PruneAppend(Prune(front, a), tail, b);
    }
  }

  lemma {:induction false} PruneAppend(x: seq<int>, y: seq<int>, gone: set<int>)
    ensures Prune(x + y, gone) == Prune(x, gone) + Prune(y, gone)
    decreases |y|
  {
    if |y| > 0 {
      assert (x + y)[..|x + y| - 1] == x + y[..|y| - 1];
      PruneAppend(x, y[..|y| - 1], gone);
    } else {
      assert x + y == x;
    }
  }

  lemma {:induction false} PruneNothing(members: seq<int>)
    ensures Prune(members, {}) == members
  {
    if |members| > 0 {
      PruneNothing(members[..|members| - 1]);
      assert members[..|members| - 1] + [members[|members| - 1]] == members;
    }
  }

  /** Every element group lists existing elements, each once. */
  predicate GroupsConsistent(s: Structure) {
    forall g :: g in s.groups && s.groups[g].kind == ElementGroup ==>
      && (forall x :: x in s.groups[g].members ==> x in s.elements)
      && NoDuplicates(s.groups[g].members)
  }

  predicate NoDuplicates(xs: seq<int>) {
    forall i, j :: 0 <= i < j < |xs| ==> xs[i] != xs[j]
  }

  /** The table after removing a set of elements, as a single step. */
  function WithoutElements(s: Structure, gone: set<int>): Structure {
    var groups := map g | g in s.groups ::
      if s.groups[g].kind == ElementGroup then s.groups[g].(members := Prune(s.groups[g].members, gone)) else s.groups[g];
    s.(elements := map k | k in s.elements && k !in gone :: s.elements[k], groups := groups)
  }

  /** Deletes every element of an element group, one after the other, and
      with `deleteNodes` also the nodes of the deleted elements that no
      remaining element references. A missing group or a node group fails. */
  method ElementGroupDelete(s: Structure, groupId: int, deleteNodes: bool) returns (r: Result<Structure>)
    requires GroupsConsistent(s)
    ensures r.Success? <==> groupId in s.groups && s.groups[groupId].kind == ElementGroup
    ensures r.Success? ==>
      var gone := set x | x in s.groups[groupId].members;
      var after := WithoutElements(s, gone);
      && r.value.elements == after.elements
      && r.value.groups == after.groups
      && r.value.nodes == if deleteNodes then s.nodes - (NodesOf(map k | k in gone :: s.elements[k]) - NodesOf(after.elements)) else s.nodes
  {
    if groupId !in s.groups {
      return Failure("Group with the given identifier does not exist.");
    }
    if s.groups[groupId].kind != ElementGroup {
      return Failure("Group is not an element group.");
    }
    var order := s.groups[groupId].members;
    var gone := set x | x in order;
    var potential: set<int> := if deleteNodes then NodesOf(map k | k in gone :: s.elements[k]) else {};
    var current := DeleteAll(s, order);
    r := Success(current.(nodes := s.nodes - (potential - NodesOf(current.elements))));
  }

  /** The deletion loop over the members of the copied group. */
  method DeleteAll(s: Structure, order: seq<int>) returns (current: Structure)
    requires forall x :: x in order ==> x in s.elements
    requires NoDuplicates(order)
    ensures current == WithoutElements(s, set x | x in order)
  {
    current := s;
    WithoutNothing(s);
    assert (set x | x in order[..0]) == {};
    for i := 0 to |order|
      invariant current == WithoutElements(s, set x | x in order[..i])
    {
      var done := set x | x in order[..i];
      var e := order[i];
      assert e !in done by {
        forall j | 0 <= j < i ensures order[..i][j] != e {
          assert order[..i][j] == order[j];
        }
      }
      var next := ElementDeleteInternal(current, e);
      WithoutOneMore(s, done, e);
      var upto := order[..i + 1];
      assert upto == order[..i] + [e];
      assert done + {e} == set x | x in upto;
      current := next.value;
    }
    assert order[..|order|] == order;
  }

  /** Deleting one more element takes the bulk removal one element further. */
  lemma {:induction false} WithoutOneMore(s: Structure, done: set<int>, e: int)
    requires e in s.elements && e !in done
    ensures ElementDeleteInternal(WithoutElements(s, done), e).Success?
    ensures ElementDeleteInternal(WithoutElements(s, done), e).value == WithoutElements(s, done + {e})
  {
    var a := ElementDeleteInternal(WithoutElements(s, done), e).value;
    var b := WithoutElements(s, done + {e});
    assert a.elements == b.elements;
    forall g | g in a.groups
      ensures a.groups[g] == b.groups[g]
    {
      if s.groups[g].kind == ElementGroup {
        PruneTwice(s.groups[g].members, done, {e});
      }
    }
    assert a.groups == b.groups;
  }

  lemma {:induction false} WithoutNothing(s: Structure)
    ensures WithoutElements(s, {}) == s
  {
    var w := WithoutElements(s, {});
    forall g | g in s.groups
      ensures w.groups[g] == s.groups[g]
    {
      PruneNothing(s.groups[g].members);
    }
    assert w.groups == s.groups;
    assert w.elements == s.elements;
  }

  /** Coordinates of the `order` virtual nodes appended to the boundary node
      `countNode` (0: first node at `c0`, 1: last node at `c1`) of a 1D
      element: spaced `virtualBoundary / order` apart, continuing away from
      the element's other end. */
  function VirtualNodeCoordinates(c0: real, c1: real, countNode: nat, order: nat, virtualBoundary: real): (r: seq<real>)
    requires countNode < 2
    ensures |r| == order
    ensures order > 0 ==> forall k :: 0 <= k < order ==>
      r[k] == (if countNode == 0 then c0 else c1)
            + (if (countNode == 0) == (c0 < c1) then -1.0 else 1.0) * (k + 1) as real * (virtualBoundary / order as real)
  {
    if order == 0 then []
    else
      var deltaL := virtualBoundary / order as real;
      seq(order, k requires 0 <= k < order =>
        if countNode == 0 then
          (if c0 < c1 then c0 - (k + 1) as real * deltaL else c0 + (k + 1) as real * deltaL)
        else
          (if c0 < c1 then c1 + (k + 1) as real * deltaL else c1 - (k + 1) as real * deltaL))
  }

  /** With a positive virtual length every virtual node lies outside the
      element, beyond the boundary node it is attached to. */
  lemma {:induction false} VirtualNodesOutside(c0: real, c1: real, countNode: nat, order: nat, virtualBoundary: real, k: nat)
    requires countNode < 2 && c0 != c1 && virtualBoundary > 0.0 && k < order
    ensures var x := VirtualNodeCoordinates(c0, c1, countNode, order, virtualBoundary)[k];
            (c0 < c1 ==> x < c0 || x > c1) && (c1 < c0 ==> x < c1 || x > c0)
  {
    var deltaL := virtualBoundary / order as real;
    assert deltaL > 0.0;
    assert (k + 1) as real * deltaL > 0.0;
  }

  /** The checks of the string front end of `BoundaryElementsCreate`: the
      only accepted type is BOUNDARYGRADIENTDAMAGE1D, the two groups must
      exist and be an element and a node group, the element data must be
      CONSTITUTIVELAWIP and the ip data STATICDATA. */
  function BoundaryElementsCreateChecks(s: Structure, typeName: string, elementGroup: int, nodeGroup: int,
                                        dataName: string, ipName: string): (r: Result<()>)
    ensures r.Success? <==>
      && Upper(typeName) == "BOUNDARYGRADIENTDAMAGE1D"
      && elementGroup in s.groups && s.groups[elementGroup].kind == ElementGroup
      && nodeGroup in s.groups && s.groups[nodeGroup].kind == NodeGroup
      && Upper(dataName) == "CONSTITUTIVELAWIP" && Upper(ipName) == "STATICDATA"
  {
    if Upper(typeName) != "BOUNDARYGRADIENTDAMAGE1D" then Failure("Element type does not exist.")
    else if elementGroup !in s.groups then Failure("Group with the given identifier does not exist.")
    else if s.groups[elementGroup].kind != ElementGroup then Failure("Group is not an element group.")
    else if nodeGroup !in s.groups then Failure("Group with the given identifier does not exist.")
    else if s.groups[nodeGroup].kind != NodeGroup then Failure("Group is not a node group.")
    else if Upper(dataName) != "CONSTITUTIVELAWIP" then Failure("Element data type does not exist.")
    else if Upper(ipName) != "STATICDATA" then Failure("Ip data type does not exist.")
    else Success(())
  }
}
