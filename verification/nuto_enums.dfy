/** Enumerations shared by several NuTo components, and the upper-casing used
    to parse their names. */
module NutoEnums {

  /** Element kinds (`Element::eElementType`) that the modelled code names. */
  datatype ElementType =
    | TRUSS1D2N | TRUSS1D3N | BRICK8N | PLANE2D3N | PLANE2D4N | PLANE2D6N | PLANE2D10N
    | PLANE2D4NSPECTRALORDER2 | PLANE2D4NSPECTRALORDER3 | PLANE2D4NSPECTRALORDER4
    | TETRAHEDRON4N | TETRAHEDRON10N | BOUNDARYGRADIENTDAMAGE1D
      /** Any further kind of the library, not named by the modelled code. */
    | OtherElementType

  /** `ElementData::eElementDataType`. */
  datatype ElementDataType = CONSTITUTIVELAWIP | CONSTITUTIVELAWIPCRACK | CONSTITUTIVELAWIPNONLOCAL

  /** `IpData::eIpDataType`. */
  datatype IpDataType = NOIPDATA | STATICDATA | STATICDATANONLOCAL

  /** The node dofs (`Node::eAttributes`) that the modelled code handles, in
      the fixed order in which local start indices are assigned. A `std::set`
      of dofs iterates in the numeric order of the enumeration, which is taken
      to be this order. */
  datatype Dof =
    | COORDINATES | DISPLACEMENTS | TEMPERATURES | NONLOCALEQPLASTICSTRAIN
    | NONLOCALEQSTRAIN | RELATIVEHUMIDITY | WATERVOLUMEFRACTION

  const OrderedDofs: seq<Dof> :=
    [COORDINATES, DISPLACEMENTS, TEMPERATURES, NONLOCALEQPLASTICSTRAIN, NONLOCALEQSTRAIN, RELATIVEHUMIDITY, WATERVOLUMEFRACTION]

  /** The position of a dof in `OrderedDofs`. */
  function DofPosition(d: Dof): (i: nat)
    ensures i < |OrderedDofs| && OrderedDofs[i] == d
  {
    match d
    case COORDINATES => 0
    case DISPLACEMENTS => 1
    case TEMPERATURES => 2
    case NONLOCALEQPLASTICSTRAIN => 3
    case NONLOCALEQSTRAIN => 4
    case RELATIVEHUMIDITY => 5
    case WATERVOLUMEFRACTION => 6
  }

  /** Each dof occurs exactly once in the order. */
  lemma {:induction false} OrderedDofsDistinct(i: nat)
    requires i < |OrderedDofs|
    ensures DofPosition(OrderedDofs[i]) == i
  {
  }

  /** `Interpolation::eShapeType`. */
  datatype ShapeType = SPRING | TRUSS1D | TRUSSXD | TRIANGLE2D | QUAD2D | TETRAHEDRON3D | BRICK3D | INTERFACE | OtherShape

  /** `Interpolation::eTypeOrder`. */
  datatype TypeOrder =
    | EQUIDISTANT1 | EQUIDISTANT2 | EQUIDISTANT3 | EQUIDISTANT4
    | LOBATTO2 | LOBATTO3 | LOBATTO4 | OtherOrder

  /** The integration types (`eIntegrationType`) that the modelled code names. */
  datatype IntegrationKind =
    | NotSet | IntegrationType2D4NGauss4Ip | IntegrationType2D4NGauss9Ip
    | IntegrationType2D4NLobatto9Ip | IntegrationType2D4NLobatto16Ip | IntegrationType2D4NLobatto25Ip
    | OtherIntegration(name: string)

  /** `toupper` in the C locale: only 'a' .. 'z' change. */
  function UpperChar(c: char): char {
    if 'a' <= c <= 'z' then (c as int - 32) as char else c
  }

  function Upper(s: string): (r: string)
    ensures |r| == |s|
    ensures forall i :: 0 <= i < |s| ==> r[i] == UpperChar(s[i])
  {
    seq(|s|, i requires 0 <= i < |s| => UpperChar(s[i]))
  }

  /** Upper-casing twice is the same as once. */
  lemma {:induction false} UpperIdempotent(s: string)
    ensures Upper(Upper(s)) == Upper(s)
  {
    assert forall i :: 0 <= i < |s| ==> UpperChar(UpperChar(s[i])) == UpperChar(s[i]);
  }
}
