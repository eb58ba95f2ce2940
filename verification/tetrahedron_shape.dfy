/** The reference-tetrahedron shape (`Tetrahedron` in math/shapes): its
    membership test on natural coordinates. */
module TetrahedronShape {
  import InterpolationTetrahedronLinear

  /** Only the tag this shape reports; the other shapes are not part of this model. */
  datatype ShapeKind = Tetrahedron

  function Enum(): ShapeKind {
    Tetrahedron
  }

  /** Strict membership in the open reference tetrahedron. */
  predicate IsWithinShape(xi: seq<real>)
    requires |xi| >= 3
  {
    var x, y, z := xi[0], xi[1], xi[2];
    0.0 < x && x < 1.0 && 0.0 < y && y < 1.0 && 0.0 < z && z < 1.0 && x + y + z < 1.0
  }

  /** The upper bounds on single coordinates are implied by the others. */
  lemma {:induction false} WithinShapeSimplified(xi: seq<real>)
    requires |xi| >= 3
    ensures IsWithinShape(xi) <==> 0.0 < xi[0] && 0.0 < xi[1] && 0.0 < xi[2] && xi[0] + xi[1] + xi[2] < 1.0
  {
  }

  /** A point is inside exactly when all four linear shape functions are
      strictly positive there. */
  lemma {:induction false} WithinShapeIffShapeFunctionsPositive(xi: seq<real>)
    requires |xi| == 3
    ensures IsWithinShape(xi) <==>
      forall i :: 0 <= i < 4 ==> InterpolationTetrahedronLinear.ShapeFunctions(xi)[i] > 0.0
  {
    var n := InterpolationTetrahedronLinear.ShapeFunctions(xi);
    assert n[0] == 1.0 - (xi[0] + xi[1] + xi[2]) && n[1] == xi[0] && n[2] == xi[1] && n[3] == xi[2];
  }

  /** The vertices lie outside, because every inequality is strict. */
  lemma {:induction false} VerticesOutside(nodeIndex: nat)
    requires nodeIndex < 4
    ensures !IsWithinShape(InterpolationTetrahedronLinear.LocalCoords(nodeIndex).value)
  {
  }

  /** Points on the face x + y + z = 1 are outside. */
  lemma {:induction false} SlantedFaceOutside(xi: seq<real>)
    requires |xi| >= 3 && xi[0] + xi[1] + xi[2] == 1.0
    ensures !IsWithinShape(xi)
  {
  }

  /** The centroid (1/4, 1/4, 1/4) is inside. */
  lemma {:induction false} CentroidInside()
    ensures IsWithinShape([0.25, 0.25, 0.25])
  {
  }
}
