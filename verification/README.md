# NuTo core, modelled in Dafny

NuTo is a C++ finite-element library. This project models the small, exactly
specifiable pieces at its core: CSR sparse-matrix compaction, the element
table and element bookkeeping of a structure, interpolation and integration
tables, constraints and nodal loads, the bookkeeping of the constitutive laws,
and the control logic of the time integrators. Each piece is stated as pure
functions over immutable datatypes, and its behaviour is proved about them.

Conventions:

- Every exception the library throws is a `Failure` of `Wrappers.Result`.
- Floating-point numbers are exact `real`s.
- Eigen vectors are `seq<real>` and matrices are sequences of rows.
- A Euclidean norm compared with a tolerance is compared squared, so no
  square root is needed. That is, `|v| <= t` is stated as `v . v <= t * t`
  for `t >= 0`.
- What the modelled code obtains from collaborators outside the model is
  passed in as data or as function parameters. This covers internal forces,
  hessians, linear solves, sub-law evaluations and the natural node
  coordinates of the interpolations.

One module per source component:

| module | file | source component |
|---|---|---|
| `SparseCsr` | csr.dfy | `SparseMatrixCSR::RemoveZeroEntries`, zero- and one-based |
| `StructureElement` | structure_element.dfy | element creation, parsing, deletion and 1D boundary elements |
| `StructureBaseElement` | structure_base_element.dfy | static-data guard, element matrices, law and section assignment, energies and averages |
| `NonlocalData` | nonlocal_data.dfy | the nonlocal element list |
| `Plane2D6N` | plane2d6n.dfy | the six-node triangle |
| `BoundaryElement2D` | boundary_element_2d.dfy | boundary node selection |
| `NodeComparators` | node_comparators.dfy | node coordinate comparators |
| `MeshFem` | mesh_fem.dfy | node lookup and filters |
| `InterpolationType` | interpolation_type.dfy | dof registry, start indices, node merging, renumbering |
| `Interpolation2DQuad` | interpolation_2d_quad.dfy | quad node counts, surfaces, node search |
| `InterpolationTrussLinear`, `InterpolationTetrahedronLinear` | truss_linear.dfy, tetrahedron_linear.dfy | linear shape functions |
| `TetrahedronShape` | tetrahedron_shape.dfy | membership test |
| `IntegrationType2D4NGauss9Ip`, `IntegrationTypeBase` | integration_type_2d4n_gauss9ip.dfy, integration_type_base.dfy | the 3x3 Gauss rule and visualisation cells |
| `ConstraintLagrangeNodeGroupDisplacements1D` | constraint_lagrange_1d.dfy | augmented-Lagrange 1D constraint |
| `ConstraintDisplacementsPeriodic2D` | constraint_periodic_2d.dfy | periodic boundary conditions |
| `LoadNodeForces2D`, `GlobalDofVectors` | load_node_forces_2d.dfy, global_dof_vectors.dfy | nodal loads and the active/dependent split |
| `SectionBase` | section_base.dfy | section flags |
| `ConstitutiveBase`, `ConstitutiveIO` | constitutive_base.dfy, constitutive_io.dfy | law defaults and dispatch |
| `DamageViscoPlasticityEngineeringStress` | damage_visco_plasticity.dfy | linear-elastic path of the law |
| `AdditiveOutput`, `AdditiveInputExplicit` | additive_output.dfy, additive_input_explicit.dfy | composite laws |
| `ShrinkageCapillary` | shrinkage_capillary.dfy | capillary shrinkage law |
| `RungeKutta3` | runge_kutta3.dfy | Kutta's third-order tableau |
| `NewmarkDirect`, `ImplicitNewtonRaphson`, `LineSearch` | newmark_direct.dfy, implicit_newton_raphson.dfy, line_search.dfy | Newmark integrators |
| `VisualizePoint` | point.dfy | visualisation point |
| `NutoEnums`, `Vectors`, `Wrappers` | nuto_enums.dfy, vectors.dfy, wrappers.dfy | shared enumerations, vector helpers, results |

## Model

| member | source | states |
|---|---|---|
| VisualizePoint.FromVector | src/visualize/Point.cpp:11-16 | a point built from a vector of dimension d <= 3 has three coordinates: the d given ones, then zeros; it holds no data |
| VisualizePoint.SetData | src/visualize/Point.cpp:18-23 | the data list grows to `dataIndex + 1` entries only when it is too short; the coordinates do not change |
| VisualizePoint.SetThenGet | src/visualize/Point.cpp:18-33 | reading back slot j after `SetData` gives the vector just stored at `dataIndex`, the earlier vector in every other old slot, and an empty vector in a slot created by growing |
| VisualizePoint.ThreeVectorUnchanged | src/visualize/Point.cpp:6-9 | a 3-vector is stored exactly as given |
| TetrahedronShape.WithinShapeSimplified | src/math/shapes/Tetrahedron.h:16-22 | the test is equivalent to three positive coordinates whose sum is below one: the single-coordinate upper bounds are redundant |
| TetrahedronShape.WithinShapeIffShapeFunctionsPositive | src/math/shapes/Tetrahedron.h:16-22 | a point is inside exactly when all four linear tetrahedron shape functions are strictly positive there |
| TetrahedronShape.VerticesOutside | src/math/shapes/Tetrahedron.h:16-22 | none of the four reference vertices passes the strict test |
| TetrahedronShape.SlantedFaceOutside | src/math/shapes/Tetrahedron.h:16-22 | no point of the face x + y + z = 1 passes the test |
| TetrahedronShape.CentroidInside | src/math/shapes/Tetrahedron.h:16-22 | the centroid (1/4, 1/4, 1/4) passes the test |
| InterpolationTetrahedronLinear.LocalCoords | nuto/mechanics/interpolation/InterpolationTetrahedronLinear.cpp:38-53 | node indices 0..3 succeed and give the origin and the three unit points; every other index fails |
| InterpolationTetrahedronLinear.ShapeFunctions | nuto/mechanics/interpolation/InterpolationTetrahedronLinear.cpp:55-63 | four shape functions that sum to one at every point |
| InterpolationTetrahedronLinear.DerivativeShapeFunctions | nuto/mechanics/interpolation/InterpolationTetrahedronLinear.cpp:65-85 | a 4 x 3 matrix whose columns sum to zero |
| InterpolationTetrahedronLinear.Kronecker | nuto/mechanics/interpolation/InterpolationTetrahedronLinear.cpp:38-63 | shape function i is 1 at node i and 0 at the other three nodes |
| InterpolationTetrahedronLinear.DerivativesAreGradients | nuto/mechanics/interpolation/InterpolationTetrahedronLinear.cpp:55-85 | moving a point by h along axis k changes shape function i by h times derivative entry (i, k): the derivative matrix is the gradient |
| InterpolationTetrahedronLinear.EdgeNodeIds | nuto/mechanics/interpolation/InterpolationTetrahedronLinear.cpp:87-106 | edge indices 0..5 give two distinct node ids in 0..3; other indices fail |
| InterpolationTetrahedronLinear.EdgesCoverAllPairs | nuto/mechanics/interpolation/InterpolationTetrahedronLinear.cpp:87-106 | every pair of distinct nodes is an edge, and no two edges are the same pair |
| InterpolationTetrahedronLinear.FaceNodeIds | nuto/mechanics/interpolation/InterpolationTetrahedronLinear.cpp:113-128 | face k consists of the three nodes other than node k; other indices fail |
| InterpolationTrussLinear.LocalCoords | nuto/mechanics/interpolation/InterpolationTrussLinear.cpp:36-47 | node 0 is at -1 and node 1 at +1; any other index fails |
| InterpolationTrussLinear.ShapeFunctions | nuto/mechanics/interpolation/InterpolationTrussLinear.cpp:49-52 | two shape functions that sum to one everywhere |
| InterpolationTrussLinear.DerivativeShapeFunctions | nuto/mechanics/interpolation/InterpolationTrussLinear.cpp:54-57 | two derivatives that sum to zero |
| InterpolationTrussLinear.Kronecker | nuto/mechanics/interpolation/InterpolationTrussLinear.cpp:36-52 | shape function i is 1 at node i and 0 at the other node |
| InterpolationTrussLinear.DerivativesAreSlopes | nuto/mechanics/interpolation/InterpolationTrussLinear.cpp:49-57 | the derivatives are the exact slopes of the shape functions |
| InterpolationTrussLinear.EdgeNodeIds | nuto/mechanics/interpolation/InterpolationTrussLinear.cpp:59-62 | always fails: a truss has no edge numbering |
| InterpolationTrussLinear.FaceNodeIds | nuto/mechanics/interpolation/InterpolationTrussLinear.cpp:69-72 | always fails: a truss has no faces |
| NonlocalData.IndexOf | src/nuto/mechanics/elements/ElementDataNonlocalBase.cpp:49-53 | the first position holding the element, or -1 exactly when the element is not listed |
| NonlocalData.Added | src/nuto/mechanics/elements/ElementDataNonlocalBase.cpp:44-56 | reference behaviour: a listed element keeps the list and gives its first position; a new one is appended and gets the old length |
| NonlocalData.AddNonlocalElement | src/nuto/mechanics/elements/ElementDataNonlocalBase.cpp:47-56 | the scan returns the same list and index as the reference behaviour |
| NonlocalData.AddKeepsNoDuplicates | src/nuto/mechanics/elements/ElementDataNonlocalBase.cpp:47-56 | a duplicate-free list stays duplicate-free |
| NonlocalData.AddIdempotent | src/nuto/mechanics/elements/ElementDataNonlocalBase.cpp:47-56 | adding the same element twice changes nothing the second time and returns the same index |
| NonlocalData.CountAfterAdd | src/nuto/mechanics/elements/ElementDataNonlocalBase.cpp:25-28 | the element count grows by one exactly when the element was not yet listed |
| GlobalDofVectors.AddTo | src/nuto/mechanics/loads/LoadNodeForces2D.cpp:38-47 | adding to a global dof changes exactly that dof's entry: in the active vector below the active count, in the dependent vector shifted by the active count above it |
| LoadNodeForces2D.Create | src/nuto/mechanics/loads/LoadNodeForces2D.cpp:8-25 | the constructor succeeds exactly for a 2x1 direction of length at least 1e-14; the stored direction then has unit length, points along the given one, and the magnitude is kept |
| LoadNodeForces2D.UnitAfterScaling | src/nuto/mechanics/loads/LoadNodeForces2D.cpp:16-23 | scaling a direction by the inverse of its length gives a unit vector, and scaling back restores the direction |
| LoadNodeForces2D.AddLoadToGlobalSubVectors | src/nuto/mechanics/loads/LoadNodeForces2D.cpp:28-58 | value times direction component k is added to the node's k-th displacement dof, in the active or the dependent vector, and every other entry is unchanged |
| LoadNodeForces2D.LoadsCommute | src/nuto/mechanics/loads/LoadNodeForces2D.cpp:28-58 | applying two loads in either order gives the same vectors |
| LoadNodeForces2D.AddedForceHasMagnitude | src/nuto/mechanics/loads/LoadNodeForces2D.cpp:28-58 | for a unit direction and two distinct dofs, the added force has squared length value squared |
| Plane2D6N.GetEnumType | src/nuto/mechanics/elements/Plane2D6N.h:43-46 | the element reports the PLANE2D6N kind, a kind that requires a two-dimensional structure |
| Plane2D6N.GetNode | src/nuto/mechanics/elements/Plane2D6N.h:85-98 | a slot index in 0..5 gives one of the element's nodes |
| Plane2D6N.SetNode | src/nuto/mechanics/elements/Plane2D6N.h:104-108 | the written slot holds the new node and the other five keep theirs |
| Plane2D6N.SetNodeLaws | src/nuto/mechanics/elements/Plane2D6N.h:85-108 | writing back the node a slot already holds changes nothing, and of two writes to one slot the last wins |
| Plane2D6N.DofsPerNode | src/nuto/mechanics/elements/Plane2D6N.h:50-80 | twelve local dofs are two per node, and there is one shape function per node |
| Plane2D6N.CalculateGlobalDofs | src/nuto/mechanics/elements/Plane2D6N.h:114-117 | always fails: the global dof list is not implemented for this element |
| MeshFem.CreateInterpolation | src/mechanics/mesh/MeshFem.cpp:8-12 | the copy is appended after the existing interpolations, which stay as they were, and it is what is returned; the elements are untouched |
| MeshFem.MatchesItself | src/mechanics/mesh/MeshFem.cpp:24 | under `isMuchSmallerThan`, every position matches itself, whatever the tolerance |
| MeshFem.AllSites | src/mechanics/mesh/MeshFem.cpp:16-27 | the element-by-element scan visits exactly the sites of all elements |
| MeshFem.FirstAt | src/mechanics/mesh/MeshFem.cpp:20-26 | the node of the first site whose position matches, with no earlier site matching; failure exactly when no site matches |
| MeshFem.NodeAtCoordinate | src/mechanics/mesh/MeshFem.cpp:34-49 | fails exactly when no coordinate node of any element lies at the position; otherwise the node found is the first one, in element and then local node order, that lies there |
| MeshFem.NodeAtCoordinateDof | src/mechanics/mesh/MeshFem.cpp:14-32 | fails exactly when no dof node of the type lies at the position; otherwise the node found is the first one, in element and then local node order, whose interpolated position lies there |
| MeshFem.AxisNodes | src/mechanics/mesh/MeshFem.cpp:59-64 | the collected set holds exactly the nodes of sites whose chosen component lies strictly within `tol` of the offset |
| MeshFem.NodesAtAxis | src/mechanics/mesh/MeshFem.cpp:51-67 | the group holds exactly the coordinate nodes, over all elements, that lie on the axis |
| MeshFem.NodesAtAxisDof | src/mechanics/mesh/MeshFem.cpp:69-88 | the group holds exactly the dof nodes of the type, over all elements, whose interpolated position lies on the axis |
| MeshFem.SiteNodes | src/mechanics/mesh/MeshFem.cpp:93-95 | the set of the listed sites' nodes |
| MeshFem.NodesTotal | src/mechanics/mesh/MeshFem.cpp:90-97 | the group holds every coordinate node of every element and nothing else |
| MeshFem.NodesTotalDof | src/mechanics/mesh/MeshFem.cpp:99-106 | the group holds every dof node of the type of every element and nothing else |
| MeshFem.AxisNodesAreMeshNodes | src/mechanics/mesh/MeshFem.cpp:51-97 | the nodes on an axis are a subset of all nodes |
| MeshFem.NodeFoundAtItsPosition | src/mechanics/mesh/MeshFem.cpp:34-49 | a lookup at a coordinate node's own position always succeeds |
| SparseCsr.RowBounds | src/math/SparseMatrixCSR.cpp:135-137 | in a well-formed matrix the entries of row k lie between its two pointers, inside the value array |
| SparseCsr.MaxMagnitude | src/math/SparseMatrixCSR.cpp:96-106 | the scan's largest magnitude, starting from 0, is never negative |
| SparseCsr.MaxMagnitudeBound | src/math/SparseMatrixCSR.cpp:96-106 | no scanned magnitude exceeds the scan's maximum |
| SparseCsr.MaxBelow | src/math/SparseMatrixCSR.cpp:96-106 | the maximum is at most any non-negative bound on all scanned magnitudes: it is the least upper bound |
| SparseCsr.Survivors | src/math/SparseMatrixCSR.cpp:137-147 | the reference filter keeps at most as many entries as the range holds |
| SparseCsr.SurvivorColumnsLength | src/math/SparseMatrixCSR.cpp:141-143 | columns are filtered in lockstep with the values |
| SparseCsr.SurvivorsSplit | src/math/SparseMatrixCSR.cpp:135-150 | the survivors of a range are those of its first part followed by those of its second, which is what lets row pointers count survivors |
| SparseCsr.SurvivorsMonotone | src/math/SparseMatrixCSR.cpp:135-150 | a longer prefix never has fewer survivors |
| SparseCsr.SurvivorsAbove | src/math/SparseMatrixCSR.cpp:139 | every surviving entry lies strictly above the tolerance |
| SparseCsr.SurvivorsAll | src/math/SparseMatrixCSR.cpp:139 | when every magnitude exceeds the tolerance nothing is dropped |
| SparseCsr.RemoveZeroEntries | src/math/SparseMatrixCSR.cpp:94-156 | on a well-formed matrix: exactly the entries above the effective tolerance survive, in order and with their own columns; each row pointer becomes the base plus the survivors before its row; the result is well formed; the return value is the number of dropped entries |
| SparseCsr.CompactRows | src/math/SparseMatrixCSR.cpp:110-155 | the row loop, for a fixed tolerance, keeps exactly the survivors, rebuilds the pointers and returns the number dropped |
| SparseCsr.CompactArrays | src/math/SparseMatrixCSR.cpp:110-151 | the in-place loops leave the survivors at the front of the arrays and a non-decreasing pointer array that counts them, in both indexing modes |
| SparseCsr.PointerBounds | src/math/SparseMatrixCSR.cpp:135-149 | each old pointer lies between the base and the end of the values, above its predecessor |
| SparseCsr.PointersStep | src/math/SparseMatrixCSR.cpp:148-149 | closing a row appends its rebuilt pointer and keeps the pointers counting survivors and non-decreasing |
| SparseCsr.CompactRange | src/math/SparseMatrixCSR.cpp:137-147 | the inner loop over one row moves that row's survivors to the front and counts the dropped ones |
| SparseCsr.CompactStep | src/math/SparseMatrixCSR.cpp:139-146 | one inner step keeps the compaction state: a survivor is copied to the next free slot, a dropped entry is only counted |
| SparseCsr.CompactedMatrix | src/math/SparseMatrixCSR.cpp:152-153 | after the last row, truncating the arrays gives a well-formed matrix holding exactly the survivors |
| SparseCsr.PointerOfRow | src/math/SparseMatrixCSR.cpp:148-149 | every rebuilt pointer, the first included, counts the survivors before its row |
| SparseCsr.RowsKeepTheirEntries | src/math/SparseMatrixCSR.cpp:94-156 | no surviving entry changes row: the entries between row k's new pointers are the survivors of the old row k |
| SparseCsr.RowKeepsEntries | src/math/SparseMatrixCSR.cpp:135-150 | the same on the raw arrays, for either base |
| SparseCsr.RowSlice | src/math/SparseMatrixCSR.cpp:135-150 | within all survivors, those of a range sit between the survivor counts of its two ends |
| SparseCsr.CompactionIdempotent | src/math/SparseMatrixCSR.cpp:94-156 | compacting twice with the same tolerances removes nothing the second time |
| SparseCsr.ToleranceOfKept | src/math/SparseMatrixCSR.cpp:96-108 | dropping entries can only lower the effective tolerance |
| SparseCsr.SurvivorsBelow | src/math/SparseMatrixCSR.cpp:137-147 | a bound on all magnitudes of a range also bounds its survivors |
| SparseCsr.ScaledMonotone | src/math/SparseMatrixCSR.cpp:107 | the relative part of the tolerance grows with the largest magnitude |
| SparseCsr.RemoveZeroEntriesDouble | src/math/SparseMatrixCSR.cpp:93-156 | the double specialisation keeps the entries whose absolute value exceeds the effective tolerance, returns the count dropped and leaves a well-formed matrix |
| SparseCsr.RemoveZeroEntriesInt | src/math/SparseMatrixCSR.cpp:29-92 | the integer specialisation keeps the entries whose absolute value exceeds the effective tolerance, returns the count dropped and leaves a well-formed matrix |
| SparseCsr.IntMatchesDouble | src/math/SparseMatrixCSR.cpp:29-156 | the integer version behaves like the double one on the same numbers: the same largest magnitude and the same survivors in every range |
| SparseCsr.AsRealsAppend | src/math/SparseMatrixCSR.cpp:29-92 | converting integers to reals distributes over concatenation |
| NodeComparators.GreaterIsSwappedLess | src/nuto/mechanics/nodes/NodeBase.h:440-504 | each greater-comparator answers as its less-comparator with the two nodes swapped |
| NodeComparators.LessXIgnoresY | src/nuto/mechanics/nodes/NodeBase.h:449-455 | the x comparator looks only at x: changing the y coordinates never changes its answer |
| NodeComparators.LessYIgnoresX | src/nuto/mechanics/nodes/NodeBase.h:481-487 | the y comparator looks only at y |
| NodeComparators.StrictWeakOrders | src/nuto/mechanics/nodes/NodeBase.h:440-488 | both less-comparators are strict weak orders, as a sort requires: irreflexive and transitive, and two nodes are incomparable exactly when the compared coordinates are equal |
| NodeComparators.GetNodeType | src/nuto/mechanics/nodes/NodeBase.h:422-425 | always fails: the routine was removed |
| NodeComparators.Assign | src/nuto/mechanics/nodes/NodeBase.h:47-49 | the base-class assignment copies nothing: the target keeps its own coordinates |
| ConstitutiveBase.Construct | src/nuto/mechanics/constitutive/ConstitutiveBase.h:68 | a new law does not yet count its parameters as valid |
| ConstitutiveBase.SetParametersValid | src/nuto/mechanics/constitutive/ConstitutiveBase.h:221-228 | afterwards the flag reads valid exactly when the law's parameter check passes |
| ConstitutiveBase.Evaluate | src/nuto/mechanics/constitutive/ConstitutiveBase.h:93-106 | with unchecked parameters a failing check ends the evaluation; otherwise the evaluator of the requested dimension answers |
| ConstitutiveBase.ValidSkipsCheck | src/nuto/mechanics/constitutive/ConstitutiveBase.h:101 | once the parameters are valid the outcome of the check no longer matters |
| ConstitutiveBase.DefaultEvaluate | src/nuto/mechanics/constitutive/ConstitutiveBase.h:112-133 | an evaluator that is not overridden answers NOT_IMPLEMENTED |
| ConstitutiveBase.DefaultsNotImplemented | src/nuto/mechanics/constitutive/ConstitutiveBase.h:93-133 | a law that overrides no evaluator answers NOT_IMPLEMENTED in every dimension, and fails only when its parameter check runs and throws |
| ConstitutiveBase.AllocateStaticData | src/nuto/mechanics/constitutive/ConstitutiveBase.h:241-249 | the default history data of every dimension is the empty leaf |
| ConstitutiveIO.CombinationsOf | src/nuto/mechanics/constitutive/laws/AdditiveOutput.cpp:213-223 | the combinations recorded for a law are exactly the (row, column, time derivative) triples over the dof set that the law reports computable |
| ConstitutiveIO.RecordsAddedLaw | src/nuto/mechanics/constitutive/laws/AdditiveOutput.cpp:14-20 | adding a law's combinations keeps the record exact: a triple is recorded exactly when some attached law reports it computable |
| ConstitutiveIO.MergeInputs | src/nuto/mechanics/constitutive/laws/AdditiveOutput.cpp:192-205 | the merged input map holds exactly the inputs some law asks for |
| AdditiveOutput.Create | src/nuto/mechanics/constitutive/laws/AdditiveOutput.cpp:14-25 | a new composite law has no attached laws, no static data, and an exact (empty) record of computable combinations |
| AdditiveOutput.AddConstitutiveLaw | src/nuto/mechanics/constitutive/laws/AdditiveOutput.cpp:14-20 | fails exactly when static data were already allocated; otherwise the law is appended and the combination record stays exact |
| AdditiveOutput.AddConstitutiveLawWithoutInput | src/nuto/mechanics/constitutive/laws/AdditiveOutput.cpp:22-25 | the one-argument form fails and appends exactly as the two-argument form does |
| AdditiveOutput.ModifiedInputIgnored | src/nuto/mechanics/constitutive/laws/AdditiveOutput.cpp:14-25 | the modified input given with a law makes no difference, and the one-argument form equals the two-argument one |
| AdditiveOutput.AllocateStaticData | src/nuto/mechanics/constitutive/laws/AdditiveOutput.cpp:27-43 | allocating static data sets the flag and keeps the laws and combinations |
| AdditiveOutput.NoLawAfterAllocation | src/nuto/mechanics/constitutive/laws/AdditiveOutput.cpp:14-43 | after any allocation no further law can be attached |
| AdditiveOutput.CheckDofCombinationComputable | src/nuto/mechanics/constitutive/laws/AdditiveOutput.cpp:45-50 | a combination is computable exactly when some attached law reports it computable |
| AdditiveOutput.Sum | src/nuto/mechanics/constitutive/laws/AdditiveOutput.cpp:60-159 | the reference sum of one output over the laws that calculated it has the output's size |
| AdditiveOutput.Accumulate | src/nuto/mechanics/constitutive/laws/AdditiveOutput.cpp:60-159 | fails exactly when some law calculated an output kind the switch does not handle; otherwise every requested output holds the reference sum and is flagged calculated exactly when some law calculated it |
| AdditiveOutput.SnocFacts | src/nuto/mechanics/constitutive/laws/AdditiveOutput.cpp:67-159 | the summary facts over k+1 laws follow from those over the first k and the last law |
| AdditiveOutput.AddIn | src/nuto/mechanics/constitutive/laws/AdditiveOutput.cpp:77-158 | one law's calculated outputs are added to the accumulated ones and flag them calculated; the others are unchanged |
| AdditiveOutput.Evaluate | src/nuto/mechanics/constitutive/laws/AdditiveOutput.cpp:52-168 | fails exactly on an unhandled calculated kind; otherwise each requested output is zeroed and then receives the sum of the laws' calculated values, and the error code is the last law's |
| AdditiveOutput.EarlierErrorsDropped | src/nuto/mechanics/constitutive/laws/AdditiveOutput.cpp:67-75 | an error code from an earlier law is overwritten: NOT_IMPLEMENTED then SUCCESSFUL reports SUCCESSFUL |
| AdditiveOutput.SumOfTwo | src/nuto/mechanics/constitutive/laws/AdditiveOutput.cpp:60-159 | the order in which two laws are attached does not change the sums |
| AdditiveOutput.GetConstitutiveInputs | src/nuto/mechanics/constitutive/laws/AdditiveOutput.cpp:192-205 | the composite law asks for exactly the inputs some attached law asks for |
| AdditiveInputExplicit.Create | src/nuto/mechanics/constitutive/laws/AdditiveInputExplicit.cpp:7-14 | a new composite law has no output law, no modifying laws, no static data, a consistent modified-input set and an exact combination record; these are the initial values the checks at these lines rely on (the constructor in AdditiveInputExplicit.h is not part of this model) |
| AdditiveInputExplicit.AddConstitutiveLaw | src/nuto/mechanics/constitutive/laws/AdditiveInputExplicit.cpp:5-22 | fails exactly when static data exist or a second output law is attached; a law given with NONE becomes the output law, any other joins the modifying laws with its input; every attached law keeps the combination record exact |
| AdditiveInputExplicit.AddKeepsConsistent | src/nuto/mechanics/constitutive/laws/AdditiveInputExplicit.cpp:9-20 | the modified-input set stays exactly the set of inputs the modifying laws modify |
| AdditiveInputExplicit.OnlyOneOutputLaw | src/nuto/mechanics/constitutive/laws/AdditiveInputExplicit.cpp:9-15 | once an output law is attached, attaching another one with NONE fails |
| AdditiveInputExplicit.CheckDofCombinationComputable | src/nuto/mechanics/constitutive/laws/AdditiveInputExplicit.cpp:25-30 | a combination is computable exactly when some attached law, output or modifying, reports it computable |
| AdditiveInputExplicit.FactorOf | src/nuto/mechanics/constitutive/laws/AdditiveInputExplicit.cpp:122-150 | each stress derivative is assembled from its matching strain derivative, and the two maps are inverse |
| AdditiveInputExplicit.StressDerivativeOf | src/nuto/mechanics/constitutive/laws/AdditiveInputExplicit.cpp:51-65 | each strain derivative a modifying law supplies serves one stress derivative |
| AdditiveInputExplicit.Fresh | src/nuto/mechanics/constitutive/laws/AdditiveInputExplicit.cpp:44 | a freshly made output is zero and not flagged calculated |
| AdditiveInputExplicit.Prepare | src/nuto/mechanics/constitutive/laws/AdditiveInputExplicit.cpp:51-65 | before a law that modifies the strain, the strain derivative behind each requested stress derivative is made afresh; nothing else changes |
| AdditiveInputExplicit.Write | src/nuto/mechanics/constitutive/laws/AdditiveInputExplicit.cpp:67-81 | a law writes each output it calculates that is present in its map and flags it; the keys stay the same |
| AdditiveInputExplicit.EvalsSnoc | src/nuto/mechanics/constitutive/laws/AdditiveInputExplicit.cpp:49-99 | the facts about all modifying laws split into those about the earlier laws and the last one |
| AdditiveInputExplicit.LastStrainWrite | src/nuto/mechanics/constitutive/laws/AdditiveInputExplicit.cpp:86-92 | the strain held in the modified output map is the last one a modifying law wrote, zero if none did |
| AdditiveInputExplicit.LastWrite | src/nuto/mechanics/constitutive/laws/AdditiveInputExplicit.cpp:67-96 | an output nobody makes afresh keeps its initial value or holds a calculated one |
| AdditiveInputExplicit.TotalSubtracted | src/nuto/mechanics/constitutive/laws/AdditiveInputExplicit.cpp:86-92 | after each modifying law the strain then held in the map is subtracted, so the total has the strain's size |
| AdditiveInputExplicit.Step | src/nuto/mechanics/constitutive/laws/AdditiveInputExplicit.cpp:49-99 | one modifying law: the map only grows, the held strain is the one the law wrote (or the previous one), that strain is subtracted from the input strain, and every output that is not a strain derivative holds what the law calculated for it or keeps its value |
| AdditiveInputExplicit.RunModifiers | src/nuto/mechanics/constitutive/laws/AdditiveInputExplicit.cpp:49-99 | fails exactly when some modifying law returns an error code; otherwise the strain handed on is the input strain minus the total subtracted, every output that is not a strain derivative holds the last value a modifying law calculated for it, and without a strain-modifying law no new output is made |
| AdditiveInputExplicit.SubtractStep | src/nuto/mechanics/constitutive/laws/AdditiveInputExplicit.cpp:91 | subtracting two vectors in turn subtracts their sum |
| AdditiveInputExplicit.Rows | src/nuto/mechanics/constitutive/laws/AdditiveInputExplicit.cpp:125-129 | a flat row-major tangent seen as its n rows |
| AdditiveInputExplicit.Assembled | src/nuto/mechanics/constitutive/laws/AdditiveInputExplicit.cpp:129 | an assembled stress derivative is calculated and has n components |
| AdditiveInputExplicit.CopyBack | src/nuto/mechanics/constitutive/laws/AdditiveInputExplicit.cpp:93-96 | each requested output other than the strain takes its content from the modified output map |
| AdditiveInputExplicit.Evaluate | src/nuto/mechanics/constitutive/laws/AdditiveInputExplicit.cpp:33-158 | fails without an input strain, when a modifying law returns an error, or when a requested stress derivative cannot be assembled; otherwise the output law is handed the input strain minus the subtracted strains, its error code is returned, each requested stress derivative is the tangent times its strain derivative, and every other requested output (not a strain derivative) holds what the output law calculated for it, else what the last modifying law calculated for it, else its own value |
| AdditiveInputExplicit.Finish | src/nuto/mechanics/constitutive/laws/AdditiveInputExplicit.cpp:86-157 | after the modifying laws each requested output other than a stress derivative holds what the output law calculated for it, else (the strain aside) what the modified output map holds; the stress derivatives are assembled from the output law's tangent; it fails only when a stress derivative was requested |
| AdditiveInputExplicit.Assemble | src/nuto/mechanics/constitutive/laws/AdditiveInputExplicit.cpp:117-156 | fails exactly when a requested stress derivative lacks the tangent or a calculated strain derivative; otherwise each is the tangent times its strain derivative and every other output is unchanged |
| AdditiveInputExplicit.SumOfStrains | src/nuto/mechanics/constitutive/laws/AdditiveInputExplicit.cpp:86-92 | the sum of the strains the modifying laws report has the strain's size |
| AdditiveInputExplicit.SubtractsReportedStrains | src/nuto/mechanics/constitutive/laws/AdditiveInputExplicit.cpp:86-92 | when every modifying law writes a strain, the subtracted total is the sum of the reported strains |
| AdditiveInputExplicit.StaleStrainSubtractedAgain | src/nuto/mechanics/constitutive/laws/AdditiveInputExplicit.cpp:44-92 | a modifying law that writes no strain subtracts again the strain the previous law wrote: strain 1 then nothing subtracts 2 |
| AdditiveInputExplicit.NoStrainModifierNoDerivative | src/nuto/mechanics/constitutive/laws/AdditiveInputExplicit.cpp:51-65 | without a strain-modifying law no strain derivative is made, so a requested stress derivative whose strain derivative was not requested makes the evaluation fail |
| AdditiveInputExplicit.GetConstitutiveInputs | src/nuto/mechanics/constitutive/laws/AdditiveInputExplicit.cpp:162-184 | the inputs are exactly those some modifying law or the output law asks for, plus the engineering strain |
| AdditiveInputExplicit.GetOutputEnumFromInputEnum | src/nuto/mechanics/constitutive/laws/AdditiveInputExplicit.cpp:188-197 | only the engineering strain input has an output counterpart, the engineering strain; every other input fails |
| SectionBase.StoredIn | src/nuto/mechanics/sections/SectionBase.cpp:177-189 | the rotation accessors store into the displacement flag; every other accessor pair stores into its own flag |
| SectionBase.Default | src/nuto/mechanics/sections/SectionBase.cpp:17-30 | a new section has exactly the deformation-gradient input and the displacement dof switched on, and nothing else |
| SectionBase.Set | src/nuto/mechanics/sections/SectionBase.cpp:51-203 | a setter changes exactly the flag its accessor stores into (the displacement flag for rotations) and leaves every other getter's answer unchanged |
| SectionBase.GetExtensional | src/nuto/mechanics/sections/SectionBase.cpp:42-203 | two sections that answer every getter alike are the same section |
| SectionBase.SetIdempotent | src/nuto/mechanics/sections/SectionBase.cpp:51-203 | setting a flag to what it already reads changes nothing, and a second set overrides the first |
| SectionBase.RotationAliasesDisplacement | src/nuto/mechanics/sections/SectionBase.cpp:163-189 | the rotation getter reads the displacement flag, and setting rotations is setting displacements |
| SectionBase.NumInputConstitutive | src/nuto/mechanics/sections/SectionBase.cpp:32-35 | the input count is between 0 and 3: zero exactly when temperature, temperature gradient and deformation gradient are all off, three exactly when all three are on |
| SectionBase.NumDofs | src/nuto/mechanics/sections/SectionBase.cpp:37-40 | the dof count is between 0 and 2: zero exactly when neither displacements nor temperatures are dofs, two exactly when both are |
| SectionBase.DefaultCounts | src/nuto/mechanics/sections/SectionBase.cpp:17-40 | a new section has one constitutive input and one dof |
| SectionBase.NumInputAfterSet | src/nuto/mechanics/sections/SectionBase.cpp:32-203 | setting a flag changes the input count by the change of that flag when it is one of the three counted inputs, and not at all otherwise; the nonlocal inputs are never counted |
| SectionBase.NumDofsAfterSet | src/nuto/mechanics/sections/SectionBase.cpp:37-203 | setting a flag changes the dof count exactly when it stores into the displacement or the temperature flag; the nonlocal dofs are never counted |
| SectionBase.GetArea | src/nuto/mechanics/sections/SectionBase.cpp:205-208 | the base section always fails: it has no cross-section area |
| SectionBase.SetArea | src/nuto/mechanics/sections/SectionBase.cpp:210-213 | setting an area on the base section always fails |
| SectionBase.GetThickness | src/nuto/mechanics/sections/SectionBase.cpp:215-218 | the base section always fails: it has no thickness |
| SectionBase.SetThickness | src/nuto/mechanics/sections/SectionBase.cpp:220-223 | setting a thickness on the base section always fails |
| ShrinkageCapillary.CheckDofCombinationComputable | src/nuto/mechanics/constitutive/laws/ShrinkageCapillaryStressBased.cpp:14-23 | computable exactly for displacement rows against relative-humidity or water-volume-fraction columns without time derivative |
| ShrinkageCapillary.ContributedCombinations | src/nuto/mechanics/constitutive/laws/ShrinkageCapillaryStressBased.cpp:14-23 | attached to a composite law, the law contributes exactly those two couplings |
| ShrinkageCapillary.CheckParameters | src/nuto/mechanics/constitutive/laws/ShrinkageCapillaryStressBased.cpp:25-28 | there is nothing to check: it always succeeds |
| ShrinkageCapillary.GetConstitutiveInputs | src/nuto/mechanics/constitutive/laws/ShrinkageCapillaryStressBased.cpp:34-54 | humidity and water content are requested exactly when one of the three stress outputs is, and nothing otherwise |
| ShrinkageCapillary.GetParameterDouble | src/nuto/mechanics/constitutive/laws/ShrinkageCapillaryStressBased.cpp:56-65 | succeeds exactly for the temperature and returns it; any other parameter fails |
| ShrinkageCapillary.SetParameterDouble | src/nuto/mechanics/constitutive/laws/ShrinkageCapillaryStressBased.cpp:67-77 | succeeds exactly for the temperature; any other parameter fails |
| ShrinkageCapillary.TemperatureRoundTrip | src/nuto/mechanics/constitutive/laws/ShrinkageCapillaryStressBased.cpp:56-77 | the temperature reads back as set, and writing back what was read changes nothing |
| ShrinkageCapillary.Evaluate | src/nuto/mechanics/constitutive/laws/ShrinkageCapillaryStressBased.cpp:79-172 | always successful; each requested stress output has its first dim components set to its scalar, the rest kept, and is flagged calculated; every other output is untouched |
| ShrinkageCapillary.EvaluateIdempotent | src/nuto/mechanics/constitutive/laws/ShrinkageCapillaryStressBased.cpp:79-172 | evaluating again on the result changes nothing |
| ShrinkageCapillary.OneDimensionalStress | src/nuto/mechanics/constitutive/laws/ShrinkageCapillaryStressBased.cpp:112-131 | in one dimension the stress output is exactly the capillary stress, flagged calculated |
| RungeKutta3.GetStageTimeFactor | src/mechanics/timeIntegration/RungeKutta3.cpp:38-57 | succeeds exactly for stages 0, 1 and 2, with the node c of Kutta's tableau: 0, 1/2, 1 |
| RungeKutta3.HasTimeChanged | src/mechanics/timeIntegration/RungeKutta3.cpp:62-81 | succeeds exactly for stages 0, 1 and 2, and is true for the middle stage only |
| RungeKutta3.GetStageDerivativeFactor | src/mechanics/timeIntegration/RungeKutta3.cpp:85-103 | succeeds exactly for stages 0, 1 and 2: the first stage-many weights become that row of the tableau's coefficients, the rest are left as they were |
| RungeKutta3.GetStageWeights | src/mechanics/timeIntegration/RungeKutta3.cpp:106-125 | succeeds exactly for stages 0, 1 and 2, with the weights 1/6, 2/3, 1/6 |
| RungeKutta3.RowSumsAreNodes | src/mechanics/timeIntegration/RungeKutta3.cpp:38-103 | each stage's coefficients add up to its node, whatever the weight vector held before |
| RungeKutta3.WeightsSumToOne | src/mechanics/timeIntegration/RungeKutta3.cpp:106-125 | the three weights add up to one |
| RungeKutta3.ThirdOrderConditions | src/mechanics/timeIntegration/RungeKutta3.cpp:38-125 | nodes, coefficients and weights meet the three conditions for order three |
| StructureBaseElement.TmpStaticDataGuard | src/nuto/mechanics/structures/StructureBaseElement.cpp:369-372 | the element queries fail exactly while temporary static data exist and still wait for their update |
| StructureBaseElement.ElementGet | src/nuto/mechanics/structures/unstructured/StructureElement.cpp:28-41 | succeeds exactly for an existing element id, with that element |
| StructureBaseElement.ElementQuery | src/nuto/mechanics/structures/StructureBaseElement.cpp:369-374 | an element query succeeds exactly when no temporary update is pending and the element exists, and it then works on that element |
| StructureBaseElement.ElementCoefficientMatrix0AsWritten | src/nuto/mechanics/structures/StructureBaseElement.cpp:359-405 | fails exactly when the query fails; the row dofs are returned, and the column output, of the column count, holds the row dofs |
| StructureBaseElement.AsWrittenReturnsRowsAsColumns | src/nuto/mechanics/structures/StructureBaseElement.cpp:400-404 | for an element with rows [0, 1] and columns [2, 3] the code as written returns [0, 1] as columns, where the corrected version returns [2, 3] |
| StructureBaseElement.ElementCoefficientMatrix0 | src/nuto/mechanics/structures/StructureBaseElement.cpp:359-405 | fails exactly when a temporary update is pending or the element is missing; otherwise returns the element's row and column dofs each in its own output, as the mass matrix does |
| StructureBaseElement.SymmetricDofsAgree | src/nuto/mechanics/structures/StructureBaseElement.cpp:400-404 | when rows equal columns, the version as written and the corrected one agree |
| StructureBaseElement.ElementCoefficientMatrix1 | src/nuto/mechanics/structures/StructureBaseElement.cpp:465-471 | always fails: not implemented |
| StructureBaseElement.ElementSet | src/nuto/mechanics/structures/StructureBaseElement.cpp:521-557 | succeeds exactly when the element and the law (or section) exist and the element accepts it; then that element alone gets the law or section and nothing else changes |
| StructureBaseElement.GroupMembers | src/nuto/mechanics/structures/StructureBaseElement.cpp:562-572 | succeeds exactly for an existing group of elements, with its members |
| StructureBaseElement.ElementGroupSet | src/nuto/mechanics/structures/StructureBaseElement.cpp:562-607 | no failure exactly when the group is an existing element group, the law (or section) exists and every member accepts it; a failed group or law check changes nothing, otherwise the members before the first refusing one, in group order, get it |
| StructureBaseElement.AcceptedPrefix | src/nuto/mechanics/structures/StructureBaseElement.cpp:580-601 | the members from the front that accept, up to the first one that refuses |
| StructureBaseElement.SetEach | src/nuto/mechanics/structures/StructureBaseElement.cpp:580-601 | the member loop fails exactly when some member refuses, and leaves exactly the members before the first refusal assigned |
| StructureBaseElement.AllAcceptMembers | src/nuto/mechanics/structures/StructureBaseElement.cpp:580-601 | every member accepting by position is every listed id accepting |
| StructureBaseElement.ElementTotalSet | src/nuto/mechanics/structures/StructureBaseElement.cpp:611-645 | no failure exactly when the law (or section) exists and every element accepts it; a missing law changes nothing, otherwise the elements before the first refusing one, in listing order, get it |
| StructureBaseElement.TotalSetAssignsEveryElement | src/nuto/mechanics/structures/StructureBaseElement.cpp:611-645 | when the listing names every element and all accept, every element gets the law or section |
| StructureBaseElement.SetEachIsAssignAll | src/nuto/mechanics/structures/StructureBaseElement.cpp:580-601 | when every member accepts, the loop, one element after the other, gives the same structure as assigning all members at once, without failure |
| StructureBaseElement.AssignAllCompose | src/nuto/mechanics/structures/StructureBaseElement.cpp:521-640 | assigning the same law or section to two sets of elements in turn is assigning it to their union |
| StructureBaseElement.GroupOfAllIsTotal | src/nuto/mechanics/structures/StructureBaseElement.cpp:562-645 | with every element accepting, setting a group that holds exactly the listed elements is setting all elements |
| StructureBaseElement.ElementSetIdempotent | src/nuto/mechanics/structures/StructureBaseElement.cpp:521-557 | assigning the same law or section to an element twice is assigning it once |
| StructureBaseElement.UpdateTmpStaticData | src/nuto/mechanics/structures/StructureBaseElement.cpp:1152-1187 | afterwards no temporary update is pending; each element's temporary static data are updated exactly once if the structure has them and not at all otherwise; nothing else changes |
| StructureBaseElement.UpdateStaticData | src/nuto/mechanics/structures/StructureBaseElement.cpp:1099-1135 | a pending temporary update is done first, then every element updates its static data exactly once; the pending flag stays set only when the structure has no temporary static data |
| StructureBaseElement.UpdatesReleaseGuard | src/nuto/mechanics/structures/StructureBaseElement.cpp:1099-1187 | after either update the element queries are no longer blocked |
| StructureBaseElement.IpSumAppend | src/nuto/mechanics/structures/StructureBaseElement.cpp:1399-1465 | the energy sum over two runs of integration points is the sum of the two sums |
| StructureBaseElement.EnergyIsSumOverAllIps | src/nuto/mechanics/structures/StructureBaseElement.cpp:1399-1465 | the total (or elastic) energy is one sum, over every integration point of every listed element, of the first energy row times the second |
| StructureBaseElement.ElementTotalGetEnergy | src/nuto/mechanics/structures/StructureBaseElement.cpp:1399-1465 | the total (or elastic) energy of the structure is one sum, over every integration point of every element, of the first energy row times the second |
| StructureBaseElement.EnergyAdditive | src/nuto/mechanics/structures/StructureBaseElement.cpp:1399-1465 | the energy of two lists of elements is the sum of their energies |
| StructureBaseElement.Integrated | src/nuto/mechanics/structures/StructureBaseElement.cpp:1199-1232 | an element's integrated stress or strain is a Voigt 6-vector |
| StructureBaseElement.IntegratedSum | src/nuto/mechanics/structures/StructureBaseElement.cpp:1199-1232 | the integrated values of the listed elements, added up, form a 6-vector |
| StructureBaseElement.ElementTotalGetAverage | src/nuto/mechanics/structures/StructureBaseElement.cpp:1199-1232 | the average stress (or strain) times the volume is the sum of the integrated values over all elements, component by component |
| StructureBaseElement.ElementGroupGetAverage | src/nuto/mechanics/structures/StructureBaseElement.cpp:1246-1290 | succeeds exactly for an existing element group; the average times the volume is the sum of the integrated values over the group's members |
| StructureBaseElement.ScaleByInverse | src/nuto/mechanics/structures/StructureBaseElement.cpp:1232 | dividing by the volume and multiplying back gives the sum again |
| StructureBaseElement.IntegratedSumAdditive | src/nuto/mechanics/structures/StructureBaseElement.cpp:1199-1290 | the integrated sums of two lists of elements add up component by component |
| StructureElement.FreshFrom | src/nuto/mechanics/structures/unstructured/StructureElement.cpp:390-397 | the probe ends at the first id at or above the start that is not in use: every id passed on the way is taken |
| StructureElement.FreshElementId | src/nuto/mechanics/structures/unstructured/StructureElement.cpp:387-400 | an auto-numbered element gets an unused id no smaller than the number of elements |
| StructureElement.ParseElementType | src/nuto/mechanics/structures/unstructured/StructureElement.cpp:431-466 | a type name is accepted, whatever its case, exactly when it upper-cases to one of the seven creatable types |
| StructureElement.ParseElementTypeRoundTrip | src/nuto/mechanics/structures/unstructured/StructureElement.cpp:431-466 | any spelling of a creatable type's name parses back to that type |
| StructureElement.ParseElementDataType | src/nuto/mechanics/structures/unstructured/StructureElement.cpp:469-488 | an element-data name is accepted exactly when it upper-cases to CONSTITUTIVELAWIP, CONSTITUTIVELAWIPCRACK or CONSTITUTIVELAWIPNONLOCAL |
| StructureElement.ParseIpDataType | src/nuto/mechanics/structures/unstructured/StructureElement.cpp:491-510 | an ip-data name is accepted exactly when it upper-cases to NOIPDATA, STATICDATA or STATICDATANONLOCAL |
| StructureElement.RequiredDimension | src/nuto/mechanics/structures/unstructured/StructureElement.cpp:545-598 | exactly the seven creatable types have a required structure dimension; the typed creation rejects every other type |
| StructureElement.ElementCreateTyped | src/nuto/mechanics/structures/unstructured/StructureElement.cpp:545-605 | succeeds exactly when the type's dimension is the structure's; then the id is the one key added, a new id gets the element, and nothing but the element table changes |
| StructureElement.ElementCreate | src/nuto/mechanics/structures/unstructured/StructureElement.cpp:411-521 | fails on an existing id, a node matrix without exactly one column, an unknown node, any unknown name or a dimension mismatch, and succeeds otherwise, storing exactly the parsed element under the id |
| StructureElement.ElementCreateAuto | src/nuto/mechanics/structures/unstructured/StructureElement.cpp:387-400 | on success the returned id was unused and is the only key added, it holds the element built from the type, the incidence and the data names, and nothing else of the structure changes |
| StructureElement.ElementsCreate | src/nuto/mechanics/structures/unstructured/StructureElement.cpp:627-643 | one element per column: without a failure every column yields an id, and never more ids than columns |
| StructureElement.ElementsCreateHoldsColumns | src/nuto/mechanics/structures/unstructured/StructureElement.cpp:606-643 | the id created i-th holds the element built from column i; the elements made before a failure are kept, and a failure is the failure of the first column that could not be created |
| StructureElement.ElementsCreateFresh | src/nuto/mechanics/structures/unstructured/StructureElement.cpp:606-643 | the elements created by one call keep every earlier element, are new, distinct and present afterwards |
| StructureElement.AppendFresh | src/nuto/mechanics/structures/unstructured/StructureElement.cpp:627-643 | adding one more fresh element to a batch keeps the batch fresh |
| StructureElement.ElementDeleteInternal | src/nuto/mechanics/structures/unstructured/StructureElement.cpp:736-763 | succeeds exactly for an existing element; the element leaves the table and every element group, node groups and everything else stay |
| StructureElement.Prune | src/nuto/mechanics/structures/unstructured/StructureElement.cpp:736-763 | a group loses exactly the deleted members and keeps the others in order |
| StructureElement.PruneTwice | src/nuto/mechanics/structures/unstructured/StructureElement.cpp:660-735 | deleting one set of members after another is deleting their union |
| StructureElement.PruneAppend | src/nuto/mechanics/structures/unstructured/StructureElement.cpp:736-763 | pruning a concatenation prunes each part |
| StructureElement.PruneNothing | src/nuto/mechanics/structures/unstructured/StructureElement.cpp:736-763 | deleting nothing leaves a group as it was |
| StructureElement.ElementGroupDelete | src/nuto/mechanics/structures/unstructured/StructureElement.cpp:660-735 | fails exactly for a missing group or a node group; otherwise every member leaves the element table and all groups, and with deleteNodes exactly the nodes of the deleted elements that no remaining element uses are deleted |
| StructureElement.DeleteAll | src/nuto/mechanics/structures/unstructured/StructureElement.cpp:674-708 | deleting the members one after the other equals removing them all at once |
| StructureElement.WithoutOneMore | src/nuto/mechanics/structures/unstructured/StructureElement.cpp:736-763 | deleting one more element takes the bulk removal one element further |
| StructureElement.WithoutNothing | src/nuto/mechanics/structures/unstructured/StructureElement.cpp:660-735 | removing no elements changes nothing |
| StructureElement.VirtualNodeCoordinates | src/nuto/mechanics/structures/unstructured/StructureElement.cpp:220-285 | the virtual nodes at a boundary node are spaced virtualBoundary/order apart, the k-th at k+1 spacings beyond the boundary node, continuing away from the element's other end |
| StructureElement.VirtualNodesOutside | src/nuto/mechanics/structures/unstructured/StructureElement.cpp:259-285 | with a positive virtual length every virtual node lies outside the element |
| StructureElement.BoundaryElementsCreateChecks | src/nuto/mechanics/structures/unstructured/StructureElement.cpp:138-213 | succeeds exactly for type BOUNDARYGRADIENTDAMAGE1D, an existing element group, an existing node group, element data CONSTITUTIVELAWIP and ip data STATICDATA, checked in that order |
| NewmarkDirect.DisplacementUpdate | src/mechanics/timeIntegration/NewmarkDirect.cpp:159-166 | the acceleration of CalculateDof2 is the one for which the Newmark displacement update d = h v + h^2((1/2 - beta) a + beta a_new) holds |
| NewmarkDirect.VelocityUpdate | src/mechanics/timeIntegration/NewmarkDirect.cpp:149-166 | the velocity of CalculateDof1 equals the Newmark velocity update v + h((1 - gamma) a + gamma a_new) with CalculateDof2's acceleration |
| NewmarkDirect.CalculateDof2 | src/mechanics/timeIntegration/NewmarkDirect.cpp:159-166 | per dof, the new acceleration satisfies the Newmark displacement update with the given increment, velocity and acceleration |
| NewmarkDirect.CalculateDof1 | src/mechanics/timeIntegration/NewmarkDirect.cpp:149-156 | per dof, the new velocity is the old one plus h times the gamma-weighted mix of old and new (CalculateDof2) acceleration |
| NewmarkDirect.AccelerationUnique | src/mechanics/timeIntegration/NewmarkDirect.cpp:159-166 | any acceleration vector satisfying the Newmark displacement update is CalculateDof2's result |
| NewmarkDirect.ShiftedIncrement | src/mechanics/timeIntegration/NewmarkDirect.cpp:92-98 | shifting the increment by alpha delta shifts acceleration by alpha delta/(h^2 beta) and velocity by alpha gamma delta/(h beta), the line-search trial steps |
| NewmarkDirect.Predicted | src/mechanics/timeIntegration/NewmarkDirect.cpp:456-463 | the predicted state is last displacement plus increment, with velocity and acceleration from the Newmark updates |
| NewmarkDirect.TrialState | src/mechanics/timeIntegration/NewmarkDirect.cpp:92-98 | a trial moves displacements by alpha delta and velocities and accelerations by their Newmark factors, leaving them untouched when the structure lacks that time derivative |
| NewmarkDirect.TrialEntry | src/mechanics/timeIntegration/NewmarkDirect.cpp:92-98 | one dof of a two-derivative trial moves velocity and acceleration by the Newmark factors |
| NewmarkDirect.TrialDofShifted | src/mechanics/timeIntegration/NewmarkDirect.cpp:92-98 | one dof of a trial from the predicted state equals the predicted dof of the shifted increment |
| NewmarkDirect.TrialVelocity | src/mechanics/timeIntegration/NewmarkDirect.cpp:92-98 | trial velocities from the predicted state are the Newmark velocities of increment d + alpha delta |
| NewmarkDirect.TrialAcceleration | src/mechanics/timeIntegration/NewmarkDirect.cpp:92-98 | trial accelerations from the predicted state are the Newmark accelerations of increment d + alpha delta |
| NewmarkDirect.TrialStaysNewmark | src/mechanics/timeIntegration/NewmarkDirect.cpp:92-98 | every line-search trial from the predicted state is itself the predicted state of the shifted increment, so it stays on the Newmark relations |
| NewmarkDirect.DotCombination | src/mechanics/timeIntegration/NewmarkDirect.cpp:182 | a row times mu v + a is mu times the row times v plus the row times a |
| NewmarkDirect.CalculateResidual | src/mechanics/timeIntegration/NewmarkDirect.cpp:169-185 | residual plus internal force equals external force; with two time derivatives the damping force mu M v and inertia M a are also balanced |
| NewmarkDirect.InertiaTerms | src/mechanics/timeIntegration/NewmarkDirect.cpp:182 | M (mu v + a) splits row by row into mu M v + M a |
| NewmarkDirect.CalculateMuDampingMatrix | src/mechanics/timeIntegration/NewmarkDirect.cpp:136-147 | fails exactly when mu-damping is on without a mass matrix; otherwise every row is mu times the mass row |
| NewmarkDirect.DotScaled | src/mechanics/timeIntegration/NewmarkDirect.cpp:136-147 | a row scaled by mu, times a vector, is mu times the product |
| NewmarkDirect.ResidualUsesDampingMatrix | src/mechanics/timeIntegration/NewmarkDirect.cpp:136-147 | with a mass matrix the residual's damping term is exactly the damping matrix of CalculateMuDampingMatrix times the velocities |
| NewmarkDirect.InitialStateAsWritten | src/mechanics/timeIntegration/NewmarkDirect.cpp:286-334 | as written: fails exactly for a zero maximum step, an empty stage, or an initial residual above tolerance; no stage list becomes one stage of the active dofs |
| NewmarkDirect.AsWrittenAcceptsMuDampingWithoutMass | src/mechanics/timeIntegration/NewmarkDirect.cpp:310-314 | a setting CalculateMuDampingMatrix rejects (mu-damping with one time derivative) is accepted by InitialState as written |
| NewmarkDirect.InitialState | src/mechanics/timeIntegration/NewmarkDirect.cpp:286-334 | corrected: fails exactly for a zero maximum step, an empty stage, mu-damping without a mass matrix, or an out-of-equilibrium start; the damping matrix exists exactly with a mass matrix |
| NewmarkDirect.InitialStateAgrees | src/mechanics/timeIntegration/NewmarkDirect.cpp:286-334 | the corrected and as-written checks agree on every consistent setting |
| NewmarkDirect.Iterate | src/mechanics/timeIntegration/NewmarkDirect.cpp:77-131 | the iteration count stays within the budget, ends converged or at the maximum, does nothing if already converged, and with line search never raises the residual norm |
| NewmarkDirect.FindEquilibrium | src/mechanics/timeIntegration/NewmarkDirect.cpp:66-134 | returns a count at most the maximum and a norm below tolerance unless the count is the maximum; with line search the final norm is at most the initial one |
| NewmarkDirect.FailedLineSearchStops | src/mechanics/timeIntegration/NewmarkDirect.cpp:116-131 | a line search that fails in the first iteration ends the search at the maximum count with the initial norm |
| NewmarkDirect.MinTimeStep | src/mechanics/timeIntegration/NewmarkDirect.cpp:32-36 | with automatic stepping an unset minimum becomes the step times 1/64 (six halvings); otherwise the minimum is kept |
| NewmarkDirect.CheckTimeStep | src/mechanics/timeIntegration/NewmarkDirect.cpp:50-52 | the step check passes exactly when the step is at least the minimum |
| NewmarkDirect.AfterEquilibrium | src/mechanics/timeIntegration/NewmarkDirect.cpp:474-528 | fails exactly when unconverged without automatic stepping; converged keeps the time and grows the step by 1.5 only with automatic stepping and under a quarter of the iterations; unconverged goes back to the previous time with half the step |
| NewmarkDirect.SolveStep | src/mechanics/timeIntegration/NewmarkDirect.cpp:38-63 | a step succeeds exactly when the step is at least the minimum and the search converges or stepping is automatic; converged time advances by the step, unconverged stays with half the step |
| NewmarkDirect.RetryHalves | src/mechanics/timeIntegration/NewmarkDirect.cpp:514-521 | after k unconverged attempts the time is back where it began and the step is halved k times |
| NewmarkDirect.ScaleKeepsOrder | src/mechanics/timeIntegration/NewmarkDirect.cpp:50 | scaling by a positive factor keeps the order of two numbers |
| NewmarkDirect.SixHalvings | src/mechanics/timeIntegration/NewmarkDirect.cpp:35 | the k-th power of one half stays at or above 1/64 exactly when k <= 6 |
| NewmarkDirect.SixCutBacks | src/mechanics/timeIntegration/NewmarkDirect.cpp:32-52 | with automatic stepping and no minimum set, the step check passes after k failed attempts exactly when k <= 6 |
| LineSearch.Alpha | src/mechanics/timeIntegration/NewmarkDirect.cpp:85-112 | the step length after k halvings lies in (0, 1] |
| LineSearch.AlphaHalves | src/mechanics/timeIntegration/NewmarkDirect.cpp:112 | each halving halves the step length |
| LineSearch.AlphaDecreasing | src/mechanics/timeIntegration/NewmarkDirect.cpp:112 | the step length never grows as halvings accumulate |
| LineSearch.RoomShrinks | src/mechanics/timeIntegration/NewmarkDirect.cpp:114 | while alpha stays above a positive minimum, the halvings left before reaching it strictly decrease, so the search terminates |
| LineSearch.BelowInverse | src/mechanics/timeIntegration/NewmarkDirect.cpp:114 | if 1/p exceeds the minimum m then p is below 1/m, the bound behind the termination measure |
| LineSearch.ProductBelowOne | src/mechanics/timeIntegration/NewmarkDirect.cpp:114 | p a = 1 and a > m give p m < 1 |
| LineSearch.Search | src/mechanics/timeIntegration/NewmarkDirect.cpp:90-114 | the search makes at least one trial, reports the last trial's norm, stops at the first trial where the loop condition fails and continued after every earlier one |
| LineSearch.NoLineSearchSingleTrial | src/mechanics/timeIntegration/NewmarkDirect.cpp:90-116 | without line search there is exactly one trial, with the full step, and it is accepted |
| LineSearch.AcceptedMeansDecrease | src/mechanics/timeIntegration/NewmarkDirect.cpp:114-131 | an accepted search ended with residual at most (1 - alpha) times the previous norm; a rejected one has driven alpha to the minimum |
| LineSearch.StopsAtFirstSufficientTrial | src/mechanics/timeIntegration/NewmarkDirect.cpp:114 | once a trial with alpha above the minimum achieves the sufficient decrease, no later trial is made |
| LineSearch.TrialsBounded | src/mechanics/timeIntegration/NewmarkDirect.cpp:112-114 | the number of trials never exceeds the first n with 2^-n at most the minimum step |
| ImplicitNewtonRaphson.Create | src/nuto/mechanics/timeIntegration/ImplicitNewtonRaphson.cpp:31-45 | the defaults: tolerance 1e-6, 20 iterations, minimum line-search step 0.01, beta 1/4, gamma 1/2, no damping, all energies zero |
| ImplicitNewtonRaphson.DefaultLineSearchTrials | src/nuto/mechanics/timeIntegration/ImplicitNewtonRaphson.cpp:413-470 | with the default minimum step a line search makes at most seven trials |
| ImplicitNewtonRaphson.CheckMaxTimeStep | src/nuto/mechanics/timeIntegration/ImplicitNewtonRaphson.cpp:106-107 | Solve fails exactly when the maximum time step is zero |
| ImplicitNewtonRaphson.CheckMassFactor | src/nuto/mechanics/timeIntegration/ImplicitNewtonRaphson.cpp:228-232 | in the dynamic case Solve fails exactly when 1 - gamma mu h is not positive |
| ImplicitNewtonRaphson.CheckInitialEquilibriumAsWritten | src/nuto/mechanics/timeIntegration/ImplicitNewtonRaphson.cpp:192-202 | as written the check tests the norm of an empty vector, so it fails only for a negative tolerance, whatever the initial residual |
| ImplicitNewtonRaphson.AsWrittenIgnoresInitialResidual | src/nuto/mechanics/timeIntegration/ImplicitNewtonRaphson.cpp:192-202 | a unit residual exceeds the default tolerance yet the as-written check passes |
| ImplicitNewtonRaphson.CheckInitialEquilibrium | src/nuto/mechanics/timeIntegration/ImplicitNewtonRaphson.cpp:173-202 | corrected: fails exactly when the computed initial residual's norm exceeds the tolerance |
| ImplicitNewtonRaphson.ZeroResidualPasses | src/nuto/mechanics/timeIntegration/ImplicitNewtonRaphson.cpp:173-202 | a zero residual passes both versions of the check |
| ImplicitNewtonRaphson.PredictorIsNewmark | src/nuto/mechanics/timeIntegration/ImplicitNewtonRaphson.cpp:235-241 | the step predictor is the Newmark acceleration and velocity update with a zero displacement increment |
| ImplicitNewtonRaphson.Iterate | src/nuto/mechanics/timeIntegration/ImplicitNewtonRaphson.cpp:374-497 | the count stays within budget, the loop ends with norm at most the tolerance or at the maximum count, is idle when already converged, and never raises the residual norm |
| ImplicitNewtonRaphson.AcceptedTrialNoLarger | src/nuto/mechanics/timeIntegration/ImplicitNewtonRaphson.cpp:470-488 | an accepted line search never ends on a larger residual norm |
| ImplicitNewtonRaphson.ShrunkNoLarger | src/nuto/mechanics/timeIntegration/ImplicitNewtonRaphson.cpp:470 | a value at most (1 - alpha) norm, with alpha in (0, 1], is at most the norm |
| ImplicitNewtonRaphson.FailedLineSearchEndsLoop | src/nuto/mechanics/timeIntegration/ImplicitNewtonRaphson.cpp:473-496 | a failed first line search ends the loop at the maximum count and the step counts as unconverged |
| ImplicitNewtonRaphson.Advance | src/nuto/mechanics/timeIntegration/ImplicitNewtonRaphson.cpp:216-226 | time advances by the resulting step; with automatic stepping, when under half a step would remain, it lands on the end time exactly |
| ImplicitNewtonRaphson.AdvanceStaysWithinEnd | src/nuto/mechanics/timeIntegration/ImplicitNewtonRaphson.cpp:216-226 | with automatic stepping the time never passes the end time and the step stays positive |
| ImplicitNewtonRaphson.AfterIteration | src/nuto/mechanics/timeIntegration/ImplicitNewtonRaphson.cpp:499-620 | fails exactly when unconverged without automatic stepping; converged keeps the time and grows the step by 1.5 capped at the maximum when under a quarter of the iterations were used; unconverged steps back and halves |
| ImplicitNewtonRaphson.RollbackReturnsToStart | src/nuto/mechanics/timeIntegration/ImplicitNewtonRaphson.cpp:216-226 | an unconverged step is retried from the time it started at, even after the snap to the end time |
| ImplicitNewtonRaphson.GrowthCapped | src/nuto/mechanics/timeIntegration/ImplicitNewtonRaphson.cpp:601-605 | step growth never exceeds the maximum time step |
| ImplicitNewtonRaphson.EnergyRow | src/nuto/mechanics/timeIntegration/ImplicitNewtonRaphson.cpp:524-528 | the history row lists internal, kinetic, damped and external energy and their balance internal + kinetic + damped - external |
| ImplicitNewtonRaphson.InitialRowIsEnergyRow | src/nuto/mechanics/timeIntegration/ImplicitNewtonRaphson.cpp:147-163 | the first history row, filled entry by entry, is the energy row of the initial energies |
| ImplicitNewtonRaphson.UpdateEnergies | src/nuto/mechanics/timeIntegration/ImplicitNewtonRaphson.cpp:507-521 | each energy grows by its trapezoidal work over the displacement increment |
| ImplicitNewtonRaphson.DotOfSquareDifferences | src/nuto/mechanics/timeIntegration/ImplicitNewtonRaphson.cpp:510-511 | a dot product whose terms are k times differences of squares is k times the difference of the squared norms |
| ImplicitNewtonRaphson.WorkExactForLinearSpring | src/nuto/mechanics/timeIntegration/ImplicitNewtonRaphson.cpp:510-511 | for a linear spring force the trapezoidal work equals the change of stored energy k|u|^2/2 |
| BoundaryElement2D.DetIsCross | src/nuto/mechanics/elements/BoundaryElement2D.cpp:551-565 | the boundary determinant is the negated cross product of B - A and P - A, so the test is a collinearity test |
| BoundaryElement2D.LinePointsPass | src/nuto/mechanics/elements/BoundaryElement2D.cpp:551-565 | every point of the line through A and B, both end points included, passes the boundary test |
| BoundaryElement2D.FarPointFails | src/nuto/mechanics/elements/BoundaryElement2D.cpp:551-565 | a point whose cross product with the surface reaches the tolerance 1e-10 fails the test |
| BoundaryElement2D.BoundaryNodes | src/nuto/mechanics/elements/BoundaryElement2D.cpp:538-545 | the collected indices are ascending, below the node count, and contain a node exactly when it passes the boundary test |
| BoundaryElement2D.GetBoundaryNodeIndices | src/nuto/mechanics/elements/BoundaryElement2D.cpp:525-549 | the indices are ascending nodes of the element, and a node is listed exactly when it lies on the line through the two surface nodes |
| BoundaryElement2D.SurfaceNodesAreBoundaryNodes | src/nuto/mechanics/elements/BoundaryElement2D.cpp:525-549 | both surface nodes are always among the boundary nodes |
| BoundaryElement2D.GetNumNodes | src/nuto/mechanics/elements/BoundaryElement2D.cpp:514-517 | the boundary node count never exceeds the element's node count |
| BoundaryElement2D.AtLeastTheSurfaceNodes | src/nuto/mechanics/elements/BoundaryElement2D.cpp:514-549 | there is at least one boundary node, and at least two when the surface nodes differ |
| BoundaryElement2D.AscendingBounded | src/nuto/mechanics/elements/BoundaryElement2D.cpp:514-517 | a strictly ascending list of numbers below a bound has at most that many entries |
| BoundaryElement2D.GetBoundaryNodeIndex | src/nuto/mechanics/elements/BoundaryElement2D.cpp:520-523 | the i-th boundary node is a node of the element lying on the surface line |
| BoundaryElement2D.IsBoundaryConditionFulfilled | src/nuto/mechanics/elements/BoundaryElement2D.cpp:567-644 | the check answers false for every element |
| BoundaryElement2D.EvaluateSectionCheck | src/nuto/mechanics/elements/BoundaryElement2D.cpp:37-39 | Evaluate fails exactly for an element without a section |
| ConstraintLagrangeNodeGroupDisplacements1D.Create | src/nuto/mechanics/constraints/ConstraintLagrangeNodeGroupDisplacements1D.cpp:19-30 | succeeds exactly for a 1x1 direction matrix; then one multiplier per group member, each starting at zero, with the given sign and right-hand side |
| ConstraintLagrangeNodeGroupDisplacements1D.SetGlobalDofs | src/nuto/mechanics/constraints/ConstraintLagrangeNodeGroupDisplacements1D.cpp:56-66 | the multipliers get consecutive, strictly increasing dofs from the counter on, and the counter advances by their number |
| ConstraintLagrangeNodeGroupDisplacements1D.SetGlobalDofValues | src/nuto/mechanics/constraints/ConstraintLagrangeNodeGroupDisplacements1D.cpp:69-92 | every multiplier takes the value stored at its dof, active or dependent |
| ConstraintLagrangeNodeGroupDisplacements1D.WriteValues | src/nuto/mechanics/constraints/ConstraintLagrangeNodeGroupDisplacements1D.cpp:95-116 | writing the first k multipliers keeps both vectors' lengths |
| ConstraintLagrangeNodeGroupDisplacements1D.GetGlobalDofValues | src/nuto/mechanics/constraints/ConstraintLagrangeNodeGroupDisplacements1D.cpp:95-116 | writing the multipliers out leaves every dof that is not a multiplier dof unchanged |
| ConstraintLagrangeNodeGroupDisplacements1D.WritesFrame | src/nuto/mechanics/constraints/ConstraintLagrangeNodeGroupDisplacements1D.cpp:95-116 | the first k writes touch only the first k multipliers' dofs |
| ConstraintLagrangeNodeGroupDisplacements1D.WritesStored | src/nuto/mechanics/constraints/ConstraintLagrangeNodeGroupDisplacements1D.cpp:95-116 | with distinct dofs, after k writes each of the first k multipliers' dofs holds that multiplier's value |
| ConstraintLagrangeNodeGroupDisplacements1D.GetThenSetRoundTrip | src/nuto/mechanics/constraints/ConstraintLagrangeNodeGroupDisplacements1D.cpp:69-116 | writing the multipliers out and reading them back restores the constraint, when no two share a dof |
| ConstraintLagrangeNodeGroupDisplacements1D.SetThenGetRoundTrip | src/nuto/mechanics/constraints/ConstraintLagrangeNodeGroupDisplacements1D.cpp:69-116 | reading the multipliers in and writing them out leaves the global vectors unchanged |
| ConstraintLagrangeNodeGroupDisplacements1D.RenumberGlobalDofs | src/nuto/mechanics/constraints/ConstraintLagrangeNodeGroupDisplacements1D.cpp:119-126 | every multiplier dof is replaced by its image under the mapping; values are kept |
| ConstraintLagrangeNodeGroupDisplacements1D.RenumberKeepsDistinct | src/nuto/mechanics/constraints/ConstraintLagrangeNodeGroupDisplacements1D.cpp:119-126 | an injective mapping keeps the multiplier dofs distinct |
| ConstraintLagrangeNodeGroupDisplacements1D.NodeTangent | src/nuto/mechanics/constraints/ConstraintLagrangeNodeGroupDisplacements1D.cpp:160-199 | a node's tangent entries lie in the upper triangle of its own 2x2 block |
| ConstraintLagrangeNodeGroupDisplacements1D.ApplyDiagonal | src/nuto/mechanics/constraints/ConstraintLagrangeNodeGroupDisplacements1D.cpp:180 | the disengaged tangent -1/penalty acts on the multiplier increment only |
| ConstraintLagrangeNodeGroupDisplacements1D.ApplyCoupled | src/nuto/mechanics/constraints/ConstraintLagrangeNodeGroupDisplacements1D.cpp:163-189 | the engaged symmetric tangent couples multiplier and displacement with the penalty on the displacement |
| ConstraintLagrangeNodeGroupDisplacements1D.TangentIsDerivative | src/nuto/mechanics/constraints/ConstraintLagrangeNodeGroupDisplacements1D.cpp:143-261 | the tangent is the exact derivative of the gradient: a step that does not switch the inequality changes the gradient by the tangent times the step |
| ConstraintLagrangeNodeGroupDisplacements1D.DisengagedIsDerivative | src/nuto/mechanics/constraints/ConstraintLagrangeNodeGroupDisplacements1D.cpp:178-195 | for a disengaged inequality the gradient -lambda/penalty changes by the tangent times the step |
| ConstraintLagrangeNodeGroupDisplacements1D.GreaterIsDerivative | src/nuto/mechanics/constraints/ConstraintLagrangeNodeGroupDisplacements1D.cpp:183-190 | for an engaged GREATER constraint the gradient changes by the tangent times the step |
| ConstraintLagrangeNodeGroupDisplacements1D.SmallerOrEqualIsDerivative | src/nuto/mechanics/constraints/ConstraintLagrangeNodeGroupDisplacements1D.cpp:163-176 | for EQUAL and an engaged SMALLER constraint the gradient changes by the tangent times the step |
| ConstraintLagrangeNodeGroupDisplacements1D.DisengagedStep | src/nuto/mechanics/constraints/ConstraintLagrangeNodeGroupDisplacements1D.cpp:241 | -lambda/penalty is linear in lambda with slope -1/penalty |
| ConstraintLagrangeNodeGroupDisplacements1D.Interleave | src/nuto/mechanics/constraints/ConstraintLagrangeNodeGroupDisplacements1D.cpp:216-220 | the interleaved list alternates the two lists' entries, pair k at positions 2k and 2k+1 |
| ConstraintLagrangeNodeGroupDisplacements1D.GradientLayout | src/nuto/mechanics/constraints/ConstraintLagrangeNodeGroupDisplacements1D.cpp:205-261 | member k owns gradient entries 2k (multiplier dof) and 2k+1 (displacement dof), holding its node gradient |
| ConstraintLagrangeNodeGroupDisplacements1D.GradientInternalPotential | src/nuto/mechanics/constraints/ConstraintLagrangeNodeGroupDisplacements1D.cpp:205-261 | fails exactly for an unknown sign with at least one member; otherwise 2n entries, pair k holding member k's dofs and node gradient |
| ConstraintLagrangeNodeGroupDisplacements1D.Shift | src/nuto/mechanics/constraints/ConstraintLagrangeNodeGroupDisplacements1D.cpp:158-159 | each entry moves to the member's rows and columns, value kept |
| ConstraintLagrangeNodeGroupDisplacements1D.PairDofs | src/nuto/mechanics/constraints/ConstraintLagrangeNodeGroupDisplacements1D.cpp:150-159 | the dof list holds each member's multiplier dof at 2k and its node's displacement dof at 2k+1 |
| ConstraintLagrangeNodeGroupDisplacements1D.CoefficientMatrix0 | src/nuto/mechanics/constraints/ConstraintLagrangeNodeGroupDisplacements1D.cpp:143-201 | fails exactly for an unknown sign with at least one member; otherwise member k adds exactly its node tangent, every entry and nothing else, on rows and columns 2k and 2k+1 in the upper triangle, and the global dofs are each member's multiplier dof followed by its displacement dof |
| ConstraintLagrangeNodeGroupDisplacements1D.MatrixAndGradientShareDofs | src/nuto/mechanics/constraints/ConstraintLagrangeNodeGroupDisplacements1D.cpp:143-201 | the matrix and the gradient fail alike and, when they succeed, are assembled on the same global dof list |
| ConstraintDisplacementsPeriodic2D.NormalizeAngle | src/nuto/mechanics/constraints/ConstraintDisplacementsPeriodic2D.cpp:19-25 | accepts exactly the angles from -135 to 405 and moves them by -180, 0 or +180 into [45, 225] |
| ConstraintDisplacementsPeriodic2D.NormalizeIdempotent | src/nuto/mechanics/constraints/ConstraintDisplacementsPeriodic2D.cpp:19-25 | an angle the reduction produced is left unchanged by a second reduction |
| ConstraintDisplacementsPeriodic2D.SetAngle | src/nuto/mechanics/constraints/ConstraintDisplacementsPeriodic2D.cpp:111-115 | stores the angle unreduced and changes nothing else; the boundary-vector setup that follows fails exactly when the angle is outside [45, 135) |
| ConstraintDisplacementsPeriodic2D.CheckBoundaryAngle | src/nuto/mechanics/constraints/ConstraintDisplacementsPeriodic2D.cpp:147-200 | the boundary-vector setup accepts exactly the angles in [45, 135) and throws for every other angle |
| ConstraintDisplacementsPeriodic2D.SetAngleSkipsReduction | src/nuto/mechanics/constraints/ConstraintDisplacementsPeriodic2D.cpp:111-115 | SetAngle stores an angle (300) that construction would have reduced, and then fails in the boundary-vector setup |
| ConstraintDisplacementsPeriodic2D.SetAngleKeepsCreated | src/nuto/mechanics/constraints/ConstraintDisplacementsPeriodic2D.cpp:14-115 | setting a constructed constraint's own angle again succeeds and changes nothing |
| ConstraintDisplacementsPeriodic2D.StrainFromMatrix | src/nuto/mechanics/constraints/ConstraintDisplacementsPeriodic2D.cpp:26-30 | accepts exactly a 3x1 matrix, read as (e_xx, e_yy, gamma_xy) |
| ConstraintDisplacementsPeriodic2D.SetStrain | src/nuto/mechanics/constraints/ConstraintDisplacementsPeriodic2D.cpp:120-128 | fails exactly for a matrix that is not 3x1; otherwise only the strain changes |
| ConstraintDisplacementsPeriodic2D.Intersection | src/nuto/mechanics/constraints/ConstraintDisplacementsPeriodic2D.cpp:37-58 | a node is in the intersection exactly when it belongs to both groups |
| ConstraintDisplacementsPeriodic2D.Corner | src/nuto/mechanics/constraints/ConstraintDisplacementsPeriodic2D.cpp:37-58 | a corner is found exactly when the two groups share exactly one node, which then belongs to both |
| ConstraintDisplacementsPeriodic2D.CheckBoxAsWritten | src/nuto/mechanics/constraints/ConstraintDisplacementsPeriodic2D.cpp:88-106 | as written, acceptance forces the lower-left x coordinate to equal the lower-right y coordinate |
| ConstraintDisplacementsPeriodic2D.AsWrittenRejectsUnitBox | src/nuto/mechanics/constraints/ConstraintDisplacementsPeriodic2D.cpp:101-102 | the unit square with lower-left corner (1, 0) is a rectangle, yet the as-written check rejects it |
| ConstraintDisplacementsPeriodic2D.CheckBox | src/nuto/mechanics/constraints/ConstraintDisplacementsPeriodic2D.cpp:88-106 | corrected: accepts exactly the four corners of an axis-aligned rectangle of positive width and height |
| ConstraintDisplacementsPeriodic2D.ChecksAgreeWhenXEqualsY | src/nuto/mechanics/constraints/ConstraintDisplacementsPeriodic2D.cpp:88-106 | the two checks agree whenever the lower-left corner's x equals its y |
| ConstraintDisplacementsPeriodic2D.Coordinates2D | src/nuto/mechanics/constraints/ConstraintDisplacementsPeriodic2D.cpp:61-77 | succeeds exactly for a known node with two coordinates, returning them |
| ConstraintDisplacementsPeriodic2D.FindCorners | src/nuto/mechanics/constraints/ConstraintDisplacementsPeriodic2D.cpp:37-77 | fails when any pair of boundary groups does not share exactly one node; each corner found lies in both its groups and carries its two coordinates |
| ConstraintDisplacementsPeriodic2D.Create | src/nuto/mechanics/constraints/ConstraintDisplacementsPeriodic2D.cpp:14-107 | succeeds exactly when the angle reduces to one in [45, 135), the strain is 3x1, all corners are found and they span a rectangle (the corrected box check, not the lower-boundary test as written at line 101); the stored angle is the reduced one |
| ConstraintDisplacementsPeriodic2D.NumConstraintEquations | src/nuto/mechanics/constraints/ConstraintDisplacementsPeriodic2D.cpp:473-477 | two equations per slave node on the right and top boundaries, so always even |
| ConstraintDisplacementsPeriodic2D.WeightAtMasters | src/nuto/mechanics/constraints/ConstraintDisplacementsPeriodic2D.cpp:480-484 | the weight is 1 at the current master and 0 at the next |
| ConstraintDisplacementsPeriodic2D.WeightIsLinear | src/nuto/mechanics/constraints/ConstraintDisplacementsPeriodic2D.cpp:480-484 | the weight falls linearly, by t at a fraction t of the way to the next master |
| ConstraintDisplacementsPeriodic2D.WeightsPartitionUnity | src/nuto/mechanics/constraints/ConstraintDisplacementsPeriodic2D.cpp:480-484 | the weights of a slave's two masters add up to one |
| ConstraintDisplacementsPeriodic2D.DeltaDispLinear | src/nuto/mechanics/constraints/ConstraintDisplacementsPeriodic2D.cpp:487-491 | the strain offset is linear in the position |
| ConstraintDisplacementsPeriodic2D.DeltaDispSymmetric | src/nuto/mechanics/constraints/ConstraintDisplacementsPeriodic2D.cpp:487-491 | the strain offset is given by a symmetric matrix: the shear couples both directions equally |
| DamageViscoPlasticityEngineeringStress.CheckValue | src/nuto/mechanics/constitutive/mechanics/DamageViscoPlasticityEngineeringStress.cpp:881-951 | each parameter check refuses exactly its out-of-range values: negative density or modulus, Poisson ratio outside (-1, 0.5), non-positive strengths, a biaxial strength not above the compressive one |
| DamageViscoPlasticityEngineeringStress.CheckParameters | src/nuto/mechanics/constitutive/mechanics/DamageViscoPlasticityEngineeringStress.cpp:968-975 | passes exactly when Young's modulus, Poisson's ratio and density are admissible; the strengths are not checked |
| DamageViscoPlasticityEngineeringStress.Create | src/nuto/mechanics/constitutive/mechanics/DamageViscoPlasticityEngineeringStress.cpp:39-52 | every parameter except the thermal expansion coefficient starts at zero and the parameters are marked valid |
| DamageViscoPlasticityEngineeringStress.DefaultStrengthsUnchecked | src/nuto/mechanics/constitutive/mechanics/DamageViscoPlasticityEngineeringStress.cpp:39-52 | the default law passes CheckParameters although its tensile strength would be refused by its own setter |
| DamageViscoPlasticityEngineeringStress.Assign | src/nuto/mechanics/constitutive/mechanics/DamageViscoPlasticityEngineeringStress.cpp:727-834 | assigning a parameter changes that parameter only and keeps the base-class state |
| DamageViscoPlasticityEngineeringStress.Set | src/nuto/mechanics/constitutive/mechanics/DamageViscoPlasticityEngineeringStress.cpp:727-834 | a setter fails exactly when its check refuses the value; otherwise only that parameter changes and the validity flag reflects CheckParameters on the new law |
| DamageViscoPlasticityEngineeringStress.SetKeepsValid | src/nuto/mechanics/constitutive/mechanics/DamageViscoPlasticityEngineeringStress.cpp:727-834 | accepted setter calls on a law with admissible elastic parameters keep them admissible and the flag set |
| DamageViscoPlasticityEngineeringStress.CompressiveSetterSkipsBiaxialCheck | src/nuto/mechanics/constitutive/mechanics/DamageViscoPlasticityEngineeringStress.cpp:810-834 | the biaxial-above-uniaxial rule is enforced only when the biaxial strength is set, not when the compressive strength is raised past it |
| DamageViscoPlasticityEngineeringStress.Coefficients3D | src/nuto/mechanics/constitutive/mechanics/DamageViscoPlasticityEngineeringStress.cpp:707-717 | C11, C12 and C44 are the isotropic coefficients E(1-nu)/((1+nu)(1-2nu)), E nu/((1+nu)(1-2nu)) and E/(2(1+nu)), and C11 - C12 = 2 C44 |
| DamageViscoPlasticityEngineeringStress.IsotropyRelation | src/nuto/mechanics/constitutive/mechanics/DamageViscoPlasticityEngineeringStress.cpp:707-717 | the isotropic coefficients satisfy C11 - C12 = 2 C44 |
| DamageViscoPlasticityEngineeringStress.CoefficientsPlaneStress | src/nuto/mechanics/constitutive/mechanics/DamageViscoPlasticityEngineeringStress.cpp:698-705 | the plane-stress coefficients are E/(1-nu^2), nu times that, and half their difference |
| DamageViscoPlasticityEngineeringStress.Tangent | src/nuto/mechanics/constitutive/mechanics/DamageViscoPlasticityEngineeringStress.cpp:543-590 | the 6x6 tangent is symmetric, C11 on and C12 off the normal diagonal block, C44 on the shear diagonal and zero elsewhere |
| DamageViscoPlasticityEngineeringStress.Stress | src/nuto/mechanics/constitutive/mechanics/DamageViscoPlasticityEngineeringStress.cpp:533-538 | the stress of a strain has six Voigt components |
| DamageViscoPlasticityEngineeringStress.StressIsTangentTimesStrain | src/nuto/mechanics/constitutive/mechanics/DamageViscoPlasticityEngineeringStress.cpp:533-590 | the stress output is the tangent output applied to the strain |
| DamageViscoPlasticityEngineeringStress.ThermalStrain | src/nuto/mechanics/constitutive/mechanics/DamageViscoPlasticityEngineeringStress.cpp:525-529 | free thermal expansion is alpha T on each normal component and zero shear |
| DamageViscoPlasticityEngineeringStress.Minus | src/nuto/mechanics/constitutive/mechanics/DamageViscoPlasticityEngineeringStress.cpp:526-529 | componentwise difference of two Voigt vectors |
| DamageViscoPlasticityEngineeringStress.OutputValues | src/nuto/mechanics/constitutive/mechanics/DamageViscoPlasticityEngineeringStress.cpp:511-622 | succeeds exactly when every requested output is known and, for the stress with temperature as input, a temperature is given; one value per output: stress, tangent, strain, zero plastic strain, zero damage |
| DamageViscoPlasticityEngineeringStress.ElasticStrain | src/nuto/mechanics/constitutive/mechanics/DamageViscoPlasticityEngineeringStress.cpp:518-529 | the strain used for the stress has six components |
| DamageViscoPlasticityEngineeringStress.Evaluate3D | src/nuto/mechanics/constitutive/mechanics/DamageViscoPlasticityEngineeringStress.cpp:466-627 | corrected: fails exactly when the parameter check throws, the deformation gradient is missing or an output cannot be produced; the stress is computed from the total strain less the free thermal expansion |
| DamageViscoPlasticityEngineeringStress.Evaluate3DAsWritten | src/nuto/mechanics/constitutive/mechanics/DamageViscoPlasticityEngineeringStress.cpp:516-540 | as written: same failures, but the stress is always computed from the total strain because the thermal correction goes to a shadowing local |
| DamageViscoPlasticityEngineeringStress.EvaluateWith | src/nuto/mechanics/constitutive/mechanics/DamageViscoPlasticityEngineeringStress.cpp:466-627 | fails exactly on the check, a missing gradient or an unproducible output; the stress uses the elastic or the total strain as selected |
| DamageViscoPlasticityEngineeringStress.FreeThermalExpansionIsStressFree | src/nuto/mechanics/constitutive/mechanics/DamageViscoPlasticityEngineeringStress.cpp:516-540 | with the correction, a strain that is exactly free thermal expansion gives zero stress |
| DamageViscoPlasticityEngineeringStress.AsWrittenStressesFreeExpansion | src/nuto/mechanics/constitutive/mechanics/DamageViscoPlasticityEngineeringStress.cpp:527 | as written, free thermal expansion with E = 1, nu = 0, alpha = 1, T = 1 gives normal stress 1 instead of 0 |
| DamageViscoPlasticityEngineeringStress.Evaluate1D | src/nuto/mechanics/constitutive/mechanics/DamageViscoPlasticityEngineeringStress.cpp:80-85 | the 1D evaluation always fails |
| DamageViscoPlasticityEngineeringStress.Evaluate2D | src/nuto/mechanics/constitutive/mechanics/DamageViscoPlasticityEngineeringStress.cpp:220-225 | the 2D evaluation always fails |
| DamageViscoPlasticityEngineeringStress.CheckElementCompatibility | src/nuto/mechanics/constitutive/mechanics/DamageViscoPlasticityEngineeringStress.cpp:846-878 | answers true exactly for the listed continuum and truss element types |
| IntegrationType2D4NGauss9Ip.LocalCoordinates | src/mechanics/integrationtypes/IntegrationType2D4NGauss9Ip.cpp:17-34 | succeeds exactly for ip numbers 0-8; each coordinate is -a, 0 or a; the corner points come first, then the edge midpoints, then the centre |
| IntegrationType2D4NGauss9Ip.PointsAreTheGrid | src/mechanics/integrationtypes/IntegrationType2D4NGauss9Ip.cpp:17-34 | the nine points are exactly the tensor grid {-a, 0, a}^2, each point once |
| IntegrationType2D4NGauss9Ip.Weight | src/mechanics/integrationtypes/IntegrationType2D4NGauss9Ip.cpp:47-82 | succeeds exactly for ip numbers 0-8 and every weight is positive |
| IntegrationType2D4NGauss9Ip.WeightIsTensorProduct | src/mechanics/integrationtypes/IntegrationType2D4NGauss9Ip.cpp:47-82 | each weight is the product of the 1D Gauss weights 5/9 and 8/9 of its coordinates, to the stored rounding |
| IntegrationType2D4NGauss9Ip.MirrorSymmetric | src/mechanics/integrationtypes/IntegrationType2D4NGauss9Ip.cpp:17-82 | mirroring a point in either axis gives a point of the rule with the same weight |
| IntegrationType2D4NGauss9Ip.WeightsSumToArea | src/mechanics/integrationtypes/IntegrationType2D4NGauss9Ip.cpp:47-82 | the weights add up to the square's area 4 less the rounding of the stored constants |
| IntegrationType2D4NGauss9Ip.AbscissaSquared | src/mechanics/integrationtypes/IntegrationType2D4NGauss9Ip.cpp:22 | the stored abscissa squares to 3/5 within 1e-15 |
| IntegrationType2D4NGauss9Ip.VisualizationCells | src/mechanics/integrationtypes/IntegrationType2D4NGauss9Ip.cpp:85-237 | the visualisation tables hold 16 two-dimensional points and 9 quadrilateral cells of four point ids each |
| IntegrationType2D4NGauss9Ip.VisualizationPointsOnGrid | src/mechanics/integrationtypes/IntegrationType2D4NGauss9Ip.cpp:93-161 | visualisation point p sits at column p mod 4 and row p div 4 of the grid -1, -1/3, 1/3, 1 |
| IntegrationType2D4NGauss9Ip.CellsAreGridSquares | src/mechanics/integrationtypes/IntegrationType2D4NGauss9Ip.cpp:163-237 | every cell is the grid square whose lower-left point is 4 row + col, listed counter-clockwise |
| IntegrationType2D4NGauss9Ip.IpsArePermutation | src/mechanics/integrationtypes/IntegrationType2D4NGauss9Ip.cpp:163-237 | the cells' integration point ids are a permutation of 0-8 |
| IntegrationType2D4NGauss9Ip.CellContainsItsIp | src/mechanics/integrationtypes/IntegrationType2D4NGauss9Ip.cpp:163-237 | each cell contains the integration point it displays |
| IntegrationType2D4NGauss9Ip.VisualizationCellInfo | src/mechanics/integrationtypes/IntegrationType2D4NGauss9Ip.cpp:85-237 | the base class turns the tables into 16 vertices on the grid and 9 cells whose ids are the grid squares and whose ips are the listed ones |
| IntegrationType2D4NGauss9Ip.QuadSums | src/mechanics/integrationtypes/IntegrationType2D4NGauss9Ip.cpp:163-237 | cells that all have four points use four incidence entries each |
| IntegrationType2D4NGauss9Ip.QuadCells | src/mechanics/integrationtypes/IntegrationType2D4NGauss9Ip.cpp:163-237 | with four points per cell, cell c takes incidence entries 4c to 4c+3 |
| IntegrationTypeBase.PointSumPrefix | src/mechanics/integrationtypes/IntegrationTypeBase.cpp:58-70 | the cells before the k-th never use more point ids than all the cells together |
| IntegrationTypeBase.Cells | src/mechanics/integrationtypes/IntegrationTypeBase.cpp:58-70 | there is one record per cell; cell i carries its ip id and the next consecutive run of point ids, as many as its shape has |
| IntegrationTypeBase.GetVisualizationCells | src/mechanics/integrationtypes/IntegrationTypeBase.cpp:34-73 | no cells gives the empty record; otherwise one vertex per visualisation point with the list length divided by the point count as dimension, and one cell record per cell |
| IntegrationTypeBase.Vertices | src/mechanics/integrationtypes/IntegrationTypeBase.cpp:51-56 | the column-major reading gives k vertices of dim coordinates each |
| IntegrationTypeBase.StepBlock | src/mechanics/integrationtypes/IntegrationTypeBase.cpp:51-56 | the block of vertex k-1 ends where vertex k's block starts |
| IntegrationTypeBase.VertexIsBlock | src/mechanics/integrationtypes/IntegrationTypeBase.cpp:51-56 | vertex i is the i-th block of dim consecutive coordinates |
| IntegrationTypeBase.VerticesTileCoordinates | src/mechanics/integrationtypes/IntegrationTypeBase.cpp:51-56 | the vertices, put back together, are exactly the first k times dim coordinates: nothing lost, nothing reordered |
| IntegrationTypeBase.Dim | src/mechanics/integrationtypes/IntegrationTypeBase.cpp:51 | the integer quotient d of the list length by the point count: points times d is at most the length and points times (d+1) exceeds it |
| IntegrationTypeBase.CellsTileIncidence | src/mechanics/integrationtypes/IntegrationTypeBase.cpp:58-70 | the point-id lists of the first k cells, put together, are exactly the first part of the incidence list they use |
| IntegrationTypeBase.GetNaturalIntegrationPointCoordinates | src/mechanics/integrationtypes/IntegrationTypeBase.cpp:29-32 | the base class has no natural ip coordinates and always fails |
| IntegrationTypeBase.AddIntegrationPoints | src/mechanics/integrationtypes/IntegrationTypeBase.cpp:75-80 | adding integration points to a fixed rule always fails |
| IntegrationTypeBase.AddIntegrationPoint | src/mechanics/integrationtypes/IntegrationTypeBase.cpp:82-86 | adding one integration point always fails |
| IntegrationTypeBase.DeleteIntegrationPoint | src/mechanics/integrationtypes/IntegrationTypeBase.cpp:88-92 | deleting an integration point always fails |
| Interpolation2DQuad.NumNodes | src/nuto/mechanics/interpolationtypes/Interpolation2DQuad.cpp:135-153 | succeeds exactly for the supported orders: the (p+1)^2 tensor grid for the bilinear and spectral orders, the 8-node serendipity grid for EQUIDISTANT2 |
| Interpolation2DQuad.StandardIntegrationType | src/nuto/mechanics/interpolationtypes/Interpolation2DQuad.cpp:20-38 | succeeds exactly for the supported orders; 2x2 Gauss for the equidistant orders and, for the spectral orders, a Lobatto rule with one point per node |
| Interpolation2DQuad.SurfaceCoordinates | src/nuto/mechanics/interpolationtypes/Interpolation2DQuad.cpp:99-115 | succeeds exactly for surfaces 0-3 |
| Interpolation2DQuad.SurfaceDerivative | src/nuto/mechanics/interpolationtypes/Interpolation2DQuad.cpp:117-133 | succeeds exactly for surfaces 0-3 and returns a unit tangent |
| Interpolation2DQuad.DerivativeIsSlope | src/nuto/mechanics/interpolationtypes/Interpolation2DQuad.cpp:99-133 | the tangent is the exact slope of the surface map |
| Interpolation2DQuad.SurfaceOnBoundary | src/nuto/mechanics/interpolationtypes/Interpolation2DQuad.cpp:99-115 | surface parameters in [-1, 1] map onto the boundary of the natural square |
| Interpolation2DQuad.SurfacesChain | src/nuto/mechanics/interpolationtypes/Interpolation2DQuad.cpp:99-115 | the end of each surface is the start of the next, going round the square |
| Interpolation2DQuad.OutwardNormal | src/nuto/mechanics/interpolationtypes/Interpolation2DQuad.cpp:99-133 | the surfaces run counter-clockwise: the tangent turned clockwise is the outward unit normal |
| Interpolation2DQuad.MatchCount | src/nuto/mechanics/interpolationtypes/Interpolation2DQuad.cpp:167-176 | the match count is zero exactly when the node matches no existing node, and never exceeds their number |
| Interpolation2DQuad.LastMatch | src/nuto/mechanics/interpolationtypes/Interpolation2DQuad.cpp:167-176 | the index is the fallback when nothing matches, otherwise the last existing node that matches |
| Interpolation2DQuad.Resized | src/nuto/mechanics/interpolationtypes/Interpolation2DQuad.cpp:166 | resizing keeps the existing entries and pads with zeros |
| Interpolation2DQuad.Indices | src/nuto/mechanics/interpolationtypes/Interpolation2DQuad.cpp:166-176 | one index per node: the last matching existing node, or the earlier entry (zero-padded) when none matches |
| Interpolation2DQuad.UpdateNodeIndicesAsWritten | src/nuto/mechanics/interpolationtypes/Interpolation2DQuad.cpp:155-185 | as written: succeeds exactly for a supported order with at least as many (node, existing node) matching pairs as nodes |
| Interpolation2DQuad.UpdateNodeIndices | src/nuto/mechanics/interpolationtypes/Interpolation2DQuad.cpp:155-185 | corrected: succeeds exactly for a supported order where every node matches some existing node, each index being its last match |
| Interpolation2DQuad.TotalAtLeastCount | src/nuto/mechanics/interpolationtypes/Interpolation2DQuad.cpp:165-179 | when every node matches, the pair count is at least the node count |
| Interpolation2DQuad.TotalBelowWithGap | src/nuto/mechanics/interpolationtypes/Interpolation2DQuad.cpp:165-179 | with at most one match per node and a node without a match, the pair count falls below the node count |
| Interpolation2DQuad.TotalAtMost | src/nuto/mechanics/interpolationtypes/Interpolation2DQuad.cpp:165-179 | with at most one match per node the pair count is at most the node count |
| Interpolation2DQuad.CorrectedAcceptsLess | src/nuto/mechanics/interpolationtypes/Interpolation2DQuad.cpp:155-185 | whatever the corrected search accepts, the as-written one accepts with the same indices |
| Interpolation2DQuad.AgreeOnUniqueMatches | src/nuto/mechanics/interpolationtypes/Interpolation2DQuad.cpp:155-185 | when no node matches two existing nodes both searches agree |
| Interpolation2DQuad.AsWrittenAcceptsMissingNode | src/nuto/mechanics/interpolationtypes/Interpolation2DQuad.cpp:165-179 | a bilinear quad whose node 1 matches nothing passes as written, because node 0 matches two existing nodes |
| NutoEnums.DofPosition | src/nuto/mechanics/interpolationtypes/InterpolationType.cpp:278-279 | every dof has a unique place in the fixed order in which start indices are assigned |
| NutoEnums.OrderedDofsDistinct | src/nuto/mechanics/interpolationtypes/InterpolationType.cpp:278-279 | the fixed order lists each dof exactly once |
| InterpolationType.Create | src/nuto/mechanics/interpolationtypes/InterpolationType.cpp:33-36 | a new registry, with no dofs and no nodes, is consistent |
| InterpolationType.PrefixSumNothing | src/nuto/mechanics/interpolationtypes/InterpolationType.cpp:281-290 | without dofs every start index and every count is zero |
| InterpolationType.WithStartIndices | src/nuto/mechanics/interpolationtypes/InterpolationType.cpp:272-291 | recomputing the start indices keeps the registered dofs and everything else about them, and gives each one the summed size of the active dofs before it in the fixed order |
| InterpolationType.PrefixSumChange | src/nuto/mechanics/interpolationtypes/InterpolationType.cpp:281-290 | changing what one dof contributes shifts every sum that covers it by exactly that change |
| InterpolationType.PrefixSumMonotone | src/nuto/mechanics/interpolationtypes/InterpolationType.cpp:281-290 | start indices never decrease along the fixed order |
| InterpolationType.ActiveRangesDisjoint | src/nuto/mechanics/interpolationtypes/InterpolationType.cpp:272-291 | in a consistent registry each active dof's local range lies within the active dof count, and a later active dof starts after an earlier one ends |
| InterpolationType.SetIsActive | src/nuto/mechanics/interpolationtypes/InterpolationType.cpp:293-312 | fails exactly for an unregistered dof; otherwise only that dof's flag changes and the active count is the sum over the new active set |
| InterpolationType.ContributionIgnoresStart | src/nuto/mechanics/interpolationtypes/InterpolationType.cpp:272-291 | what a dof contributes does not depend on the start indices |
| InterpolationType.PrefixSumIgnoresStart | src/nuto/mechanics/interpolationtypes/InterpolationType.cpp:272-291 | recomputing the start indices leaves every sum unchanged |
| InterpolationType.StartIndicesHold | src/nuto/mechanics/interpolationtypes/InterpolationType.cpp:272-291 | the recomputed start indices are correct for the map they are stored in |
| InterpolationType.SetIsActiveCounts | src/nuto/mechanics/interpolationtypes/InterpolationType.cpp:293-312 | toggling keeps the registry consistent; activating an inactive dof adds its size to the active count and deactivating an active one removes it |
| InterpolationType.SetIsActiveFlags | src/nuto/mechanics/interpolationtypes/InterpolationType.cpp:293-312 | after toggling, the active set still lists exactly the dofs flagged active, and the node bookkeeping is unchanged |
| InterpolationType.SetIsActiveStarts | src/nuto/mechanics/interpolationtypes/InterpolationType.cpp:293-312 | after toggling, every dof carries its correct start index |
| InterpolationType.SetIsActiveTotals | src/nuto/mechanics/interpolationtypes/InterpolationType.cpp:293-312 | after toggling, the total and active counts are the sums over the registered and active dofs |
| InterpolationType.ActiveCountAfterToggle | src/nuto/mechanics/interpolationtypes/InterpolationType.cpp:307-311 | the active count changes by exactly the toggled dof's size, in the direction of the toggle |
| InterpolationType.TotalAfterToggle | src/nuto/mechanics/interpolationtypes/InterpolationType.cpp:336-339 | toggling a dof leaves the total dof count unchanged |
| InterpolationType.IsConstitutiveInput | src/nuto/mechanics/interpolationtypes/InterpolationType.cpp:324-329 | an unregistered dof is never a constitutive input |
| InterpolationType.LastMatch | src/nuto/mechanics/interpolationtypes/InterpolationType.cpp:125-139 | no match exactly when no existing node has these coordinates, otherwise the last node that does |
| InterpolationType.MergeNode | src/nuto/mechanics/interpolationtypes/InterpolationType.cpp:121-150 | a node at existing coordinates is linked to the last such node and adds nothing; a new one is appended and linked to the new index; in both cases the dof is recorded at the linked node and no node loses a dof |
| InterpolationType.MergeNodes | src/nuto/mechanics/interpolationtypes/InterpolationType.cpp:117-151 | merging keeps the existing nodes, adds at most one node per new node, and links every new node to a registry node with its coordinates and dof |
| InterpolationType.MergeStep | src/nuto/mechanics/interpolationtypes/InterpolationType.cpp:117-151 | merging a further node keeps the links of the earlier ones valid |
| InterpolationType.Reflect | src/nuto/mechanics/interpolationtypes/InterpolationType.cpp:462-479 | succeeds exactly for the known shapes and keeps the dimension |
| InterpolationType.Negated | src/nuto/mechanics/interpolationtypes/InterpolationType.cpp:467-468 | the point mirror negates each coordinate |
| InterpolationType.RowPairs | src/nuto/mechanics/interpolationtypes/InterpolationType.cpp:484-495 | exactly the pairs (i, j) with i < j whose node j lies at node i's mirror image, in increasing j |
| InterpolationType.RenumberingPairs | src/nuto/mechanics/interpolationtypes/InterpolationType.cpp:445-497 | succeeds for every known shape and fails for an unknown shape with nodes to pair; on success exactly the pairs i < j among the first rows whose j sits at i's mirror image |
| InterpolationType.NodeRenumbering | src/nuto/mechanics/interpolationtypes/InterpolationType.cpp:445-497 | succeeds for every known shape; on success exactly the pairs i < j of nodes where node j sits at node i's mirror image |
| InterpolationType.AddDofInterpolation | src/nuto/mechanics/interpolationtypes/InterpolationType.cpp:63-149 | fails exactly for a dof already registered or an unsupported shape; otherwise registers the dof, adds its size, makes it active and a constitutive input unless it is COORDINATES, keeps the existing nodes, keeps the renumbering pairs for any other dof, and for COORDINATES stores exactly the mirror pairs among the new interpolation's own nodes |
| InterpolationType.Registered | src/nuto/mechanics/interpolationtypes/InterpolationType.cpp:95-149 | the registry after a successful add: the dof is registered with the flags above, the existing nodes kept, and the renumbering pairs those of the COORDINATES interpolation's own nodes when the dof is COORDINATES, unchanged otherwise |
| InterpolationType.Staged | src/nuto/mechanics/interpolationtypes/InterpolationType.cpp:95-149 | the dof inserted, its nodes merged and the start indices recomputed, with the same guarantees as the add |
| InterpolationType.Inserted | src/nuto/mechanics/interpolationtypes/InterpolationType.cpp:95-108 | the dof map gains only the new dof, with its size and active flag, and the add stores exactly this map with recomputed start indices |
| InterpolationType.AddKeepsConsistent | src/nuto/mechanics/interpolationtypes/InterpolationType.cpp:63-172 | adding a dof keeps the registry consistent and raises the active count by the dof's size when it is active |
| InterpolationType.AddFlags | src/nuto/mechanics/interpolationtypes/InterpolationType.cpp:98-108 | after an add the active set still lists exactly the dofs flagged active |
| InterpolationType.FlagsSurviveStartIndices | src/nuto/mechanics/interpolationtypes/InterpolationType.cpp:272-291 | recomputing the start indices leaves the active flags alone |
| InterpolationType.AddStarts | src/nuto/mechanics/interpolationtypes/InterpolationType.cpp:146 | after an add every dof carries its correct start index |
| InterpolationType.AddTotals | src/nuto/mechanics/interpolationtypes/InterpolationType.cpp:98-146 | after an add the counts are the sums over the registered and active dofs |
| InterpolationType.InsertedSums | src/nuto/mechanics/interpolationtypes/InterpolationType.cpp:95-108 | inserting a dof adds its size to the total and, when active, to the active count |
| InterpolationType.AddLinksNodes | src/nuto/mechanics/interpolationtypes/InterpolationType.cpp:117-151 | every node of the new dof interpolation is linked to a registry node with the same coordinates that records the dof |
| InterpolationType.OrderValue | src/nuto/mechanics/interpolationtypes/InterpolationType.cpp:204-224 | every supported order maps to a polynomial order from 1 to 4; only unsupported orders have none |
| InterpolationType.StandardScan | src/nuto/mechanics/interpolationtypes/InterpolationType.cpp:198-233 | fails when a scanned dof has an unsupported order; otherwise returns the highest order seen, attained first by a scanned dof, and NotSet without dofs |
| InterpolationType.GetStandardIntegrationType | src/nuto/mechanics/interpolationtypes/InterpolationType.cpp:196-234 | NotSet without dofs; any other answer is the standard integration type of a registered dof |
| InterpolationType.UnsupportedOrderFails | src/nuto/mechanics/interpolationtypes/InterpolationType.cpp:220-223 | a registered dof with an unsupported order makes the query fail |
| InterpolationType.StandardIntegrationIsFirstHighest | src/nuto/mechanics/interpolationtypes/InterpolationType.cpp:196-234 | the answer belongs to the earliest dof of the highest order, and every registered dof has an order no higher |
| NutoEnums.Upper | src/nuto/mechanics/structures/unstructured/StructureElement.cpp:149 | upper-casing keeps the length and changes only the letters a to z, character by character |
| NutoEnums.UpperIdempotent | src/nuto/mechanics/structures/unstructured/StructureElement.cpp:149 | upper-casing an upper-cased name changes nothing |

## Left out

- Dense numerics and foreign code:
  - the element `Evaluate` bodies: Jacobians, norms, `sqrt`;
  - the central-difference stiffness check in StructureBaseElement.cpp;
  - the MUMPS solver;
  - matrix assembly and mass matrices;
  - the `log`-based capillary stress values;
  - `CalculateCriticalTimeStep`.
  These are floating-point computations or calls into code outside the model.
  Where the modelled logic needs their results, they are parameters.
- `ConstraintDisplacementsPeriodic2D`: the numerics of `SetBoundaryVectors` and `AddToConstraintMatrix` (a `tan`, sorting and printing) are not part of this model. The corner nodes and boundary node lists they produce are given as data. Only the angle check of `SetBoundaryVectors` is modelled (`ConstraintDisplacementsPeriodic2D.CheckBoundaryAngle`).
- `InterpolationType.AddDofInterpolation`: the integration-type update of the new interpolation (`UpdateIntegrationType`, line 152) and the recomputation of the surface node lists (lines 155-170) are not modelled. Both evaluate shape functions at integration points and natural coordinates, which this model keeps as parameters.
- `StructureBaseElement.ElementSet`, `StructureBaseElement.ElementGroupSet`, `StructureBaseElement.ElementTotalSet`: the element's own `SetConstitutiveLaw` / `SetSection` is not part of this model. Whether an element accepts the law or section is the parameter `accepts`. The message text the rethrow appends is not modelled.
- `AdditiveInputExplicit.Evaluate`: the copy-back into a requested output that is a null pointer, which the code skips, is not modelled; every requested output is a value. A requested strain derivative may be made afresh by a strain-modifying law, so the contract states its final value only through `AdditiveInputExplicit.Finish`.
- `DamageViscoPlasticityEngineeringStress`: the return mapping is an empty stub in the code. Only the linear-elastic path of `Evaluate3D` is modelled.
- `BoundaryElement2D` and `BoundaryElement3D`: element evaluation is not modelled. BoundaryElement3D only throws.
- Serialization, `Info`, printing, logging, timing and OpenMP paths are left out: they have no behaviour to state.
- RungeKutta3.cpp lines 126-252 are not modelled: they are a duplicated, garbled `GetStageWeights`.
- `TimeControl` and the time-dependent load functions of the Newmark integrators are parameters (the current time and load vectors).
- ImplicitNewtonRaphson.cpp line 194 uses `residual_j` before it is assigned. This shows up only in the initial equilibrium finding below; nothing else depends on it.
- StructureBaseElement.cpp line 116 indexes with `maxElement = -1`. It lies inside the central-difference check, which is not modelled.
- `IntegrationTypeBase.GetVisualizationCells`: the number of points per cell type (`GetNumPoints`) is a function parameter.
- `LoadNodeForces2D.Create`: the norm of the direction is a parameter `norm` with `norm >= 0` and `norm * norm` equal to the squared length. The square root itself is not computed.
- `MeshFem`: Eigen's `isMuchSmallerThan` is modelled with the double-precision dummy precision 1e-12 and an exact squared norm. Rounding is not modelled.
- `LineSearch.Search`, `NewmarkDirect.FindEquilibrium`, `NewmarkDirect.Iterate`, `ImplicitNewtonRaphson.Iterate`: these require a positive minimum line-search step. With exact reals, halving reaches any positive minimum. In doubles the loop would also end at a zero minimum, by underflow; that case is not modelled.
- `NewmarkDirect.CalculateDof1`, `NewmarkDirect.CalculateDof2`, `NewmarkDirect.TrialState`, `NewmarkDirect.Predicted`, `ImplicitNewtonRaphson.Predictor`: these require beta and the time step to be nonzero. The source divides by both; at zero, doubles give infinities, which exact reals cannot represent.
- `ConstraintLagrangeNodeGroupDisplacements1D.GradientInternalPotential`, `ConstraintLagrangeNodeGroupDisplacements1D.CoefficientMatrix0`: these require a nonzero penalty, because the source divides by it.
- `StructureBaseElement.ElementTotalGetAverage`, `StructureBaseElement.ElementGroupGetAverage`: these require a nonzero total volume, because the source divides by it.
- `StructureBaseElement.ElementCoefficientMatrix0AsWritten`: requires the row and column dof lists to have equal length. For differing lengths the code as written copies past the end of the row list, which has no exact model.
- `DamageViscoPlasticityEngineeringStress.Evaluate3D`: requires a law whose stored Poisson's ratio lies in the range its setter admits, so that the coefficients are defined.
- `ConstitutiveBase.Evaluate`, `ShrinkageCapillary.Evaluate`: the dimension is a template parameter of 1, 2 or 3, and these members require it.
- `VisualizePoint.FromVector`: requires at most three components, the Eigen segment bound.
- `Plane2D6N.GetNode`, `Plane2D6N.SetNode`: require the node index to be below six, as the code's assert does.
- `StructureElement.VirtualNodeCoordinates`: requires one of the two end nodes, as the code's loop does.

Behaviour kept as written, although it may surprise:

- `AdditiveInputExplicit.Evaluate`: the strain entry of the modified output map is created only once, before the loop over the modifying laws. A later law that reports no strain therefore subtracts the previous law's strain again (`AdditiveInputExplicit.StaleStrainSubtractedAgain`).
- `RungeKutta3`: the comments describe `GetStageTimeFactor` as the increment c_n - c_(n-1). The code returns c_n itself (0, 1/2, 1), and the model follows the code.
- `NewmarkDirect` treats a residual as converged when it is strictly below the tolerance. `ImplicitNewtonRaphson` also accepts a residual equal to the tolerance.
- `ImplicitNewtonRaphson`: the time step grows after quick convergence whether or not automatic time stepping is on.

## Findings

| source | as written | input that shows it | evidently intended | confidence | as-written member | corrected member |
|---|---|---|---|---|---|---|
| src/nuto/mechanics/interpolationtypes/Interpolation2DQuad.cpp:165-179 | counts every (node, existing node) match and fails only when the count is below the node count | a bilinear quad whose node 0 matches two existing nodes and whose node 1 matches none | fail when some node matches no existing node | high, not executed | Interpolation2DQuad.UpdateNodeIndicesAsWritten, Interpolation2DQuad.AsWrittenAcceptsMissingNode | Interpolation2DQuad.UpdateNodeIndices |
| src/nuto/mechanics/constraints/ConstraintDisplacementsPeriodic2D.cpp:101 | the lower-boundary test compares the lower left x with the lower right y | the unit box with corners (1,1), (2,1), (1,0), (2,0) is rejected | compare the two lower y coordinates | high, not executed | ConstraintDisplacementsPeriodic2D.CheckBoxAsWritten, ConstraintDisplacementsPeriodic2D.AsWrittenRejectsUnitBox | ConstraintDisplacementsPeriodic2D.CheckBox |
| src/nuto/mechanics/constitutive/mechanics/DamageViscoPlasticityEngineeringStress.cpp:527 | the thermal strain is subtracted from a shadowing local, so the stress uses the total strain | E = 1, nu = 0, alpha = 1, temperature 1, strain equal to the free thermal expansion: the normal stresses are 1 | stress from the elastic strain, zero for free thermal expansion | high, not executed | DamageViscoPlasticityEngineeringStress.Evaluate3DAsWritten, DamageViscoPlasticityEngineeringStress.AsWrittenStressesFreeExpansion | DamageViscoPlasticityEngineeringStress.Evaluate3D |
| src/mechanics/timeIntegration/NewmarkDirect.cpp:306-314 | the mu-damping check runs only when there is a mass matrix, so it never rejects anything | one time derivative with mu-damping on is accepted | reject mu-damping without second time derivatives | medium, not executed | NewmarkDirect.InitialStateAsWritten, NewmarkDirect.AsWrittenAcceptsMuDampingWithoutMass | NewmarkDirect.InitialState |
| src/nuto/mechanics/timeIntegration/ImplicitNewtonRaphson.cpp:192-202 | the equilibrium check takes the norm of the still-empty `residual_j` instead of `prevResidual_j` | an initial residual [1.0] with the default tolerance 1e-6 passes | check the residual just computed | high, not executed | ImplicitNewtonRaphson.CheckInitialEquilibriumAsWritten, ImplicitNewtonRaphson.AsWrittenIgnoresInitialResidual | ImplicitNewtonRaphson.CheckInitialEquilibrium |
| src/nuto/mechanics/structures/StructureBaseElement.cpp:400-404 | the column dof output is filled from the row dof list | rows [0, 1] and columns [2, 3] give columns [0, 1] | copy the column dof list | high, not executed | StructureBaseElement.ElementCoefficientMatrix0AsWritten, StructureBaseElement.AsWrittenReturnsRowsAsColumns | StructureBaseElement.ElementCoefficientMatrix0 |
