# Fornjot kernel core, modelled in Dafny

This project models six pieces of the Fornjot CAD kernel and proves
properties of them.

- **Face-polygon containment test** (`polygon.dfy`). A `Polygon` is the set
  of boundary segments of a face, projected onto the face's surface.
  - `contains_triangle` examines the triangle edges ab, bc, ca and skips
    boundary segments.
  - For any other edge it casts a ray from the edge's centre toward an outside
    point. It rounds each intersection parameter to six decimals and collects
    the distinct values.
  - It appends one debug check per examined edge. It rejects the triangle at
    the first edge with an even number of distinct hits.
- **Shape store and topology builders** (`shape.dfy`, `builder.dfy`).
  - The store keeps points, curves, vertices and edges. It validates each
    object before storing it: structurally (every handle it holds resolves),
    then geometrically.
  - `get_handle_or_insert` reuses an equal stored object.
  - `VertexBuilder::from_point`, `EdgeBuilder::circle` and
    `EdgeBuilder::line_segment_from_vertices` sequence these calls on a
    `Shape` they borrow, returning the first error.
- **Circle coordinates** (`circle.dfy`). `Circle::reverse`, and the maps
  between points and the circle's angular coordinate in [0, 2π).
- **2D point order** (`pnt2.dfy`). The lexicographic order of `Pnt2`, and its
  conversions to and from `Point2<f32>`.
- **Isosurface grid edges** (`grid.dfy`).
  - `Grid::from_descriptor` fills an ordered map with distance values.
  - `Grid::edges` lists the edges from every index to its +z, +y and +x
    neighbours present in the map.
  - `neighbors_of_edge` picks the start endpoint from the edge's direction.
- **Shape-description builders** (`syntax.dfy`). `rotate`, `translate`,
  `union`, `sketch` and `sweep` build plain records with fixed defaults.
  Dafny values are immutable, so the receiver is unchanged, as the source's
  clones ensure.

## How functions and state are modelled

Code that changes state is imperative Dafny:
- `Shape` is a class whose methods reassign its contents.
- The builders and `DebugInfo` are classes.
- `from_descriptor`, `contains_triangle` and its inner ray-casting loop are
  methods with loops.

Each such method is proved equal to a function of the old state. The
properties are lemmas about those functions.

- Scalars (`f32`, `f64`, `Scalar`, `R32`) are exact reals.
- Functions the core calls but does not define are parameters of the model:
  - `atan2`, `sin`, `cos` and `Vector::to_uv` (the `Trig` record);
  - parry's `cast_local_ray` (`cast`);
  - the surface conversions (the `Surface` record);
  - the `Distance` implementation;
  - the points a `GridDescriptor` yields;
  - `GridIndex::to_coordinates`;
  - the conversions `Into<Shape3d>` and `Into<Shape2d>`;
  - the store's geometric validation.

`Edge::direction` is defined outside the modelled files; `grid.rs` only
calls it. `DirectionOf` is therefore an assumed definition: the first axis
on which the endpoints' indices differ, with the sign saying which endpoint
lies beyond the other. Where the indices are equal it returns `None`. What
the real method does then is not known to this model. Two more definitions
are assumed in the same way:
- `ReverseEdge` stands for `Edge::reverse`, which the tests call
  (grid.rs:219-223) but which is defined elsewhere. It is assumed to swap
  the endpoints.
- `IndexLess` stands for the `Ord` of `GridIndex`, whose derivation is not
  among the modelled files. It is assumed to be lexicographic on (x, y, z),
  the order that the edge list in the test (grid.rs:128-203) fits.

In these places the model follows the code where one might expect otherwise:
- `Shape::insert` is not among the modelled files. It is assumed to validate
  and append, with no check for an equal object already stored. Only
  `get_handle_or_insert` reuses equal objects. `Builder.CircleBuildsClosedEdge` and
  `Builder.LineSegmentBuildsBoundedEdge` rest on this assumption.
- A builder whose edge insert fails keeps the curve it already inserted. The
  "no partial insertion" rule holds per store call, not per builder.
- The circle coordinate map projects with `to_uv` (a collaborator). It does
  not use the `a` and `b` vectors directly.

## Model

| member | source | states |
|---|---|---|
| `Polygon.ProjectAll` | fj-kernel/src/algorithms/triangulation/polygon.rs:24-40 | a segment is in the set iff it is the surface projection of one of the cycle's segments |
| `Polygon.ProjectCycles` | fj-kernel/src/algorithms/triangulation/polygon.rs:27-31 | a segment is in the set iff it is the projection of a segment of one of the interior cycles |
| `Polygon.New` | fj-kernel/src/algorithms/triangulation/polygon.rs:19-43 | the boundary is exactly the projected exterior segments plus the projected segments of every interior cycle; the surface is kept |
| `Polygon.ContainsSegment` | fj-kernel/src/algorithms/triangulation/polygon.rs:125-127 | true iff some boundary segment has the same two endpoints, in either order |
| `Polygon.ContainsSegmentSymmetric` | fj-kernel/src/algorithms/triangulation/polygon.rs:125-127 | `[a, b]` is contained iff `[b, a]` is |
| `Polygon.BoundaryContained` | fj-kernel/src/algorithms/triangulation/polygon.rs:125-127 | every boundary segment is contained in both directions |
| `Polygon.Midpoint` | fj-kernel/src/algorithms/triangulation/polygon.rs:64 | the centre `s0 + (s1 - s0) / 2` is the average of the endpoints |
| `Polygon.RayFor` | fj-kernel/src/algorithms/triangulation/polygon.rs:64-71 | the ray starts at the edge's centre and its direction reaches the outside point |
| `Polygon.Round` | fj-kernel/src/algorithms/triangulation/polygon.rs:103 | `round` moves its argument by at most one half; an exact half goes away from zero |
| `Polygon.Round6` | fj-kernel/src/algorithms/triangulation/polygon.rs:102-103 | rounding to six decimals moves the parameter by at most 5e-7 |
| `Polygon.Round6Close` | fj-kernel/src/algorithms/triangulation/polygon.rs:102-103 | rounding with `eps = 1e6` moves a parameter by at most 5e-7 and keeps whole millionths |
| `Polygon.FirstSeenIsHits` | fj-kernel/src/algorithms/triangulation/polygon.rs:81-109 | the hits pushed in any iteration order have no repeats and are exactly the distinct rounded parameters |
| `Polygon.RecordedHitsAreDistinctHits` | fj-kernel/src/algorithms/triangulation/polygon.rs:105-107 | a check's hits have no repeats, equal the set `hits` as a set, and have its size |
| `Polygon.DuplicateHitCountedOnce` | fj-kernel/src/algorithms/triangulation/polygon.rs:99-107 | two intersections rounding to the same value count once: dropping one segment leaves the hits unchanged |
| `Polygon.Windows` | fj-kernel/src/algorithms/triangulation/polygon.rs:51 | `windows(2)` pairs each element with the next, one pair fewer than elements |
| `Polygon.TriangleEdgesInOrder` | fj-kernel/src/algorithms/triangulation/polygon.rs:51 | the edges are examined in the order ab, bc, ca |
| `Polygon.ContainsTriangleLabelling` | fj-kernel/src/algorithms/triangulation/polygon.rs:45-123 | the verdict is the same when the corners are rotated or two of them are swapped |
| `Polygon.StopsAtFirstRejection` | fj-kernel/src/algorithms/triangulation/polygon.rs:111-117 | at the first failing edge the test stops: that edge is the last one checked and the triangle is rejected |
| `Polygon.AllInsideChecksNonBoundary` | fj-kernel/src/algorithms/triangulation/polygon.rs:51-111 | when every edge passes, exactly the non-boundary edges get a check, in order |
| `Polygon.VerdictFromChecks` | fj-kernel/src/algorithms/triangulation/polygon.rs:111-122 | the triangle is accepted iff every checked edge has an odd number of distinct hits |
| `Polygon.AllBoundaryAccepted` | fj-kernel/src/algorithms/triangulation/polygon.rs:56-60 | a triangle with all three edges on the boundary is accepted and no check is recorded |
| `Polygon.EdgeInsideSymmetric` | fj-kernel/src/algorithms/triangulation/polygon.rs:58-71 | an edge and its reverse have the same centre and ray, so they pass or fail together |
| `Polygon.CastRay` | fj-kernel/src/algorithms/triangulation/polygon.rs:81-109 | the hit set is the set of distinct rounded parameters; the pushed hits are those in first-seen order for some iteration order of the segment set |
| `Polygon.ContainsTriangle` | fj-kernel/src/algorithms/triangulation/polygon.rs:45-123 | the answer is true iff every edge is a boundary segment or has an odd distinct-hit count. The old checks are kept; one check per examined edge is appended, with that edge's ray and hits |
| `ShapeStore.Validate` | fj-kernel/src/topology/builder.rs:29-30 | (the store is not shown; cited where the builder calls it) an object fails structurally iff a handle it holds does not resolve; otherwise it fails geometrically iff the geometric check rejects it |
| `ShapeStore.Find` | fj-kernel/src/topology/builder.rs:29-30 | (the store is not shown; cited where the builder calls it) the first slot holding an equal object, present iff one is stored |
| `ShapeStore.InsertCurveSpec` | fj-kernel/src/topology/builder.rs:49-52 | a curve is stored iff it validates; then it is appended and its handle resolves, otherwise the store is unchanged and the error returned |
| `ShapeStore.InsertEdgeSpec` | fj-kernel/src/topology/builder.rs:53-56 | the same for an edge |
| `ShapeStore.GetHandleOrInsertPointSpec` | fj-kernel/src/topology/builder.rs:29 | an equal stored point is returned with the store unchanged; otherwise the point is inserted |
| `ShapeStore.GetHandleOrInsertVertexSpec` | fj-kernel/src/topology/builder.rs:30 | the same for a vertex |
| `ShapeStore.GetHandleOrInsertPointIdempotent` | fj-kernel/src/topology/builder.rs:21-29 | asked again after success, it returns the same handle and changes nothing |
| `ShapeStore.GetHandleOrInsertVertexIdempotent` | fj-kernel/src/topology/builder.rs:21-30 | the same for vertices |
| `ShapeStore.GetHandleOrInsertKeepsUnique` | fj-kernel/src/topology/builder.rs:21-30 | a store without duplicate points or vertices stays without them |
| `ShapeStore.OperationsKeepValid` | fj-kernel/src/topology/builder.rs:29-72 | every store call keeps referential integrity |
| `ShapeStore.Shape.InsertCurve` | fj-kernel/src/topology/builder.rs:49-52 | the new contents and the result are those of `InsertCurveSpec` |
| `ShapeStore.Shape.InsertEdge` | fj-kernel/src/topology/builder.rs:53-56 | the new contents and the result are those of `InsertEdgeSpec` |
| `ShapeStore.Shape.GetHandleOrInsertPoint` | fj-kernel/src/topology/builder.rs:29 | the new contents and the result are those of `GetHandleOrInsertPointSpec` |
| `ShapeStore.Shape.GetHandleOrInsertVertex` | fj-kernel/src/topology/builder.rs:30 | the new contents and the result are those of `GetHandleOrInsertVertexSpec` |
| `Builder.CircleCurveOf` | fj-kernel/src/topology/builder.rs:49-52 | the circle is centred at the origin with radius vector `[r, 0]` |
| `Builder.LineOf` | fj-kernel/src/topology/builder.rs:66-68 | the line goes through `v0`'s point and then `v1`'s point |
| `Builder.FromPointIdempotent` | fj-kernel/src/topology/builder.rs:21-33 | a second `from_point` with the same point returns the same vertex handle and changes nothing |
| `Builder.FromPointWrapsPoint` | fj-kernel/src/topology/builder.rs:29-30 | the vertex wraps the handle returned for the point; both handles resolve |
| `Builder.FromPointPointRefused` | fj-kernel/src/topology/builder.rs:29 | if the point is refused, its error is returned, no vertex insert happens and the store is unchanged |
| `Builder.FromPointReusesStored` | fj-kernel/src/topology/builder.rs:21-33 | a point and vertex already stored are reused and the store is unchanged |
| `Builder.FromPointKeepsUnique` | fj-kernel/src/topology/builder.rs:21-33 | `from_point` never stores a second copy of a point or vertex |
| `Builder.FromPointExample` | fj-kernel/src/topology/builder.rs:25-33 | two vertices built from (1, 2, 3) on an empty store are one vertex, stored once |
| `Builder.CircleBuildsClosedEdge` | fj-kernel/src/topology/builder.rs:48-59 | `circle(r)` succeeds iff both inserts validate; it then appends the origin-centred circle with radius `[r, 0]` and an edge on it without vertices, and returns that edge |
| `Builder.CircleCurveRefused` | fj-kernel/src/topology/builder.rs:49-52 | a refused circle returns its error without an edge insert; the store is unchanged |
| `Builder.CircleEdgeRefused` | fj-kernel/src/topology/builder.rs:53-56 | a refused edge returns its error; the circle stays stored |
| `Builder.LineSegmentBuildsBoundedEdge` | fj-kernel/src/topology/builder.rs:62-75 | with stored vertices, it succeeds iff both inserts validate; it then appends the line through `v0` then `v1` and an edge on it with vertices `[v0, v1]` |
| `Builder.LineSegmentCurveRefused` | fj-kernel/src/topology/builder.rs:66-68 | a refused line returns its error without an edge insert; the store is unchanged |
| `Builder.LineSegmentDanglingVertex` | fj-kernel/src/topology/builder.rs:69-72 | an edge with a vertex handle not in the store fails with a structural error |
| `Builder.BuildersKeepValid` | fj-kernel/src/topology/builder.rs:25-75 | every builder keeps referential integrity |
| `Builder.VertexBuilder.FromPoint` | fj-kernel/src/topology/builder.rs:25-33 | the new store and the result are those of `FromPointSpec`, with an early return on the point's error |
| `Builder.EdgeBuilder.Circle` | fj-kernel/src/topology/builder.rs:48-59 | the new store and the result are those of `CircleSpec` |
| `Builder.EdgeBuilder.LineSegmentFromVertices` | fj-kernel/src/topology/builder.rs:62-75 | the new store and the result are those of `LineSegmentSpec` |
| `Circle.Reverse` | crates/fj-math/src/circle.rs:29-32 | `center` and `a` are unchanged and `b` is negated |
| `Circle.ReverseInvolutive` | crates/fj-math/src/circle.rs:29-32 | reversing twice gives the original circle |
| `Circle.PointToCircleCoords` | crates/fj-math/src/circle.rs:46-58 | a non-negative angle is returned unchanged and a negative one has 2π added; an angle in (-π, π] gives a result in [0, 2π) |
| `Circle.CircleCoordsInRange` | crates/fj-math/src/circle.rs:34-58 | given `atan2` in (-π, π], every coordinate is in [0, 2π) |
| `Circle.VectorFromCircleCoords` | crates/fj-math/src/circle.rs:69-77 | each component is `a·cos t + b·sin t` |
| `Circle.PointFromCircleCoords` | crates/fj-math/src/circle.rs:61-66 | each component is `center + a·cos t + b·sin t` |
| `Circle.PointMinusCenterIsVector` | crates/fj-math/src/circle.rs:61-66 | `point_from_circle_coords(t) - center` is `vector_from_circle_coords(t)` |
| `Circle.ReverseMirrorsCoords` | crates/fj-math/src/circle.rs:29-77 | the reversed circle at `t` is the original at `-t` |
| `Circle.CircleCoordsRoundTrip` | crates/fj-math/src/circle.rs:46-77 | a coordinate in [0, 2π) mapped to a point and back is unchanged, on any circle whose offset `to_uv` sees as a positive multiple of (cos t, sin t), given that `atan2` ignores a positive factor |
| `Circle.PointToCircleCoordsExample` | crates/fj-math/src/circle.rs:88-112 | the test's four points map to 0, π/2, π and 3π/2 |
| `Pnt2.New` | fj/src/geometry/shapes/pnt2.rs:10-12 | `x` is the first coordinate and `y` the second |
| `Pnt2.CmpScalar` | fj/src/geometry/shapes/pnt2.rs:25-31 | the scalar order answers Less, Equal or Greater exactly as `<`, `==`, `>` |
| `Pnt2.Cmp` | fj/src/geometry/shapes/pnt2.rs:25-31 | lexicographic by x then y; Equal iff the points are equal |
| `Pnt2.PartialCmp` | fj/src/geometry/shapes/pnt2.rs:33-39 | always defined and equal to `cmp` |
| `Pnt2.CmpIsTotalOrder` | fj/src/geometry/shapes/pnt2.rs:25-31 | reflexive, antisymmetric, transitive and total |
| `Pnt2.CmpFlips` | fj/src/geometry/shapes/pnt2.rs:25-31 | swapping the operands reverses the answer |
| `Pnt2.NewOrdersLexicographically` | fj/src/geometry/shapes/pnt2.rs:9-31 | points built by `new` compare by their arguments, first x then y |
| `Pnt2.DefinedOrderExample` | fj/src/geometry/shapes/pnt2.rs:88-96 | (0, 1) < (1, 0), and not (0, 1) > (1, 0) |
| `Pnt2.FromInner` | fj/src/geometry/shapes/pnt2.rs:59-63 | `R32::from_inner` accepts exactly the finite values and keeps them |
| `Pnt2.FromPoint2F32` | fj/src/geometry/shapes/pnt2.rs:59-69 | the conversion succeeds iff both coordinates are finite, and keeps them |
| `Pnt2.ToPoint2F32` | fj/src/geometry/shapes/pnt2.rs:71-81 | the result's coordinates are finite |
| `Pnt2.PointRoundTrip` | fj/src/geometry/shapes/pnt2.rs:59-81 | out to `Point2<f32>` and back is the same point |
| `Pnt2.Point2F32RoundTrip` | fj/src/geometry/shapes/pnt2.rs:59-81 | an accepted `Point2<f32>` in and back out has the same coordinates |
| `Grid.StepHasOneAxis` | fj/src/geometry/isosurface/grid.rs:39-41 | the three neighbours differ, and each is one step along its own axis |
| `Grid.Insert` | fj/src/geometry/isosurface/grid.rs:28 | `BTreeMap::insert` keeps the map ordered and maps the key to the new value |
| `Grid.FromDescriptor` | fj/src/geometry/isosurface/grid.rs:20-32 | the loop builds the map of inserting every point in turn with its distance, under the descriptor given |
| `Grid.Samples` | fj/src/geometry/isosurface/grid.rs:24-29 | the map built by inserting each point in turn is an ordered `BTreeMap` |
| `Grid.SamplesKeysAndValues` | fj/src/geometry/isosurface/grid.rs:24-31 | the keys are exactly the points' indices; each holds the distance at the last point yielded for it |
| `Grid.FromDescriptorDistinct` | fj/src/geometry/isosurface/grid.rs:24-31 | when indices are distinct, every point's value is its own distance |
| `Grid.EdgeToNext` | fj/src/geometry/isosurface/grid.rs:102-117 | an edge is returned iff the neighbour is a key |
| `Grid.Somes` | fj/src/geometry/isosurface/grid.rs:49-51 | the flattened, filtered list holds exactly the present edges |
| `Grid.IndexLess` | fj/src/geometry/isosurface/grid.rs:128-203 | assumed `Ord` of the unshown `GridIndex`: a smaller x always comes first, and a first index never has a larger x or equals the second |
| `Grid.IndexLessIsStrictTotalOrder` | fj/src/geometry/isosurface/grid.rs:128-203 | the assumed order is irreflexive, asymmetric, transitive and total, as a `BTreeMap` key order must be |
| `Grid.EdgesAt` | fj/src/geometry/isosurface/grid.rs:38-51 | at most three edges per index, each starting at that index with its stored value |
| `Grid.EdgesFrom` | fj/src/geometry/isosurface/grid.rs:35-52 | at most three edges per key, each starting at a key with that key's value |
| `Grid.Edges` | fj/src/geometry/isosurface/grid.rs:35-52 | at most three edges per stored index, each starting at a stored index with its stored value |
| `Grid.EdgesMembership` | fj/src/geometry/isosurface/grid.rs:35-52 | an edge is emitted iff both endpoints are keys one step apart along an axis, carrying both stored values |
| `Grid.EdgesAtPairs` | fj/src/geometry/isosurface/grid.rs:38-51 | from one index, the index pairs are those towards +z, +y and +x whose neighbour is a key, in that order |
| `Grid.EdgesAtOrdered` | fj/src/geometry/isosurface/grid.rs:38-47 | from one index, edges come in z, y, x order |
| `Grid.EdgesOrdered` | fj/src/geometry/isosurface/grid.rs:35-52 | edges are grouped by ascending start index, z, y, x within a group |
| `Grid.DirectionOf` | fj/src/geometry/isosurface/grid.rs:56 | assumed definition of the unshown `Edge::direction`: present iff the endpoints differ; its axis is one on which they differ, and its sign is `Pos` iff `b` lies beyond `a` on it |
| `Grid.StartOf` | fj/src/geometry/isosurface/grid.rs:83-86 | the start is `b` for a negative direction and `a` for a positive one |
| `Grid.StartIsLowerEnd` | fj/src/geometry/isosurface/grid.rs:83-86 | the start is the endpoint lower along the edge's axis |
| `Grid.ReverseEdge` | fj/src/geometry/isosurface/grid.rs:219 | assumed definition of the unshown `Edge::reverse`: the endpoints swap |
| `Grid.ReverseEdgeInvolutive` | fj/src/geometry/isosurface/grid.rs:219-223 | reversing twice gives the edge back |
| `Grid.ReverseFlipsDirection` | fj/src/geometry/isosurface/grid.rs:56 | reversing an edge keeps its axis and flips its sign |
| `Grid.EmittedEdgesPointForward` | fj/src/geometry/isosurface/grid.rs:39-47 | every emitted edge points in the positive direction of its axis |
| `Grid.CentreOffsets` | fj/src/geometry/isosurface/grid.rs:62-81 | four offsets, each `o` along the edge's axis and `±o` on the other two; distinct when `o` is not zero |
| `Grid.NeighborsOfEdge` | fj/src/geometry/isosurface/grid.rs:55-99 | four neighbours exactly when the edge has a direction |
| `Grid.ReverseSameNeighbors` | fj/src/geometry/isosurface/grid.rs:83-99 | an edge and its reverse have the same neighbours |
| `Grid.NeighborsExample` | fj/src/geometry/isosurface/grid.rs:205-250 | the test's x, y and z edges and their reverses have the expected four centres |
| `Grid.CubeEdgesExample` | fj/src/geometry/isosurface/grid.rs:128-203 | the index cube [0..2]^3 has exactly the test's 54 edges, in its order |
| `Syntax.Rotate` | fj/src/syntax.rs:13-21 | the receiver's shape, the axis and angle, offset zero |
| `Syntax.Translate` | fj/src/syntax.rs:62-70 | the receiver's shape, axis [1, 0, 0], angle zero and the offset |
| `Syntax.UnionOf` | fj/src/syntax.rs:83-91 | `a` is the receiver and `b` the other shape |
| `Syntax.SketchOf` | fj/src/syntax.rs:32-34 | the points are passed unchanged and in order |
| `Syntax.SweepOf` | fj/src/syntax.rs:45-48 | the receiver's shape and the length are passed unchanged |

## Left out

- `ShapeStore.InsertCurveSpec`, `ShapeStore.InsertEdgeSpec`: a curve or edge
  is appended without looking for an equal one, so the store can hold
  duplicates. This departs from the design rule that the store never holds
  the same object twice; `Shape::insert` is not part of this model.
- `Polygon.Segment2`: two boundary points are equal when their native
  surface (u, v) coordinates are equal (polygon.rs:91 maps each point to
  `point.native()`). Their 3D positions are not compared.

- Floating point: scalars are exact reals. NaN handling, rounding error in
  the ray/segment intersection, `f32` offsets in `neighbors_of_edge` and
  overflow in `t * 1e6` are not modelled.
- `Circle.PointToCircleCoords`: the [0, 2π) bound holds over reals. In `f64`,
  a tiny negative angle plus `2 * PI` can round to `2 * PI` itself.
- `atan2`, `sin`, `cos`, `Vector::to_uv`, parry's `cast_local_ray` and the
  surface conversions are collaborators outside the core. Their results are
  parameters; range facts appear as explicit preconditions where a lemma
  needs them.
- The shape store's own data structures and validation code are not shown.
  - The store is modelled as one sequence per kind.
  - A handle is modelled as a slot with its object.
  - The geometric check is modelled as a given predicate.
  - Inserting other kinds than the builders use (surfaces, faces, and so on)
    is not modelled.
- `HashSet` iteration order is unknown: the inner loop takes the segments in
  any order, and the debug hits are proved to be in first-seen order for
  some enumeration.
- `Line::from_points`, `Sketch::from_points`, `Sweep::from_shape_and_length`,
  `CycleApprox::segments`, `GridDescriptor::points` and
  `GridIndex::to_coordinates` are not part of this model. The records they build are kept as their inputs. The index
  sequence and the coordinate map are parameters.
- `From<&Pnt2> for Pnt2` and `Deref for Pnt2` are identity copies.
  `Debug`/`Display` formatting is output and is not modelled.
- The renderer, the window and event loop, file watching, export, argument
  handling, the model crates and module re-exports (`src/main.rs`,
  `src/graphics/renderer.rs`, `crates/fj-operations/src/lib.rs`,
  `models/spacer/src/lib.rs`, `fj/src/graphics/mod.rs`) are I/O and glue
  outside the core.
