/**
  `fj_kernel::topology::builder`: `VertexBuilder` and `EdgeBuilder` borrow a
  `Shape` and sequence the inserts for a vertex or an edge, returning early
  with the first validation error.

  Each builder method is proved against a function of the store's contents
  before the call; the properties the builders promise are lemmas about those
  functions.
 */
module Builder {
  import opened Wrappers
  import opened Geometry
  import opened ShapeStore

  /** What `VertexBuilder::from_point` does to a store's contents. */
  function FromPointSpec(st: Stores, p: Point3, geometric: Object -> bool): Outcome<Handle<Vertex>>
  {
    var op := GetHandleOrInsertPointSpec(st, p, geometric);
    match op.result
    case Err(e) => Outcome(op.stores, Err(e))
    case Ok(ph) => GetHandleOrInsertVertexSpec(op.stores, Vertex(ph), geometric)
  }

  /** The curve `EdgeBuilder::circle` inserts. */
  function CircleCurveOf(radius: real): (c: Curve)
    ensures c.CircleCurve? && c.circle.center == Origin3 && c.circle.radius == Vector2(radius, 0.0)
  {
    CircleCurve(KernelCircle(Origin3, Vector2(radius, 0.0)))
  }

  /** What `EdgeBuilder::circle` does to a store's contents. */
  function CircleSpec(st: Stores, radius: real, geometric: Object -> bool): Outcome<Handle<Edge>>
  {
    var oc := InsertCurveSpec(st, CircleCurveOf(radius), geometric);
    match oc.result
    case Err(e) => Outcome(oc.stores, Err(e))
    case Ok(ch) => InsertEdgeSpec(oc.stores, Edge(ch, None), geometric)
  }

  /** The curve `EdgeBuilder::line_segment_from_vertices` inserts: the line through both vertices' points. */
  function LineOf(vertices: VertexPair): (c: Curve)
    ensures c.LineCurve?
    ensures c.line.p0 == vertices.v0.obj.point.obj && c.line.p1 == vertices.v1.obj.point.obj
  {
    LineCurve(LineThrough(vertices.v0.Get().point.Get(), vertices.v1.Get().point.Get()))
  }

  /** What `EdgeBuilder::line_segment_from_vertices` does to a store's contents. */
  function LineSegmentSpec(st: Stores, vertices: VertexPair, geometric: Object -> bool): Outcome<Handle<Edge>>
  {
    var oc := InsertCurveSpec(st, LineOf(vertices), geometric);
    match oc.result
    case Err(e) => Outcome(oc.stores, Err(e))
    case Ok(ch) => InsertEdgeSpec(oc.stores, Edge(ch, Some(vertices)), geometric)
  }

  /**
    Calling `from_point` again with the same point on the store the first call
    left returns the same vertex handle and changes nothing: the point and the
    vertex are reused.
   */
  lemma FromPointIdempotent(st: Stores, p: Point3, geometric: Object -> bool)
    requires FromPointSpec(st, p, geometric).result.Ok?
    ensures var o := FromPointSpec(st, p, geometric);
            FromPointSpec(o.stores, p, geometric) == o
  {
    var op := GetHandleOrInsertPointSpec(st, p, geometric);
    var o := FromPointSpec(st, p, geometric);
    GetHandleOrInsertPointIdempotent(st, p, geometric);
    assert o.stores.points == op.stores.points;
    assert GetHandleOrInsertPointSpec(o.stores, p, geometric) == Outcome(o.stores, op.result);
    GetHandleOrInsertVertexIdempotent(op.stores, Vertex(op.result.value), geometric);
  }

  /** The vertex `from_point` returns wraps the handle returned for the point, and both resolve. */
  lemma FromPointWrapsPoint(st: Stores, p: Point3, geometric: Object -> bool)
    requires FromPointSpec(st, p, geometric).result.Ok?
    ensures var o := FromPointSpec(st, p, geometric);
            var h := o.result.value;
            && h.obj.point == GetHandleOrInsertPointSpec(st, p, geometric).result.value
            && h.obj.point.obj == p
            && ResolvesPoint(h.obj.point, o.stores.points)
            && Resolves(h, o.stores.vertices)
  {
  }

  /**
    If the point is refused, no vertex insert is attempted: the point's error
    (geometric, as a point refers to nothing) is returned and the store is
    unchanged.
   */
  lemma FromPointPointRefused(st: Stores, p: Point3, geometric: Object -> bool)
    requires GetHandleOrInsertPointSpec(st, p, geometric).result.Err?
    ensures p !in st.points && !geometric(PointObject(p))
    ensures FromPointSpec(st, p, geometric) == Outcome(st, Err(Geometric))
  {
  }

  /**
    In a store without duplicate points, a point already stored at slot `i`,
    whose vertex is stored too, is reused as it is: the store is unchanged and
    the result is the stored vertex.
   */
  lemma FromPointReusesStored(st: Stores, i: nat, geometric: Object -> bool)
    requires Unique(st.points) && i < |st.points|
    requires Vertex(PointHandle(i, st.points[i])) in st.vertices
    ensures var o := FromPointSpec(st, st.points[i], geometric);
            && o.stores == st
            && o.result.Ok?
            && o.result.value.obj == Vertex(PointHandle(i, st.points[i]))
            && Resolves(o.result.value, st.vertices)
  {
    FindUnique(st.points, i);
  }

  /** `from_point` never stores a second copy of a point or a vertex. */
  lemma FromPointKeepsUnique(st: Stores, p: Point3, geometric: Object -> bool)
    requires Unique(st.points) && Unique(st.vertices)
    ensures var o := FromPointSpec(st, p, geometric);
            Unique(o.stores.points) && Unique(o.stores.vertices)
  {
    var op := GetHandleOrInsertPointSpec(st, p, geometric);
    GetHandleOrInsertKeepsUnique(st, p, Vertex(PointHandle(0, p)), geometric);
    if op.result.Ok? {
      GetHandleOrInsertKeepsUnique(op.stores, p, Vertex(op.result.value), geometric);
    }
  }

  /**
    `circle(r)` succeeds iff both inserts pass validation; it then adds a circle
    centred at the origin with radius vector `[r, 0]` and after it an edge on
    that circle without vertices, and returns the edge.
   */
  lemma CircleBuildsClosedEdge(st: Stores, radius: real, geometric: Object -> bool)
    ensures var o := CircleSpec(st, radius, geometric);
            var c := CircleCurve(KernelCircle(Origin3, Vector2(radius, 0.0)));
            var e := Edge(Handle(|st.curves|, c), None);
            && (o.result.Ok? <==> geometric(CurveObject(c)) && geometric(EdgeObject(e)))
            && (o.result.Ok? ==>
                  && o.stores == st.(curves := st.curves + [c], edges := st.edges + [e])
                  && o.result.value == Handle(|st.edges|, e))
  {
  }

  /** If the circle is refused, no edge insert is attempted and the store is unchanged. */
  lemma CircleCurveRefused(st: Stores, radius: real, geometric: Object -> bool)
    requires !geometric(CurveObject(CircleCurveOf(radius)))
    ensures CircleSpec(st, radius, geometric) == Outcome(st, Err(Geometric))
  {
  }

  /** If the circle is accepted and its edge refused, the circle stays in the store. */
  lemma CircleEdgeRefused(st: Stores, radius: real, geometric: Object -> bool)
    requires geometric(CurveObject(CircleCurveOf(radius)))
    requires !geometric(EdgeObject(Edge(Handle(|st.curves|, CircleCurveOf(radius)), None)))
    ensures CircleSpec(st, radius, geometric)
            == Outcome(st.(curves := st.curves + [CircleCurveOf(radius)]), Err(Geometric))
  {
  }

  /**
    `line_segment_from_vertices([v0, v1])` with stored vertices succeeds iff
    both inserts pass the geometric check; it then adds the line through `v0`'s
    point and `v1`'s point, in that order, and after it an edge on that line
    bounded by `[v0, v1]`, and returns the edge.
   */
  lemma LineSegmentBuildsBoundedEdge(st: Stores, vertices: VertexPair, geometric: Object -> bool)
    requires Resolves(vertices.v0, st.vertices) && Resolves(vertices.v1, st.vertices)
    ensures var o := LineSegmentSpec(st, vertices, geometric);
            var c := LineCurve(LineThrough(vertices.v0.obj.point.obj, vertices.v1.obj.point.obj));
            var e := Edge(Handle(|st.curves|, c), Some(vertices));
            && (o.result.Ok? <==> geometric(CurveObject(c)) && geometric(EdgeObject(e)))
            && (o.result.Ok? ==>
                  && o.stores == st.(curves := st.curves + [c], edges := st.edges + [e])
                  && o.result.value == Handle(|st.edges|, e))
  {
    var o := LineSegmentSpec(st, vertices, geometric);
    var oc := InsertCurveSpec(st, LineOf(vertices), geometric);
    if oc.result.Ok? {
      assert oc.stores.vertices == st.vertices;
    }
  }

  /** If the line is refused, no edge insert is attempted and the store is unchanged. */
  lemma LineSegmentCurveRefused(st: Stores, vertices: VertexPair, geometric: Object -> bool)
    requires !geometric(CurveObject(LineOf(vertices)))
    ensures LineSegmentSpec(st, vertices, geometric) == Outcome(st, Err(Geometric))
  {
  }

  /**
    An edge whose vertex handles do not resolve in the store is refused with a
    structural error; the line inserted before it stays in the store.
   */
  lemma LineSegmentDanglingVertex(st: Stores, vertices: VertexPair, geometric: Object -> bool)
    requires geometric(CurveObject(LineOf(vertices)))
    requires !Resolves(vertices.v0, st.vertices) || !Resolves(vertices.v1, st.vertices)
    ensures LineSegmentSpec(st, vertices, geometric)
            == Outcome(st.(curves := st.curves + [LineOf(vertices)]), Err(Structural))
  {
  }

  /** Every builder keeps the store's referential integrity. */
  lemma BuildersKeepValid(st: Stores, p: Point3, radius: real, vertices: VertexPair, geometric: Object -> bool)
    requires Valid(st)
    ensures Valid(FromPointSpec(st, p, geometric).stores)
    ensures Valid(CircleSpec(st, radius, geometric).stores)
    ensures Valid(LineSegmentSpec(st, vertices, geometric).stores)
  {
    var op := GetHandleOrInsertPointSpec(st, p, geometric);
    OperationsKeepValid(st, p, CircleCurveOf(radius), Vertex(PointHandle(0, p)), Edge(Handle(0, CircleCurveOf(radius)), None), geometric);
    if op.result.Ok? {
      OperationsKeepValid(op.stores, p, CircleCurveOf(radius), Vertex(op.result.value), Edge(Handle(0, CircleCurveOf(radius)), None), geometric);
    }
    var oc := InsertCurveSpec(st, CircleCurveOf(radius), geometric);
    if oc.result.Ok? {
      OperationsKeepValid(oc.stores, p, CircleCurveOf(radius), Vertex(PointHandle(0, p)), Edge(oc.result.value, None), geometric);
    }
    var ol := InsertCurveSpec(st, LineOf(vertices), geometric);
    OperationsKeepValid(st, p, LineOf(vertices), Vertex(PointHandle(0, p)), Edge(Handle(0, LineOf(vertices)), None), geometric);
    if ol.result.Ok? {
      OperationsKeepValid(ol.stores, p, LineOf(vertices), Vertex(PointHandle(0, p)), Edge(ol.result.value, Some(vertices)), geometric);
    }
  }

  /** Two vertices built from the point (1, 2, 3), one after the other, are the same vertex. */
  lemma FromPointExample(geometric: Object -> bool)
    requires geometric(PointObject(Point3(1.0, 2.0, 3.0)))
    requires geometric(VertexObject(Vertex(PointHandle(0, Point3(1.0, 2.0, 3.0)))))
    ensures var o1 := FromPointSpec(Empty, Point3(1.0, 2.0, 3.0), geometric);
            var o2 := FromPointSpec(o1.stores, Point3(1.0, 2.0, 3.0), geometric);
            && o1.result == Ok(Handle(0, Vertex(PointHandle(0, Point3(1.0, 2.0, 3.0)))))
            && o2.result == o1.result
            && o2.stores == Stores([Point3(1.0, 2.0, 3.0)], [], [Vertex(PointHandle(0, Point3(1.0, 2.0, 3.0)))], [])
  {
    FromPointIdempotent(Empty, Point3(1.0, 2.0, 3.0), geometric);
  }

  /** `VertexBuilder`: builds vertices in the shape it borrows. */
  class VertexBuilder {
    const shape: Shape

    constructor (shape: Shape)
      ensures this.shape == shape
    {
      this.shape := shape;
    }

    /** `VertexBuilder::from_point`. */
    method FromPoint(point: Point3) returns (r: Result<Handle<Vertex>, ValidationError>)
      modifies shape
      ensures Outcome(shape.stores, r) == FromPointSpec(old(shape.stores), point, shape.geometric)
    {
      var p := shape.GetHandleOrInsertPoint(point);
      if p.Err? {
        return Err(p.error);
      }
      r := shape.GetHandleOrInsertVertex(Vertex(p.value));
    }
  }

  /** `EdgeBuilder`: builds edges in the shape it borrows. */
  class EdgeBuilder {
    const shape: Shape

    constructor (shape: Shape)
      ensures this.shape == shape
    {
      this.shape := shape;
    }

    /** `EdgeBuilder::circle`. */
    method Circle(radius: real) returns (r: Result<Handle<Edge>, ValidationError>)
      modifies shape
      ensures Outcome(shape.stores, r) == CircleSpec(old(shape.stores), radius, shape.geometric)
    {
      var curve := shape.InsertCurve(CircleCurve(KernelCircle(Origin3, Vector2(radius, 0.0))));
      if curve.Err? {
        return Err(curve.error);
      }
      r := shape.InsertEdge(Edge(curve.value, None));
    }

    /** `EdgeBuilder::line_segment_from_vertices`. */
    method LineSegmentFromVertices(vertices: VertexPair) returns (r: Result<Handle<Edge>, ValidationError>)
      modifies shape
      ensures Outcome(shape.stores, r) == LineSegmentSpec(old(shape.stores), vertices, shape.geometric)
    {
      var points := [vertices.v0.Get().point.Get(), vertices.v1.Get().point.Get()];
      var curve := shape.InsertCurve(LineCurve(LineThrough(points[0], points[1])));
      if curve.Err? {
        return Err(curve.error);
      }
      r := shape.InsertEdge(Edge(curve.value, Some(vertices)));
    }
  }
}
