/**
  The part of `fj_kernel::shape::Shape` that the topology builders rely on:
  one collection per kind of object, `insert`, which validates an object and
  stores it, and `get_handle_or_insert`, which hands back the handle of an
  equal object already stored and inserts otherwise.

  The store's own data structures and validation code are not part of this
  model. Its contents are one sequence per kind, in insertion order; a handle
  is a slot number together with the object in that slot. The structural
  check (every handle an object refers to resolves in the store) is written
  out; the geometric check is a predicate the store is given.
 */
module ShapeStore {
  import opened Wrappers
  import opened Geometry

  /** `Handle<T>`: a slot of the store, and the object in it, which `get` returns. */
  datatype Handle<+T> = Handle(id: nat, obj: T)
  {
    function Get(): T { obj }
  }

  /**
    `Handle<Point<3>>`, the same as `Handle<T>` at points. It is a type of its
    own because a `Handle` whose object holds a `Handle` (as a vertex does)
    cannot be declared as a field type here.
   */
  datatype PointHandle = PointHandle(id: nat, obj: Point3)
  {
    function Get(): Point3 { obj }
  }

  /** `geometry::Circle`: a centre and a radius vector in the circle's plane. */
  datatype KernelCircle = KernelCircle(center: Point3, radius: Vector2)

  /** The line `Line::from_points` builds through two points, kept as those points in order. */
  datatype Line = LineThrough(p0: Point3, p1: Point3)

  /** `geometry::Curve`. */
  datatype Curve = CircleCurve(circle: KernelCircle) | LineCurve(line: Line)

  /** `topology::Vertex`: a handle to a point. */
  datatype Vertex = Vertex(point: PointHandle)

  /** The two bounding vertices of an edge, `[Handle<Vertex>; 2]`. */
  datatype VertexPair = VertexPair(v0: Handle<Vertex>, v1: Handle<Vertex>)

  /** `topology::Edge`: a curve, and its bounding vertices unless it is closed. */
  datatype Edge = Edge(curve: Handle<Curve>, vertices: Option<VertexPair>)

  /** Why the store refused an object. */
  datatype ValidationError = Structural | Geometric

  /** An object offered to the store, tagged with its kind. */
  datatype Object =
    | PointObject(point: Point3)
    | CurveObject(curve: Curve)
    | VertexObject(vertex: Vertex)
    | EdgeObject(edge: Edge)

  /** The contents of the store: one sequence per kind, in insertion order. */
  datatype Stores = Stores(points: seq<Point3>, curves: seq<Curve>, vertices: seq<Vertex>, edges: seq<Edge>)

  const Empty: Stores := Stores([], [], [], [])

  /** What a store operation leaves behind: the new contents and the handle or the error. */
  datatype Outcome<H> = Outcome(stores: Stores, result: Result<H, ValidationError>)

  /** The handle names a slot of `s` and that slot holds the handle's object. */
  predicate Resolves<T(==)>(h: Handle<T>, s: seq<T>)
  {
    h.id < |s| && s[h.id] == h.obj
  }

  /** The same for a point handle. */
  predicate ResolvesPoint(h: PointHandle, s: seq<Point3>)
  {
    h.id < |s| && s[h.id] == h.obj
  }

  /** The structural check: every handle `o` refers to resolves in `st`. */
  predicate RefsResolve(st: Stores, o: Object)
  {
    match o
    case PointObject(_) => true
    case CurveObject(_) => true
    case VertexObject(v) => ResolvesPoint(v.point, st.points)
    case EdgeObject(e) =>
      && Resolves(e.curve, st.curves)
      && (e.vertices.Some? ==>
            Resolves(e.vertices.value.v0, st.vertices) && Resolves(e.vertices.value.v1, st.vertices))
  }

  /** Referential integrity: every stored vertex and edge refers only to stored objects. */
  predicate Valid(st: Stores)
  {
    && (forall i :: 0 <= i < |st.vertices| ==> RefsResolve(st, VertexObject(st.vertices[i])))
    && (forall i :: 0 <= i < |st.edges| ==> RefsResolve(st, EdgeObject(st.edges[i])))
  }

  /** No object is stored in two slots. */
  predicate Unique<T(==)>(s: seq<T>)
  {
    forall i, j :: 0 <= i < j < |s| ==> s[i] != s[j]
  }

  /** `st2` keeps every slot of `st` and may have more. */
  predicate Extends(st2: Stores, st: Stores)
  {
    && st.points <= st2.points
    && st.curves <= st2.curves
    && st.vertices <= st2.vertices
    && st.edges <= st2.edges
  }

  /** Validation: the structural check first, then the geometric one. */
  function Validate(st: Stores, o: Object, geometric: Object -> bool): (r: Option<ValidationError>)
    ensures r == Some(Structural) <==> !RefsResolve(st, o)
    ensures r == Some(Geometric) <==> RefsResolve(st, o) && !geometric(o)
    ensures r == None <==> RefsResolve(st, o) && geometric(o)
  {
    if !RefsResolve(st, o) then Some(Structural)
    else if !geometric(o) then Some(Geometric)
    else None
  }

  /** The first slot of `s` holding `x`, if any. */
  function Find<T(==)>(s: seq<T>, x: T): (r: Option<nat>)
    ensures r.Some? <==> x in s
    ensures r.Some? ==> r.value < |s| && s[r.value] == x && x !in s[..r.value]
  {
    if s == [] then None
    else if s[0] == x then Some(0)
    else
      match Find(s[1..], x)
      case None => None
      case Some(i) =>
        assert s[..i + 1] == [s[0]] + s[1..][..i];
        Some(i + 1)
  }

  /** In a sequence without repeats, the first slot holding `s[i]` is `i`. */
  lemma FindUnique<T>(s: seq<T>, i: nat)
    requires Unique(s) && i < |s|
    ensures Find(s, s[i]) == Some(i)
  {
  }

  /** An object not yet in `s`, appended, is found in the new last slot. */
  lemma FindAppended<T>(s: seq<T>, x: T)
    requires x !in s
    ensures Find(s + [x], x) == Some(|s|)
  {
  }

  /** `insert` of a point. */
  function InsertPointSpec(st: Stores, p: Point3, geometric: Object -> bool): (o: Outcome<PointHandle>)
    ensures o.result.Ok? <==> Validate(st, PointObject(p), geometric) == None
    ensures o.result.Err? ==> o.stores == st && Some(o.result.error) == Validate(st, PointObject(p), geometric)
    ensures o.result.Ok? ==>
              && o.stores == st.(points := st.points + [p])
              && o.result.value.obj == p && ResolvesPoint(o.result.value, o.stores.points)
    ensures Extends(o.stores, st)
  {
    match Validate(st, PointObject(p), geometric)
    case Some(e) => Outcome(st, Err(e))
    case None => Outcome(st.(points := st.points + [p]), Ok(PointHandle(|st.points|, p)))
  }

  /** `insert` of a curve. */
  function InsertCurveSpec(st: Stores, c: Curve, geometric: Object -> bool): (o: Outcome<Handle<Curve>>)
    ensures o.result.Ok? <==> Validate(st, CurveObject(c), geometric) == None
    ensures o.result.Err? ==> o.stores == st && Some(o.result.error) == Validate(st, CurveObject(c), geometric)
    ensures o.result.Ok? ==>
              && o.stores == st.(curves := st.curves + [c])
              && o.result.value.obj == c && Resolves(o.result.value, o.stores.curves)
    ensures Extends(o.stores, st)
  {
    match Validate(st, CurveObject(c), geometric)
    case Some(e) => Outcome(st, Err(e))
    case None => Outcome(st.(curves := st.curves + [c]), Ok(Handle(|st.curves|, c)))
  }

  /** `insert` of a vertex. */
  function InsertVertexSpec(st: Stores, v: Vertex, geometric: Object -> bool): (o: Outcome<Handle<Vertex>>)
    ensures o.result.Ok? <==> Validate(st, VertexObject(v), geometric) == None
    ensures o.result.Err? ==> o.stores == st && Some(o.result.error) == Validate(st, VertexObject(v), geometric)
    ensures o.result.Ok? ==>
              && o.stores == st.(vertices := st.vertices + [v])
              && o.result.value.obj == v && Resolves(o.result.value, o.stores.vertices)
    ensures Extends(o.stores, st)
  {
    match Validate(st, VertexObject(v), geometric)
    case Some(e) => Outcome(st, Err(e))
    case None => Outcome(st.(vertices := st.vertices + [v]), Ok(Handle(|st.vertices|, v)))
  }

  /** `insert` of an edge. */
  function InsertEdgeSpec(st: Stores, e: Edge, geometric: Object -> bool): (o: Outcome<Handle<Edge>>)
    ensures o.result.Ok? <==> Validate(st, EdgeObject(e), geometric) == None
    ensures o.result.Err? ==> o.stores == st && Some(o.result.error) == Validate(st, EdgeObject(e), geometric)
    ensures o.result.Ok? ==>
              && o.stores == st.(edges := st.edges + [e])
              && o.result.value.obj == e && Resolves(o.result.value, o.stores.edges)
    ensures Extends(o.stores, st)
  {
    match Validate(st, EdgeObject(e), geometric)
    case Some(err) => Outcome(st, Err(err))
    case None => Outcome(st.(edges := st.edges + [e]), Ok(Handle(|st.edges|, e)))
  }

  /** `get_handle_or_insert` of a point: the first equal stored point, else `insert`. */
  function GetHandleOrInsertPointSpec(st: Stores, p: Point3, geometric: Object -> bool): (o: Outcome<PointHandle>)
    ensures p in st.points ==>
              && o.stores == st && o.result.Ok?
              && o.result.value.obj == p && ResolvesPoint(o.result.value, st.points)
    ensures p !in st.points ==> o == InsertPointSpec(st, p, geometric)
  {
    match Find(st.points, p)
    case Some(i) => Outcome(st, Ok(PointHandle(i, p)))
    case None => InsertPointSpec(st, p, geometric)
  }

  /** `get_handle_or_insert` of a vertex: the first equal stored vertex, else `insert`. */
  function GetHandleOrInsertVertexSpec(st: Stores, v: Vertex, geometric: Object -> bool): (o: Outcome<Handle<Vertex>>)
    ensures v in st.vertices ==>
              && o.stores == st && o.result.Ok?
              && o.result.value.obj == v && Resolves(o.result.value, st.vertices)
    ensures v !in st.vertices ==> o == InsertVertexSpec(st, v, geometric)
  {
    match Find(st.vertices, v)
    case Some(i) => Outcome(st, Ok(Handle(i, v)))
    case None => InsertVertexSpec(st, v, geometric)
  }

  /** A successful `get_handle_or_insert` asked again returns the same handle and changes nothing. */
  lemma GetHandleOrInsertPointIdempotent(st: Stores, p: Point3, geometric: Object -> bool)
    requires GetHandleOrInsertPointSpec(st, p, geometric).result.Ok?
    ensures var o := GetHandleOrInsertPointSpec(st, p, geometric);
            GetHandleOrInsertPointSpec(o.stores, p, geometric) == o
  {
    if p !in st.points {
      FindAppended(st.points, p);
    }
  }

  /** The same for vertices. */
  lemma GetHandleOrInsertVertexIdempotent(st: Stores, v: Vertex, geometric: Object -> bool)
    requires GetHandleOrInsertVertexSpec(st, v, geometric).result.Ok?
    ensures var o := GetHandleOrInsertVertexSpec(st, v, geometric);
            GetHandleOrInsertVertexSpec(o.stores, v, geometric) == o
  {
    if v !in st.vertices {
      FindAppended(st.vertices, v);
    }
  }

  /** `get_handle_or_insert` never stores a duplicate. */
  lemma GetHandleOrInsertKeepsUnique(st: Stores, p: Point3, v: Vertex, geometric: Object -> bool)
    requires Unique(st.points) && Unique(st.vertices)
    ensures Unique(GetHandleOrInsertPointSpec(st, p, geometric).stores.points)
    ensures Unique(GetHandleOrInsertVertexSpec(st, v, geometric).stores.vertices)
  {
  }

  /** A store that only grows keeps every reference resolving. */
  lemma RefsResolveExtended(st: Stores, st2: Stores, o: Object)
    requires Extends(st2, st) && RefsResolve(st, o)
    ensures RefsResolve(st2, o)
  {
    match o
    case PointObject(_) =>
    case CurveObject(_) =>
    case VertexObject(v) =>
      assert st2.points[v.point.id] == st.points[v.point.id];
    case EdgeObject(e) =>
      assert st2.curves[e.curve.id] == st.curves[e.curve.id];
      if e.vertices.Some? {
        assert st2.vertices[e.vertices.value.v0.id] == st.vertices[e.vertices.value.v0.id];
        assert st2.vertices[e.vertices.value.v1.id] == st.vertices[e.vertices.value.v1.id];
      }
  }

  /** An extension whose new vertices and edges resolve keeps the store valid. */
  lemma ValidExtended(st: Stores, st2: Stores)
    requires Valid(st) && Extends(st2, st)
    requires forall i :: |st.vertices| <= i < |st2.vertices| ==> RefsResolve(st2, VertexObject(st2.vertices[i]))
    requires forall i :: |st.edges| <= i < |st2.edges| ==> RefsResolve(st2, EdgeObject(st2.edges[i]))
    ensures Valid(st2)
  {
    forall i | 0 <= i < |st.vertices|
      ensures RefsResolve(st2, VertexObject(st2.vertices[i]))
    {
      assert st2.vertices[i] == st.vertices[i];
      RefsResolveExtended(st, st2, VertexObject(st.vertices[i]));
    }
    forall i | 0 <= i < |st.edges|
      ensures RefsResolve(st2, EdgeObject(st2.edges[i]))
    {
      assert st2.edges[i] == st.edges[i];
      RefsResolveExtended(st, st2, EdgeObject(st.edges[i]));
    }
  }

  /** Every store operation keeps referential integrity. */
  lemma OperationsKeepValid(st: Stores, p: Point3, c: Curve, v: Vertex, e: Edge, geometric: Object -> bool)
    requires Valid(st)
    ensures Valid(InsertPointSpec(st, p, geometric).stores)
    ensures Valid(InsertCurveSpec(st, c, geometric).stores)
    ensures Valid(InsertVertexSpec(st, v, geometric).stores)
    ensures Valid(InsertEdgeSpec(st, e, geometric).stores)
    ensures Valid(GetHandleOrInsertPointSpec(st, p, geometric).stores)
    ensures Valid(GetHandleOrInsertVertexSpec(st, v, geometric).stores)
  {
    ValidExtended(st, InsertPointSpec(st, p, geometric).stores);
    ValidExtended(st, InsertCurveSpec(st, c, geometric).stores);
    var ov := InsertVertexSpec(st, v, geometric);
    if ov.result.Ok? {
      RefsResolveExtended(st, ov.stores, VertexObject(v));
    }
    ValidExtended(st, ov.stores);
    var oe := InsertEdgeSpec(st, e, geometric);
    if oe.result.Ok? {
      RefsResolveExtended(st, oe.stores, EdgeObject(e));
    }
    ValidExtended(st, oe.stores);
  }

  /** `fj_kernel::shape::Shape`, as far as the builders use it. */
  class Shape {
    var stores: Stores
    const geometric: Object -> bool

    /** An empty store, judging geometry with `geometric`. */
    constructor (geometric: Object -> bool)
      ensures stores == Empty && this.geometric == geometric
    {
      stores := Empty;
      this.geometric := geometric;
    }

    /** `Shape::insert` for a curve. */
    method InsertCurve(c: Curve) returns (r: Result<Handle<Curve>, ValidationError>)
      modifies this
      ensures Outcome(stores, r) == InsertCurveSpec(old(stores), c, geometric)
    {
      var v := Validate(stores, CurveObject(c), geometric);
      if v.Some? {
        return Err(v.value);
      }
      r := Ok(Handle(|stores.curves|, c));
      stores := stores.(curves := stores.curves + [c]);
    }

    /** `Shape::insert` for an edge. */
    method InsertEdge(e: Edge) returns (r: Result<Handle<Edge>, ValidationError>)
      modifies this
      ensures Outcome(stores, r) == InsertEdgeSpec(old(stores), e, geometric)
    {
      var v := Validate(stores, EdgeObject(e), geometric);
      if v.Some? {
        return Err(v.value);
      }
      r := Ok(Handle(|stores.edges|, e));
      stores := stores.(edges := stores.edges + [e]);
    }

    /** `Shape::get_handle_or_insert` for a point. */
    method GetHandleOrInsertPoint(p: Point3) returns (r: Result<PointHandle, ValidationError>)
      modifies this
      ensures Outcome(stores, r) == GetHandleOrInsertPointSpec(old(stores), p, geometric)
    {
      var found := Find(stores.points, p);
      if found.Some? {
        return Ok(PointHandle(found.value, p));
      }
      var v := Validate(stores, PointObject(p), geometric);
      if v.Some? {
        return Err(v.value);
      }
      r := Ok(PointHandle(|stores.points|, p));
      stores := stores.(points := stores.points + [p]);
    }

    /** `Shape::get_handle_or_insert` for a vertex. */
    method GetHandleOrInsertVertex(vertex: Vertex) returns (r: Result<Handle<Vertex>, ValidationError>)
      modifies this
      ensures Outcome(stores, r) == GetHandleOrInsertVertexSpec(old(stores), vertex, geometric)
    {
      var found := Find(stores.vertices, vertex);
      if found.Some? {
        return Ok(Handle(found.value, vertex));
      }
      var v := Validate(stores, VertexObject(vertex), geometric);
      if v.Some? {
        return Err(v.value);
      }
      r := Ok(Handle(|stores.vertices|, vertex));
      stores := stores.(vertices := stores.vertices + [vertex]);
    }
  }
}
