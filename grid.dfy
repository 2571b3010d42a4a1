/**
  The isosurface grid: a map from integer grid indices to sampled distance
  values, and the grid edges between neighbouring samples. The `BTreeMap`
  that holds the values is modelled as `ValueMap`: its keys in ascending
  order, which is the order in which a `BTreeMap` is iterated, and the map
  from key to value. Values (`f32`) are modelled as reals.
 */
module Grid {
  import opened Wrappers
  import opened Geometry

  /** `GridIndex`: three unsigned grid coordinates. */
  datatype GridIndex = GridIndex(x: nat, y: nat, z: nat)

  /**
    The order of `GridIndex` keys in the `BTreeMap`: lexicographic on x,
    then y, then z. `GridIndex`'s `Ord` is not among the modelled files;
    this is an assumed definition, the one the tests' edge order fits.
   */
  predicate IndexLess(i: GridIndex, j: GridIndex): (r: bool)
    ensures i.x < j.x ==> r
    ensures r ==> i.x <= j.x && i != j
  {
    i.x < j.x || (i.x == j.x && (i.y < j.y || (i.y == j.y && i.z < j.z)))
  }

  datatype Value = Value(index: GridIndex, value: real)

  /** A grid edge from sample `a` to sample `b`. */
  datatype Edge = Edge(a: Value, b: Value)

  datatype Axis = X | Y | Z
  datatype Sign = Neg | Pos
  datatype Direction = Direction(axis: Axis, sign: Sign)

  /** The neighbour one step further along `axis`. */
  function Next(i: GridIndex, axis: Axis): GridIndex
  {
    match axis
    case X => GridIndex(i.x + 1, i.y, i.z)
    case Y => GridIndex(i.x, i.y + 1, i.z)
    case Z => GridIndex(i.x, i.y, i.z + 1)
  }

  /** `j` is the neighbour of `i` one step along some axis. */
  predicate IsStep(i: GridIndex, j: GridIndex)
  {
    j == Next(i, Z) || j == Next(i, Y) || j == Next(i, X)
  }

  /** The axis of a step, as `edges` emits them. */
  function StepAxis(i: GridIndex, j: GridIndex): Axis
  {
    if j == Next(i, Z) then Z else if j == Next(i, Y) then Y else X
  }

  /** The position of an axis in the order z, y, x in which `edges` emits them. */
  function Rank(axis: Axis): nat
  {
    match axis
    case Z => 0
    case Y => 1
    case X => 2
  }

  /** A step is along exactly one axis. */
  lemma StepHasOneAxis(i: GridIndex, a1: Axis, a2: Axis)
    ensures Next(i, a1) == Next(i, a2) <==> a1 == a2
    ensures StepAxis(i, Next(i, a1)) == a1
  {
  }

  /** The key order is a strict total order. */
  lemma IndexLessIsStrictTotalOrder(i: GridIndex, j: GridIndex, k: GridIndex)
    ensures !IndexLess(i, i)
    ensures IndexLess(i, j) ==> !IndexLess(j, i)
    ensures IndexLess(i, j) && IndexLess(j, k) ==> IndexLess(i, k)
    ensures i != j ==> IndexLess(i, j) || IndexLess(j, i)
  {
  }

  predicate Sorted(keys: seq<GridIndex>)
  {
    forall p, q :: 0 <= p < q < |keys| ==> IndexLess(keys[p], keys[q])
  }

  /** `BTreeMap<GridIndex, f32>`. */
  datatype ValueMap = ValueMap(keys: seq<GridIndex>, values: map<GridIndex, real>)

  /** The keys are listed once each, in ascending order, and are those of the map. */
  ghost predicate ValidMap(m: ValueMap)
  {
    && Sorted(m.keys)
    && (forall k :: k in m.values <==> k in m.keys)
  }

  const EmptyMap: ValueMap := ValueMap([], map[])

  /** Puts `k` at its place in an ascending key list that lacks it. */
  function InsertKey(keys: seq<GridIndex>, k: GridIndex): (r: seq<GridIndex>)
    requires Sorted(keys) && k !in keys
    ensures Sorted(r)
    ensures forall j :: j in r <==> j in keys || j == k
  {
    if keys == [] then [k]
    else if IndexLess(k, keys[0]) then
      assert forall q :: 0 < q < |keys| ==> IndexLess(keys[0], keys[q]);
      [k] + keys
    else
      var rest := InsertKey(keys[1..], k);
      assert forall j :: j in rest ==> IndexLess(keys[0], j) by {
        forall j | j in rest ensures IndexLess(keys[0], j) {
          if j != k {
            var q :| 1 <= q < |keys| && keys[q] == j;
          }
        }
      }
      [keys[0]] + rest
  }

  /** `BTreeMap::insert`: replaces the value of a present key, adds an absent one. */
  function Insert(m: ValueMap, k: GridIndex, v: real): (r: ValueMap)
    requires ValidMap(m)
    ensures ValidMap(r)
    ensures r.values == m.values[k := v]
  {
    if k in m.values then m.(values := m.values[k := v])
    else ValueMap(InsertKey(m.keys, k), m.values[k := v])
  }

  /** `GridDescriptor`: the sampled box and the distance between samples. */
  datatype GridDescriptor = GridDescriptor(min: Point3, max: Point3, resolution: real)

  /** One item of `GridDescriptor::points`: an index and the point it stands for. */
  datatype GridPoint = GridPoint(index: GridIndex, point: Point3)

  datatype Grid = Grid(descriptor: GridDescriptor, values: ValueMap)

  /** The grid point at `j` is the last one in `points` with its index. */
  predicate IsLastWithIndex(points: seq<GridPoint>, j: nat)
    requires j < |points|
  {
    forall l :: j < l < |points| ==> points[l].index != points[j].index
  }

  /** For each index in `points`, `values` holds the distance at the last point with that index. */
  ghost predicate HoldsLastSamples(points: seq<GridPoint>, values: map<GridIndex, real>, distance: Point3 -> real)
  {
    forall j :: 0 <= j < |points| && IsLastWithIndex(points, j) ==>
      points[j].index in values && values[points[j].index] == distance(points[j].point)
  }

  /**
    The value map `from_descriptor` builds: the points inserted one after
    the other, each with the distance at its point.
   */
  function Samples(points: seq<GridPoint>, distance: Point3 -> real): (m: ValueMap)
    ensures ValidMap(m)
  {
    if points == [] then EmptyMap
    else
      var n := |points| - 1;
      Insert(Samples(points[..n], distance), points[n].index, distance(points[n].point))
  }

  /**
    `Grid::from_descriptor`: samples `distance` at every point the descriptor
    yields (`points`, in the order `GridDescriptor::points` yields them) and
    stores the value under the point's index; for an index yielded twice the
    later value replaces the earlier.
   */
  method FromDescriptor(descriptor: GridDescriptor, points: seq<GridPoint>, distance: Point3 -> real)
    returns (grid: Grid)
    ensures grid.descriptor == descriptor && grid.values == Samples(points, distance)
  {
    var values := EmptyMap;
    var i := 0;
    while i < |points|
      invariant 0 <= i <= |points|
      invariant values == Samples(points[..i], distance)
    {
      var value := distance(points[i].point);
      assert points[..i + 1][..i] == points[..i];
      values := Insert(values, points[i].index, value);
      i := i + 1;
    }
    assert points[..|points|] == points;
    grid := Grid(descriptor, values);
  }

  /**
    What `from_descriptor` stores: exactly the indices of `points`, each with
    the distance at the last point that has it.
   */
  lemma SamplesKeysAndValues(points: seq<GridPoint>, distance: Point3 -> real)
    ensures forall k :: k in Samples(points, distance).values <==> exists j :: 0 <= j < |points| && points[j].index == k
    ensures HoldsLastSamples(points, Samples(points, distance).values, distance)
  {
    SamplesUpTo(points, |points|, distance);
    assert points[..|points|] == points;
    SampledAll(points, Samples(points, distance), distance);
  }

  /** When the descriptor yields every index once, each index holds the distance at its own point. */
  lemma FromDescriptorDistinct(points: seq<GridPoint>, distance: Point3 -> real)
    requires forall p, q :: 0 <= p < q < |points| ==> points[p].index != points[q].index
    ensures forall j :: 0 <= j < |points| ==>
              points[j].index in Samples(points, distance).values
              && Samples(points, distance).values[points[j].index] == distance(points[j].point)
  {
    SamplesKeysAndValues(points, distance);
    forall j | 0 <= j < |points| ensures IsLastWithIndex(points, j) { }
  }

  lemma {:induction false} SamplesUpTo(points: seq<GridPoint>, i: nat, distance: Point3 -> real)
    requires i <= |points|
    ensures SampledUpTo(points, i, Samples(points[..i], distance), distance)
    decreases i
  {
    if i == 0 {
      assert points[..0] == [];
      SampledNone(points, distance);
    } else {
      SamplesUpTo(points, i - 1, distance);
      assert points[..i][..i - 1] == points[..i - 1];
      SampledStep(points, i - 1, Samples(points[..i - 1], distance), distance);
    }
  }

  /**
    What `values` holds after the first `i` points: their indices, each with
    the distance at the last of them with that index.
   */
  ghost predicate SampledUpTo(points: seq<GridPoint>, i: nat, values: ValueMap, distance: Point3 -> real)
    requires i <= |points|
  {
    && ValidMap(values)
    && (forall k :: k in values.values <==> exists j :: 0 <= j < i && points[j].index == k)
    && (forall j :: 0 <= j < i && LastBefore(points, j, i) ==>
          points[j].index in values.values && values.values[points[j].index] == distance(points[j].point))
  }

  /** No point after the `j`-th and before the `i`-th has the `j`-th one's index. */
  ghost predicate LastBefore(points: seq<GridPoint>, j: nat, i: nat)
    requires j < i <= |points|
  {
    forall l :: j < l < i ==> points[l].index != points[j].index
  }

  lemma SampledNone(points: seq<GridPoint>, distance: Point3 -> real)
    ensures SampledUpTo(points, 0, EmptyMap, distance)
  {
  }

  lemma SampledAll(points: seq<GridPoint>, values: ValueMap, distance: Point3 -> real)
    requires SampledUpTo(points, |points|, values, distance)
    ensures ValidMap(values)
    ensures forall k :: k in values.values <==> exists j :: 0 <= j < |points| && points[j].index == k
    ensures HoldsLastSamples(points, values.values, distance)
  {
    forall j | 0 <= j < |points| && IsLastWithIndex(points, j)
      ensures points[j].index in values.values && values.values[points[j].index] == distance(points[j].point)
    {
      assert LastBefore(points, j, |points|);
    }
  }

  lemma SampledStep(points: seq<GridPoint>, i: nat, values: ValueMap, distance: Point3 -> real)
    requires i < |points| && SampledUpTo(points, i, values, distance)
    ensures SampledUpTo(points, i + 1, Insert(values, points[i].index, distance(points[i].point)), distance)
  {
    var next := Insert(values, points[i].index, distance(points[i].point));
    SampledKeysStep(points, i, values.values, next.values);
    SampledValuesStep(points, i, values.values, next.values, distance);
  }

  lemma SampledKeysStep(points: seq<GridPoint>, i: nat, before: map<GridIndex, real>, after: map<GridIndex, real>)
    requires i < |points|
    requires after.Keys == before.Keys + {points[i].index}
    requires forall k :: k in before <==> exists j :: 0 <= j < i && points[j].index == k
    ensures forall k :: k in after <==> exists j :: 0 <= j < i + 1 && points[j].index == k
  {
    forall k ensures k in after <==> exists j :: 0 <= j < i + 1 && points[j].index == k {
      if k == points[i].index {
        assert points[i].index == k;
      }
    }
  }

  lemma SampledValuesStep(points: seq<GridPoint>, i: nat, before: map<GridIndex, real>, after: map<GridIndex, real>,
                          distance: Point3 -> real)
    requires i < |points|
    requires after == before[points[i].index := distance(points[i].point)]
    requires forall j :: 0 <= j < i && LastBefore(points, j, i) ==>
               points[j].index in before && before[points[j].index] == distance(points[j].point)
    ensures forall j :: 0 <= j < i + 1 && LastBefore(points, j, i + 1) ==>
              points[j].index in after && after[points[j].index] == distance(points[j].point)
  {
    forall j | 0 <= j < i + 1 && LastBefore(points, j, i + 1)
      ensures points[j].index in after && after[points[j].index] == distance(points[j].point)
    {
      if j < i {
        assert points[i].index != points[j].index;
        assert LastBefore(points, j, i);
      }
    }
  }

  /** `edge_to_next`: the edge to `next` when `values` holds a value for it. */
  function EdgeToNext(index: GridIndex, value: real, next: GridIndex, values: map<GridIndex, real>): (r: Option<Edge>)
    ensures r.Some? <==> next in values
  {
    if next in values then Some(Edge(Value(index, value), Value(next, values[next]))) else None
  }

  function Somes(es: seq<Option<Edge>>): (r: seq<Edge>)
    ensures forall e :: e in r <==> Some(e) in es
    ensures |r| <= |es|
  {
    if es == [] then []
    else (if es[0].Some? then [es[0].value] else []) + Somes(es[1..])
  }

  /** The edges `edges` emits for one key: towards +z, +y and +x, those present. */
  function EdgesAt(index: GridIndex, value: real, values: map<GridIndex, real>): (r: seq<Edge>)
    ensures |r| <= 3
    ensures forall e :: e in r ==> e.a == Value(index, value)
  {
    Somes([
      EdgeToNext(index, value, Next(index, Z), values),
      EdgeToNext(index, value, Next(index, Y), values),
      EdgeToNext(index, value, Next(index, X), values)
    ])
  }

  /** `Grid::edges` over the keys `keys`, taken in order. */
  function EdgesFrom(keys: seq<GridIndex>, values: map<GridIndex, real>): (r: seq<Edge>)
    requires forall k :: k in keys ==> k in values
    ensures |r| <= 3 * |keys|
    ensures forall e :: e in r ==> e.a.index in keys && e.a.value == values[e.a.index]
  {
    if keys == [] then []
    else EdgesAt(keys[0], values[keys[0]], values) + EdgesFrom(keys[1..], values)
  }

  /** `Grid::edges`: every key, in ascending order, with its edges in z, y, x order. */
  function Edges(grid: Grid): (r: seq<Edge>)
    requires ValidMap(grid.values)
    ensures |r| <= 3 * |grid.values.keys|
    ensures forall e :: e in r ==> e.a.index in grid.values.values && e.a.value == grid.values.values[e.a.index]
  {
    EdgesFrom(grid.values.keys, grid.values.values)
  }

  /** The edge joins two samples of `values`, one step apart, carrying their stored values. */
  predicate IsGridEdge(e: Edge, values: map<GridIndex, real>)
  {
    && e.a.index in values && e.b.index in values
    && IsStep(e.a.index, e.b.index)
    && e.a.value == values[e.a.index] && e.b.value == values[e.b.index]
  }

  lemma {:induction false} EdgesFromMembership(keys: seq<GridIndex>, values: map<GridIndex, real>, e: Edge)
    requires forall k :: k in keys ==> k in values
    ensures e in EdgesFrom(keys, values) <==> e.a.index in keys && IsGridEdge(e, values)
  {
    if keys != [] {
      EdgesFromMembership(keys[1..], values, e);
      var k := keys[0];
      var at := [
        EdgeToNext(k, values[k], Next(k, Z), values),
        EdgeToNext(k, values[k], Next(k, Y), values),
        EdgeToNext(k, values[k], Next(k, X), values)
      ];
      assert e in EdgesAt(k, values[k], values) <==> Some(e) in at;
      assert keys == [k] + keys[1..];
    }
  }

  /**
    An edge is emitted exactly when both its endpoints are keys of the map,
    one step apart along an axis, and it carries both stored values.
   */
  lemma EdgesMembership(grid: Grid, e: Edge)
    requires ValidMap(grid.values)
    ensures e in Edges(grid) <==> IsGridEdge(e, grid.values.values)
  {
    EdgesFromMembership(grid.values.keys, grid.values.values, e);
  }

  /** `e` comes before `f` in the order of `edges`: by start index, then z, y, x. */
  predicate EmittedBefore(e: Edge, f: Edge)
  {
    || IndexLess(e.a.index, f.a.index)
    || (e.a.index == f.a.index
        && Rank(StepAxis(e.a.index, e.b.index)) < Rank(StepAxis(f.a.index, f.b.index)))
  }

  lemma EdgesAtOrdered(index: GridIndex, value: real, values: map<GridIndex, real>)
    ensures InEmittedOrder(EdgesAt(index, value, values))
  {
    var z := EdgeToNext(index, value, Next(index, Z), values);
    var y := EdgeToNext(index, value, Next(index, Y), values);
    var x := EdgeToNext(index, value, Next(index, X), values);
    assert Somes([x]) == Present(x) + Somes([]);
    assert Somes([y, x]) == Present(y) + Somes([x]);
    assert Somes([z, y, x]) == Present(z) + Somes([y, x]);
    assert EdgesAt(index, value, values) == (Present(z) + Present(y)) + Present(x);
    PresentOrdered(index, value, values, Z, Y);
    PresentOrdered(index, value, values, Z, X);
    PresentOrdered(index, value, values, Y, X);
    InEmittedOrderConcat(Present(z), Present(y));
    AllBeforeConcat(Present(z), Present(y), Present(x));
    InEmittedOrderConcat(Present(z) + Present(y), Present(x));
  }

  /** The edge an option holds, if any. */
  function Present(o: Option<Edge>): (r: seq<Edge>)
    ensures |r| <= 1 && (o.Some? ==> r == [o.value])
  {
    if o.Some? then [o.value] else []
  }

  /** Towards an axis of lower rank, the edge from a key comes first. */
  lemma PresentOrdered(index: GridIndex, value: real, values: map<GridIndex, real>, a1: Axis, a2: Axis)
    requires Rank(a1) < Rank(a2)
    ensures AllBefore(Present(EdgeToNext(index, value, Next(index, a1), values)),
                      Present(EdgeToNext(index, value, Next(index, a2), values)))
  {
    StepHasOneAxis(index, a1, a1);
    StepHasOneAxis(index, a2, a2);
  }

  lemma AllBeforeConcat(s: seq<Edge>, t: seq<Edge>, u: seq<Edge>)
    requires AllBefore(s, u) && AllBefore(t, u)
    ensures AllBefore(s + t, u)
  {
    forall p, q | 0 <= p < |s + t| && 0 <= q < |u| ensures EmittedBefore((s + t)[p], u[q]) {
      if p >= |s| {
        assert (s + t)[p] == t[p - |s|];
      }
    }
  }

  /** The first key's edges come before those of the later keys. */
  lemma HeadBeforeTail(keys: seq<GridIndex>, values: map<GridIndex, real>)
    requires forall k :: k in keys ==> k in values
    requires Sorted(keys) && keys != []
    ensures AllBefore(EdgesAt(keys[0], values[keys[0]], values), EdgesFrom(keys[1..], values))
  {
    var head := EdgesAt(keys[0], values[keys[0]], values);
    var tail := EdgesFrom(keys[1..], values);
    forall p, q | 0 <= p < |head| && 0 <= q < |tail|
      ensures EmittedBefore(head[p], tail[q])
    {
      assert head[p] in head && tail[q] in tail;
      var j :| 1 <= j < |keys| && keys[j] == tail[q].a.index;
    }
  }

  lemma {:induction false} EdgesFromOrdered(keys: seq<GridIndex>, values: map<GridIndex, real>)
    requires forall k :: k in keys ==> k in values
    requires Sorted(keys)
    ensures InEmittedOrder(EdgesFrom(keys, values))
  {
    if keys != [] {
      var k := keys[0];
      var head := EdgesAt(k, values[k], values);
      var tail := EdgesFrom(keys[1..], values);
      EdgesAtOrdered(k, values[k], values);
      EdgesFromOrdered(keys[1..], values);
      HeadBeforeTail(keys, values);
      assert EdgesFrom(keys, values) == head + tail;
      InEmittedOrderConcat(head, tail);
    }
  }

  /** The edges of `es` come in the order `edges` emits them. */
  predicate InEmittedOrder(es: seq<Edge>)
  {
    forall p, q :: 0 <= p < q < |es| ==> EmittedBefore(es[p], es[q])
  }

  /** Every edge of `head` comes before every edge of `tail`. */
  predicate AllBefore(head: seq<Edge>, tail: seq<Edge>)
  {
    forall p, q :: 0 <= p < |head| && 0 <= q < |tail| ==> EmittedBefore(head[p], tail[q])
  }

  lemma InEmittedOrderConcat(head: seq<Edge>, tail: seq<Edge>)
    requires InEmittedOrder(head) && InEmittedOrder(tail)
    requires AllBefore(head, tail)
    ensures InEmittedOrder(head + tail)
  {
    var es := head + tail;
    forall p, q | 0 <= p < q < |es|
      ensures EmittedBefore(es[p], es[q])
    {
      if q < |head| {
        assert es[p] == head[p] && es[q] == head[q];
      } else if p >= |head| {
        assert es[p] == tail[p - |head|] && es[q] == tail[q - |head|];
      } else {
        assert es[p] == head[p] && es[q] == tail[q - |head|];
      }
    }
  }

  /** `edges` lists edges by ascending start index, and from one start in z, y, x order. */
  lemma EdgesOrdered(grid: Grid)
    requires ValidMap(grid.values)
    ensures var es := Edges(grid);
            forall p, q :: 0 <= p < q < |es| ==> EmittedBefore(es[p], es[q])
  {
    EdgesFromOrdered(grid.values.keys, grid.values.values);
    assert Edges(grid) == EdgesFrom(grid.values.keys, grid.values.values);
  }

  function IndexPairs(es: seq<Edge>): (r: seq<(GridIndex, GridIndex)>)
    ensures |r| == |es|
    ensures forall p :: 0 <= p < |es| ==> r[p] == (es[p].a.index, es[p].b.index)
  {
    if es == [] then [] else [(es[0].a.index, es[0].b.index)] + IndexPairs(es[1..])
  }

  lemma IndexPairsAppend(es: seq<Edge>, fs: seq<Edge>)
    ensures IndexPairs(es + fs) == IndexPairs(es) + IndexPairs(fs)
  {
    assert forall p :: 0 <= p < |es + fs| ==> IndexPairs(es + fs)[p] == (IndexPairs(es) + IndexPairs(fs))[p];
  }

  /**
    `Edge::reverse`, which the modelled files call but do not define; assumed
    to be the same edge with its endpoints swapped.
   */
  function ReverseEdge(e: Edge): (r: Edge)
    ensures r.a == e.b && r.b == e.a
  {
    Edge(e.b, e.a)
  }

  /** Reversing an edge twice gives back the edge. */
  lemma ReverseEdgeInvolutive(e: Edge)
    ensures ReverseEdge(ReverseEdge(e)) == e
  {
  }

  /**
    An assumed definition of `Edge::direction`, which the modelled files call
    but do not define: an axis along which the two indices differ (x, then y,
    then z is the choice made here), with `Pos` when `b` lies beyond `a` on it.
    For equal indices it is `None`; what the real method does then is not
    known to this model.
   */
  function DirectionOf(e: Edge): (d: Option<Direction>)
    ensures d.Some? <==> e.a.index != e.b.index
    ensures d.Some? ==> Coord(e.a.index, d.value.axis) != Coord(e.b.index, d.value.axis)
    ensures d.Some? ==> (d.value.sign == Pos <==> Coord(e.a.index, d.value.axis) < Coord(e.b.index, d.value.axis))
  {
    var a, b := e.a.index, e.b.index;
    if b.x > a.x then Some(Direction(X, Pos))
    else if b.x < a.x then Some(Direction(X, Neg))
    else if b.y > a.y then Some(Direction(Y, Pos))
    else if b.y < a.y then Some(Direction(Y, Neg))
    else if b.z > a.z then Some(Direction(Z, Pos))
    else if b.z < a.z then Some(Direction(Z, Neg))
    else None
  }

  function Coord(i: GridIndex, axis: Axis): nat
  {
    match axis
    case X => i.x
    case Y => i.y
    case Z => i.z
  }

  /** The endpoint `neighbors_of_edge` starts from: `b` for a negative direction, `a` otherwise. */
  function StartOf(e: Edge, d: Direction): (v: Value)
    ensures d.sign == Neg ==> v == e.b
    ensures d.sign == Pos ==> v == e.a
  {
    match d.sign
    case Neg => e.b
    case Pos => e.a
  }

  /** The start is always the endpoint lower along the edge's axis. */
  lemma StartIsLowerEnd(e: Edge)
    requires DirectionOf(e).Some?
    ensures var d := DirectionOf(e).value;
            var other := if StartOf(e, d) == e.a then e.b else e.a;
            Coord(StartOf(e, d).index, d.axis) < Coord(other.index, d.axis)
  {
  }

  /** Reversing an edge keeps its axis and flips its sign. */
  lemma ReverseFlipsDirection(e: Edge)
    requires DirectionOf(e).Some?
    ensures DirectionOf(ReverseEdge(e)).Some?
    ensures DirectionOf(ReverseEdge(e)).value.axis == DirectionOf(e).value.axis
    ensures DirectionOf(ReverseEdge(e)).value.sign != DirectionOf(e).value.sign
  {
  }

  /** Every edge `edges` emits points in the positive direction of its step's axis. */
  lemma EmittedEdgesPointForward(grid: Grid, e: Edge)
    requires ValidMap(grid.values)
    requires e in Edges(grid)
    ensures DirectionOf(e) == Some(Direction(StepAxis(e.a.index, e.b.index), Pos))
  {
    EdgesMembership(grid, e);
  }

  /** The offsets from the start to the four cube centres around an edge along `axis`. */
  function CentreOffsets(axis: Axis, o: real): (r: seq<Vector3>)
    ensures |r| == 4
    ensures forall k :: 0 <= k < 4 ==> Along(r[k], axis) == o
    ensures forall k, other :: 0 <= k < 4 && other != axis ==> Along(r[k], other) == o || Along(r[k], other) == -o
    ensures o != 0.0 ==> forall k, l :: 0 <= k < l < 4 ==> r[k] != r[l]
  {
    match axis
    case Z => [Vector3(-o, -o, o), Vector3(o, -o, o), Vector3(o, o, o), Vector3(-o, o, o)]
    case Y => [Vector3(-o, o, -o), Vector3(o, o, -o), Vector3(o, o, o), Vector3(-o, o, o)]
    case X => [Vector3(o, -o, -o), Vector3(o, o, -o), Vector3(o, o, o), Vector3(o, -o, o)]
  }

  /** The component of `w` along `axis`. */
  function Along(w: Vector3, axis: Axis): real
  {
    match axis
    case X => w.x
    case Y => w.y
    case Z => w.z
  }

  function Translate3(p: Point3, w: Vector3): Point3
  {
    Point3(p.x + w.x, p.y + w.y, p.z + w.z)
  }

  /**
    `Grid::neighbors_of_edge`: the four cube centres around an edge, found
    from the coordinates of its start (given by `toCoordinates`, standing for
    `GridIndex::to_coordinates`) offset by half the resolution. `None` where
    the assumed `DirectionOf` has no direction (equal indices).
   */
  function NeighborsOfEdge(grid: Grid, e: Edge, toCoordinates: (GridIndex, Point3, real) -> Point3): (r: Option<seq<Point3>>)
    ensures r.Some? <==> DirectionOf(e).Some?
    ensures r.Some? ==> |r.value| == 4
  {
    match DirectionOf(e)
    case None => None
    case Some(d) =>
      var o := grid.descriptor.resolution / 2.0;
      var offsets := CentreOffsets(d.axis, o);
      var start := toCoordinates(StartOf(e, d).index, grid.descriptor.min, grid.descriptor.resolution);
      Some([Translate3(start, offsets[0]), Translate3(start, offsets[1]),
            Translate3(start, offsets[2]), Translate3(start, offsets[3])])
  }

  /** An edge and its reverse have the same neighbours. */
  lemma ReverseSameNeighbors(grid: Grid, e: Edge, toCoordinates: (GridIndex, Point3, real) -> Point3)
    ensures NeighborsOfEdge(grid, ReverseEdge(e), toCoordinates) == NeighborsOfEdge(grid, e, toCoordinates)
  {
    if DirectionOf(e).Some? {
      ReverseFlipsDirection(e);
      var d, d' := DirectionOf(e).value, DirectionOf(ReverseEdge(e)).value;
      assert StartOf(ReverseEdge(e), d') == StartOf(e, d);
    }
  }

  /**
    The test `neighbors_of_edge_should_return_neighboring_grid_centers`: on
    the unit grid, where index (1, 1, 1) stands for the point
    (0.5, 0.5, 0.5), the edges from (1, 1, 1) along x, y and z, and their
    reverses, have the expected neighbouring centres.
   */
  lemma NeighborsExample(grid: Grid, toCoordinates: (GridIndex, Point3, real) -> Point3)
    requires grid.descriptor == GridDescriptor(Point3(0.0, 0.0, 0.0), Point3(1.0, 1.0, 1.0), 1.0)
    requires toCoordinates(GridIndex(1, 1, 1), Point3(0.0, 0.0, 0.0), 1.0) == Point3(0.5, 0.5, 0.5)
    ensures var ex := Edge(Value(GridIndex(1, 1, 1), 1.0), Value(GridIndex(2, 1, 1), 0.0));
            var xs := [Point3(1.0, 0.0, 0.0), Point3(1.0, 1.0, 0.0), Point3(1.0, 1.0, 1.0), Point3(1.0, 0.0, 1.0)];
            NeighborsOfEdge(grid, ex, toCoordinates) == Some(xs)
            && NeighborsOfEdge(grid, ReverseEdge(ex), toCoordinates) == Some(xs)
    ensures var ey := Edge(Value(GridIndex(1, 1, 1), 0.0), Value(GridIndex(1, 2, 1), 1.0));
            var ys := [Point3(0.0, 1.0, 0.0), Point3(1.0, 1.0, 0.0), Point3(1.0, 1.0, 1.0), Point3(0.0, 1.0, 1.0)];
            NeighborsOfEdge(grid, ey, toCoordinates) == Some(ys)
            && NeighborsOfEdge(grid, ReverseEdge(ey), toCoordinates) == Some(ys)
    ensures var ez := Edge(Value(GridIndex(1, 1, 1), 0.0), Value(GridIndex(1, 1, 2), 1.0));
            var zs := [Point3(0.0, 0.0, 1.0), Point3(1.0, 0.0, 1.0), Point3(1.0, 1.0, 1.0), Point3(0.0, 1.0, 1.0)];
            NeighborsOfEdge(grid, ez, toCoordinates) == Some(zs)
            && NeighborsOfEdge(grid, ReverseEdge(ez), toCoordinates) == Some(zs)
  {
    var ex := Edge(Value(GridIndex(1, 1, 1), 1.0), Value(GridIndex(2, 1, 1), 0.0));
    var ey := Edge(Value(GridIndex(1, 1, 1), 0.0), Value(GridIndex(1, 2, 1), 1.0));
    var ez := Edge(Value(GridIndex(1, 1, 1), 0.0), Value(GridIndex(1, 1, 2), 1.0));
    ReverseSameNeighbors(grid, ex, toCoordinates);
    ReverseSameNeighbors(grid, ey, toCoordinates);
    ReverseSameNeighbors(grid, ez, toCoordinates);
  }

  /** Two ascending key lists with the same keys are the same list. */
  lemma {:induction false} SortedUnique(s: seq<GridIndex>, t: seq<GridIndex>)
    requires Sorted(s) && Sorted(t)
    requires forall k :: k in s <==> k in t
    ensures s == t
  {
    if s != [] {
      assert s[0] in t;
    }
    if t != [] {
      assert t[0] in s;
    }
    if s != [] {
      var p :| 0 <= p < |t| && t[p] == s[0];
      var q :| 0 <= q < |s| && s[q] == t[0];
      assert p == 0 || q == 0;
      forall k ensures k in s[1..] <==> k in t[1..] {
        if k in s[1..] {
          var p :| 1 <= p < |s| && s[p] == k;
          assert IndexLess(s[0], k) && k in s && k in t;
          var q :| 0 <= q < |t| && t[q] == k;
          assert q != 0;
          assert t[1..][q - 1] == k;
        }
        if k in t[1..] {
          var p :| 1 <= p < |t| && t[p] == k;
          assert IndexLess(t[0], k) && k in t && k in s;
          var q :| 0 <= q < |s| && s[q] == k;
          assert q != 0;
          assert s[1..][q - 1] == k;
        }
      }
      SortedUnique(s[1..], t[1..]);
      assert s == [s[0]] + s[1..] && t == [t[0]] + t[1..];
    }
  }

  predicate InCube(k: GridIndex)
  {
    k.x <= 2 && k.y <= 2 && k.z <= 2
  }

  /** The position of a cube key in ascending order. */
  function CubePos(k: GridIndex): nat
  {
    9 * k.x + 3 * k.y + k.z
  }

  /** The cube key after `k` in ascending order. */
  function CubeSucc(k: GridIndex): GridIndex
  {
    if k.z < 2 then GridIndex(k.x, k.y, k.z + 1)
    else if k.y < 2 then GridIndex(k.x, k.y + 1, 0)
    else GridIndex(k.x + 1, 0, 0)
  }

  /** The cube's keys from `k` on, in ascending order. */
  function CubeKeysFrom(k: GridIndex): seq<GridIndex>
    requires InCube(k)
    decreases 26 - CubePos(k)
  {
    if CubePos(k) >= 26 then [k] else [k] + CubeKeysFrom(CubeSucc(k))
  }

  lemma {:induction false} CubeKeysFromBounds(k: GridIndex)
    requires InCube(k)
    ensures forall j :: j in CubeKeysFrom(k) <==> InCube(j) && CubePos(j) >= CubePos(k)
    ensures Sorted(CubeKeysFrom(k))
    decreases 26 - CubePos(k)
  {
    if CubePos(k) < 26 {
      CubeKeysStep(k);
      CubeKeysFromBounds(CubeSucc(k));
      var rest := CubeKeysFrom(CubeSucc(k));
      forall j | j in rest ensures IndexLess(k, j) {
        CubePosOrder(k, j);
      }
      SortedCons(k, rest);
      forall j | InCube(j) && CubePos(j) == CubePos(k) ensures j == k {
        CubePosInjective(j, k);
      }
    }
  }

  /** Two cube keys at the same position are the same key. */
  lemma CubePosInjective(j: GridIndex, k: GridIndex)
    requires InCube(j) && InCube(k) && CubePos(j) == CubePos(k)
    ensures j == k
  {
  }

  /** Within the cube, a later position is a larger key. */
  lemma CubePosOrder(k: GridIndex, j: GridIndex)
    requires InCube(j) && InCube(k) && CubePos(k) < CubePos(j)
    ensures IndexLess(k, j)
  {
  }

  lemma SortedCons(k: GridIndex, rest: seq<GridIndex>)
    requires Sorted(rest) && forall j :: j in rest ==> IndexLess(k, j)
    ensures Sorted([k] + rest)
  {
    var s := [k] + rest;
    forall p, q | 0 <= p < q < |s| ensures IndexLess(s[p], s[q]) {
      assert s[q] == rest[q - 1];
      if p > 0 {
        assert s[p] == rest[p - 1];
      }
    }
  }

  /**
    The index pairs of the test `edges_should_return_edges`, grouped by
    start index: the group of the `i`-th cube key.
   */
  function CubeChunk(i: nat): seq<(GridIndex, GridIndex)>
  {
    match i
    case 0 => [(GridIndex(0, 0, 0), GridIndex(0, 0, 1)), (GridIndex(0, 0, 0), GridIndex(0, 1, 0)), (GridIndex(0, 0, 0), GridIndex(1, 0, 0))]
    case 1 => [(GridIndex(0, 0, 1), GridIndex(0, 0, 2)), (GridIndex(0, 0, 1), GridIndex(0, 1, 1)), (GridIndex(0, 0, 1), GridIndex(1, 0, 1))]
    case 2 => [(GridIndex(0, 0, 2), GridIndex(0, 1, 2)), (GridIndex(0, 0, 2), GridIndex(1, 0, 2))]
    case 3 => [(GridIndex(0, 1, 0), GridIndex(0, 1, 1)), (GridIndex(0, 1, 0), GridIndex(0, 2, 0)), (GridIndex(0, 1, 0), GridIndex(1, 1, 0))]
    case 4 => [(GridIndex(0, 1, 1), GridIndex(0, 1, 2)), (GridIndex(0, 1, 1), GridIndex(0, 2, 1)), (GridIndex(0, 1, 1), GridIndex(1, 1, 1))]
    case 5 => [(GridIndex(0, 1, 2), GridIndex(0, 2, 2)), (GridIndex(0, 1, 2), GridIndex(1, 1, 2))]
    case 6 => [(GridIndex(0, 2, 0), GridIndex(0, 2, 1)), (GridIndex(0, 2, 0), GridIndex(1, 2, 0))]
    case 7 => [(GridIndex(0, 2, 1), GridIndex(0, 2, 2)), (GridIndex(0, 2, 1), GridIndex(1, 2, 1))]
    case 8 => [(GridIndex(0, 2, 2), GridIndex(1, 2, 2))]
    case 9 => [(GridIndex(1, 0, 0), GridIndex(1, 0, 1)), (GridIndex(1, 0, 0), GridIndex(1, 1, 0)), (GridIndex(1, 0, 0), GridIndex(2, 0, 0))]
    case 10 => [(GridIndex(1, 0, 1), GridIndex(1, 0, 2)), (GridIndex(1, 0, 1), GridIndex(1, 1, 1)), (GridIndex(1, 0, 1), GridIndex(2, 0, 1))]
    case 11 => [(GridIndex(1, 0, 2), GridIndex(1, 1, 2)), (GridIndex(1, 0, 2), GridIndex(2, 0, 2))]
    case 12 => [(GridIndex(1, 1, 0), GridIndex(1, 1, 1)), (GridIndex(1, 1, 0), GridIndex(1, 2, 0)), (GridIndex(1, 1, 0), GridIndex(2, 1, 0))]
    case 13 => [(GridIndex(1, 1, 1), GridIndex(1, 1, 2)), (GridIndex(1, 1, 1), GridIndex(1, 2, 1)), (GridIndex(1, 1, 1), GridIndex(2, 1, 1))]
    case 14 => [(GridIndex(1, 1, 2), GridIndex(1, 2, 2)), (GridIndex(1, 1, 2), GridIndex(2, 1, 2))]
    case 15 => [(GridIndex(1, 2, 0), GridIndex(1, 2, 1)), (GridIndex(1, 2, 0), GridIndex(2, 2, 0))]
    case 16 => [(GridIndex(1, 2, 1), GridIndex(1, 2, 2)), (GridIndex(1, 2, 1), GridIndex(2, 2, 1))]
    case 17 => [(GridIndex(1, 2, 2), GridIndex(2, 2, 2))]
    case 18 => [(GridIndex(2, 0, 0), GridIndex(2, 0, 1)), (GridIndex(2, 0, 0), GridIndex(2, 1, 0))]
    case 19 => [(GridIndex(2, 0, 1), GridIndex(2, 0, 2)), (GridIndex(2, 0, 1), GridIndex(2, 1, 1))]
    case 20 => [(GridIndex(2, 0, 2), GridIndex(2, 1, 2))]
    case 21 => [(GridIndex(2, 1, 0), GridIndex(2, 1, 1)), (GridIndex(2, 1, 0), GridIndex(2, 2, 0))]
    case 22 => [(GridIndex(2, 1, 1), GridIndex(2, 1, 2)), (GridIndex(2, 1, 1), GridIndex(2, 2, 1))]
    case 23 => [(GridIndex(2, 1, 2), GridIndex(2, 2, 2))]
    case 24 => [(GridIndex(2, 2, 0), GridIndex(2, 2, 1))]
    case 25 => [(GridIndex(2, 2, 1), GridIndex(2, 2, 2))]
    case 26 => []
    case _ => []
  }

  /** The test's list of index pairs, from the group of the `i`-th key on. */
  function CubeEdgesFrom(i: nat): seq<(GridIndex, GridIndex)>
    decreases 27 - i
  {
    if i >= 27 then [] else CubeChunk(i) + CubeEdgesFrom(i + 1)
  }

  /** The index pairs a cube key contributes: its +z, +y and +x neighbours inside the cube. */
  function CubePairsAt(k: GridIndex): seq<(GridIndex, GridIndex)>
  {
    (if k.z < 2 then [(k, Next(k, Z))] else [])
    + (if k.y < 2 then [(k, Next(k, Y))] else [])
    + (if k.x < 2 then [(k, Next(k, X))] else [])
  }

  /** The index pair towards `next`, when `values` holds it. */
  function PairTo(k: GridIndex, next: GridIndex, values: map<GridIndex, real>): seq<(GridIndex, GridIndex)>
  {
    if next in values then [(k, next)] else []
  }

  /** The index pairs `edges` emits for one key: towards +z, +y and +x, those present. */
  lemma EdgesAtPairs(k: GridIndex, v: real, values: map<GridIndex, real>)
    ensures IndexPairs(EdgesAt(k, v, values))
         == PairTo(k, Next(k, Z), values) + PairTo(k, Next(k, Y), values) + PairTo(k, Next(k, X), values)
  {
    var z := EdgeToNext(k, v, Next(k, Z), values);
    var y := EdgeToNext(k, v, Next(k, Y), values);
    var x := EdgeToNext(k, v, Next(k, X), values);
    var sz := if z.Some? then [z.value] else [];
    var sy := if y.Some? then [y.value] else [];
    var sx := if x.Some? then [x.value] else [];
    assert Somes([x]) == sx + Somes([]);
    assert Somes([y, x]) == sy + Somes([x]);
    assert Somes([z, y, x]) == sz + Somes([y, x]);
    assert EdgesAt(k, v, values) == (sz + sy) + sx;
    IndexPairsAppend(sz + sy, sx);
    IndexPairsAppend(sz, sy);
    PairToNext(k, v, Next(k, Z), values);
    PairToNext(k, v, Next(k, Y), values);
    PairToNext(k, v, Next(k, X), values);
  }

  lemma PairToNext(k: GridIndex, v: real, next: GridIndex, values: map<GridIndex, real>)
    ensures var e := EdgeToNext(k, v, next, values);
            IndexPairs(if e.Some? then [e.value] else []) == PairTo(k, next, values)
  {
  }

  lemma CubeEdgesAt(k: GridIndex, v: real, values: map<GridIndex, real>)
    requires InCube(k)
    requires forall j :: j in values <==> InCube(j)
    ensures IndexPairs(EdgesAt(k, v, values)) == CubePairsAt(k)
  {
    EdgesAtPairs(k, v, values);
    assert PairTo(k, Next(k, Z), values) == if k.z < 2 then [(k, Next(k, Z))] else [];
    assert PairTo(k, Next(k, Y), values) == if k.y < 2 then [(k, Next(k, Y))] else [];
    assert PairTo(k, Next(k, X), values) == if k.x < 2 then [(k, Next(k, X))] else [];
  }

  lemma CubeChunkAtSlab0(k: GridIndex)
    requires InCube(k) && k.x == 0
    ensures CubePairsAt(k) == CubeChunk(CubePos(k))
  {
    if k == GridIndex(0, 0, 0) {
      assert CubePairsAt(GridIndex(0, 0, 0)) == CubeChunk(0);
    } else if k == GridIndex(0, 0, 1) {
      assert CubePairsAt(GridIndex(0, 0, 1)) == CubeChunk(1);
    } else if k == GridIndex(0, 0, 2) {
      assert CubePairsAt(GridIndex(0, 0, 2)) == CubeChunk(2);
    } else if k == GridIndex(0, 1, 0) {
      assert CubePairsAt(GridIndex(0, 1, 0)) == CubeChunk(3);
    } else if k == GridIndex(0, 1, 1) {
      assert CubePairsAt(GridIndex(0, 1, 1)) == CubeChunk(4);
    } else if k == GridIndex(0, 1, 2) {
      assert CubePairsAt(GridIndex(0, 1, 2)) == CubeChunk(5);
    } else if k == GridIndex(0, 2, 0) {
      assert CubePairsAt(GridIndex(0, 2, 0)) == CubeChunk(6);
    } else if k == GridIndex(0, 2, 1) {
      assert CubePairsAt(GridIndex(0, 2, 1)) == CubeChunk(7);
    } else if k == GridIndex(0, 2, 2) {
      assert CubePairsAt(GridIndex(0, 2, 2)) == CubeChunk(8);
    }
  }

  lemma CubeChunkAtSlab1(k: GridIndex)
    requires InCube(k) && k.x == 1
    ensures CubePairsAt(k) == CubeChunk(CubePos(k))
  {
    if k == GridIndex(1, 0, 0) {
      assert CubePairsAt(GridIndex(1, 0, 0)) == CubeChunk(9);
    } else if k == GridIndex(1, 0, 1) {
      assert CubePairsAt(GridIndex(1, 0, 1)) == CubeChunk(10);
    } else if k == GridIndex(1, 0, 2) {
      assert CubePairsAt(GridIndex(1, 0, 2)) == CubeChunk(11);
    } else if k == GridIndex(1, 1, 0) {
      assert CubePairsAt(GridIndex(1, 1, 0)) == CubeChunk(12);
    } else if k == GridIndex(1, 1, 1) {
      assert CubePairsAt(GridIndex(1, 1, 1)) == CubeChunk(13);
    } else if k == GridIndex(1, 1, 2) {
      assert CubePairsAt(GridIndex(1, 1, 2)) == CubeChunk(14);
    } else if k == GridIndex(1, 2, 0) {
      assert CubePairsAt(GridIndex(1, 2, 0)) == CubeChunk(15);
    } else if k == GridIndex(1, 2, 1) {
      assert CubePairsAt(GridIndex(1, 2, 1)) == CubeChunk(16);
    } else if k == GridIndex(1, 2, 2) {
      assert CubePairsAt(GridIndex(1, 2, 2)) == CubeChunk(17);
    }
  }

  lemma CubeChunkAtSlab2(k: GridIndex)
    requires InCube(k) && k.x == 2
    ensures CubePairsAt(k) == CubeChunk(CubePos(k))
  {
    if k == GridIndex(2, 0, 0) {
      assert CubePairsAt(GridIndex(2, 0, 0)) == CubeChunk(18);
    } else if k == GridIndex(2, 0, 1) {
      assert CubePairsAt(GridIndex(2, 0, 1)) == CubeChunk(19);
    } else if k == GridIndex(2, 0, 2) {
      assert CubePairsAt(GridIndex(2, 0, 2)) == CubeChunk(20);
    } else if k == GridIndex(2, 1, 0) {
      assert CubePairsAt(GridIndex(2, 1, 0)) == CubeChunk(21);
    } else if k == GridIndex(2, 1, 1) {
      assert CubePairsAt(GridIndex(2, 1, 1)) == CubeChunk(22);
    } else if k == GridIndex(2, 1, 2) {
      assert CubePairsAt(GridIndex(2, 1, 2)) == CubeChunk(23);
    } else if k == GridIndex(2, 2, 0) {
      assert CubePairsAt(GridIndex(2, 2, 0)) == CubeChunk(24);
    } else if k == GridIndex(2, 2, 1) {
      assert CubePairsAt(GridIndex(2, 2, 1)) == CubeChunk(25);
    } else if k == GridIndex(2, 2, 2) {
      assert CubePairsAt(GridIndex(2, 2, 2)) == CubeChunk(26);
    }
  }

  /** The test's group for each cube key is that key's neighbours inside the cube. */
  lemma CubeChunkAt(k: GridIndex)
    requires InCube(k)
    ensures CubePairsAt(k) == CubeChunk(CubePos(k))
  {
    if k.x == 0 {
      CubeChunkAtSlab0(k);
    } else if k.x == 1 {
      CubeChunkAtSlab1(k);
    } else {
      CubeChunkAtSlab2(k);
    }
  }

  lemma CubeKeysStep(k: GridIndex)
    requires InCube(k) && CubePos(k) < 26
    ensures InCube(CubeSucc(k)) && CubePos(CubeSucc(k)) == CubePos(k) + 1
    ensures CubeKeysFrom(k) == [k] + CubeKeysFrom(CubeSucc(k))
  {
  }

  lemma CubeEdgesStep(i: nat)
    requires i < 27
    ensures CubeEdgesFrom(i) == CubeChunk(i) + CubeEdgesFrom(i + 1)
  {
  }

  lemma {:induction false} CubeEdgesFromKey(k: GridIndex, values: map<GridIndex, real>)
    requires InCube(k)
    requires forall j :: j in values <==> InCube(j)
    ensures forall j :: j in CubeKeysFrom(k) ==> j in values
    ensures IndexPairs(EdgesFrom(CubeKeysFrom(k), values)) == CubeEdgesFrom(CubePos(k))
    decreases 26 - CubePos(k)
  {
    CubeKeysFromBounds(k);
    var head := EdgesAt(k, values[k], values);
    CubeEdgesAt(k, values[k], values);
    CubeChunkAt(k);
    CubeEdgesStep(CubePos(k));
    if CubePos(k) < 26 {
      var next := CubeSucc(k);
      CubeKeysStep(k);
      CubeEdgesFromKey(next, values);
      var tail := EdgesFrom(CubeKeysFrom(next), values);
      assert EdgesFrom(CubeKeysFrom(k), values) == head + tail;
      IndexPairsAppend(head, tail);
    } else {
      assert CubeKeysFrom(k) == [k];
      assert EdgesFrom(CubeKeysFrom(k), values) == head + [];
      IndexPairsAppend(head, []);
      assert CubeEdgesFrom(CubePos(k) + 1) == [];
    }
  }

  lemma CubeEdgesCountFrom18()
    ensures |CubeEdgesFrom(18)| == 12
  {
    assert CubeEdgesFrom(27) == [];
    CubeEdgesStep(26);
    assert |CubeChunk(26)| == 0;
    CubeEdgesStep(25);
    assert |CubeChunk(25)| == 1;
    CubeEdgesStep(24);
    assert |CubeChunk(24)| == 1;
    CubeEdgesStep(23);
    assert |CubeChunk(23)| == 1;
    CubeEdgesStep(22);
    assert |CubeChunk(22)| == 2;
    CubeEdgesStep(21);
    assert |CubeChunk(21)| == 2;
    CubeEdgesStep(20);
    assert |CubeChunk(20)| == 1;
    CubeEdgesStep(19);
    assert |CubeChunk(19)| == 2;
    CubeEdgesStep(18);
    assert |CubeChunk(18)| == 2;
  }

  lemma CubeEdgesCountFrom9()
    ensures |CubeEdgesFrom(9)| == 33
  {
    CubeEdgesCountFrom18();
    CubeEdgesStep(17);
    assert |CubeChunk(17)| == 1;
    CubeEdgesStep(16);
    assert |CubeChunk(16)| == 2;
    CubeEdgesStep(15);
    assert |CubeChunk(15)| == 2;
    CubeEdgesStep(14);
    assert |CubeChunk(14)| == 2;
    CubeEdgesStep(13);
    assert |CubeChunk(13)| == 3;
    CubeEdgesStep(12);
    assert |CubeChunk(12)| == 3;
    CubeEdgesStep(11);
    assert |CubeChunk(11)| == 2;
    CubeEdgesStep(10);
    assert |CubeChunk(10)| == 3;
    CubeEdgesStep(9);
    assert |CubeChunk(9)| == 3;
  }

  lemma CubeEdgesCountFrom0()
    ensures |CubeEdgesFrom(0)| == 54
  {
    CubeEdgesCountFrom9();
    CubeEdgesStep(8);
    assert |CubeChunk(8)| == 1;
    CubeEdgesStep(7);
    assert |CubeChunk(7)| == 2;
    CubeEdgesStep(6);
    assert |CubeChunk(6)| == 2;
    CubeEdgesStep(5);
    assert |CubeChunk(5)| == 2;
    CubeEdgesStep(4);
    assert |CubeChunk(4)| == 3;
    CubeEdgesStep(3);
    assert |CubeChunk(3)| == 3;
    CubeEdgesStep(2);
    assert |CubeChunk(2)| == 2;
    CubeEdgesStep(1);
    assert |CubeChunk(1)| == 3;
    CubeEdgesStep(0);
    assert |CubeChunk(0)| == 3;
  }

  /**
    The test `edges_should_return_edges`: a grid whose samples are exactly
    the index cube [0..2]^3 has exactly the 54 edges the test lists, in
    that order.
   */
  lemma CubeEdgesExample(grid: Grid)
    requires ValidMap(grid.values)
    requires forall k :: k in grid.values.values <==> InCube(k)
    ensures IndexPairs(Edges(grid)) == CubeEdgesFrom(0)
    ensures |Edges(grid)| == 54
  {
    CubeEdgesCountFrom0();
    CubeEdgesFromFirst(grid, GridIndex(0, 0, 0));
  }

  /** The cube grid's keys are the cube keys from the first one on, so its edges are the test's list. */
  lemma CubeEdgesFromFirst(grid: Grid, first: GridIndex)
    requires ValidMap(grid.values)
    requires forall k :: k in grid.values.values <==> InCube(k)
    requires InCube(first) && CubePos(first) == 0
    ensures IndexPairs(Edges(grid)) == CubeEdgesFrom(CubePos(first))
  {
    CubeKeysFromBounds(first);
    SortedUnique(grid.values.keys, CubeKeysFrom(first));
    CubeEdgesFromKey(first, grid.values.values);
  }
}
