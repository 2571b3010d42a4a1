/**
  `fj_kernel::algorithms::triangulation::polygon`: a face polygon, kept as the
  set of its boundary segments in surface coordinates, and the ray-casting
  test that decides whether a triangle lies inside it.

  The ray/segment intersection of parry (`cast_local_ray`) is a function
  `cast` the test is given; the conversions between model space and surface
  coordinates are the functions of `Surface`. Rounding to six decimal places
  is Rust's `f64::round` (half away from zero) over exact reals.
 */
module Polygon {
  import opened Wrappers
  import opened Geometry

  /** `[geometry::Point<2>; 2]`: a segment in surface coordinates. */
  datatype Segment2 = Segment2(p0: Point2, p1: Point2)

  /** `Segment<3>`: a segment in model space. */
  datatype Segment3 = Segment3(p0: Point3, p1: Point3)

  /** `CycleApprox`, as far as `segments()` shows it. */
  datatype CycleApprox = CycleApprox(segments: seq<Segment3>)

  /** `geometry::Surface`, as the three conversions the polygon uses. */
  datatype Surface = Surface(
    pointModelToSurface: Point3 -> Point2,
    pointSurfaceToModel: Point2 -> Point3,
    vectorSurfaceToModel: Vector2 -> Vector3
  )

  /** `Polygon`: its surface and its boundary segments. */
  datatype Polygon = Polygon(surface: Surface, segments: set<Segment2>)

  /** parry's 2D and 3D rays. */
  datatype Ray2 = Ray2(origin: Point2, dir: Vector2)
  datatype Ray3 = Ray3(origin: Point3, dir: Vector3)

  /** `fj_debug::TriangleEdgeCheck`: the ray cast for one triangle edge and the hits it recorded. */
  datatype TriangleEdgeCheck = TriangleEdgeCheck(ray: Ray3, hits: seq<real>)

  /** The intersection parameter along a ray with a segment, if they meet. */
  type Cast = (Segment2, Ray2) -> Option<real>

  /** `fj_debug::DebugInfo`, whose triangle edge checks the test appends to. */
  class DebugInfo {
    var triangleEdgeChecks: seq<TriangleEdgeCheck>

    constructor ()
      ensures triangleEdgeChecks == []
    {
      triangleEdgeChecks := [];
    }
  }

  /** A segment of the cycle, projected onto the surface point by point. */
  function Project(surface: Surface, s: Segment3): Segment2
  {
    Segment2(surface.pointModelToSurface(s.p0), surface.pointModelToSurface(s.p1))
  }

  /** The projections of `segs`, collected into a set. */
  function ProjectAll(surface: Surface, segs: seq<Segment3>): (r: set<Segment2>)
    ensures forall k :: 0 <= k < |segs| ==> Project(surface, segs[k]) in r
    ensures forall s :: s in r ==> exists k :: 0 <= k < |segs| && s == Project(surface, segs[k])
  {
    if segs == [] then {}
    else
      var rest := ProjectAll(surface, segs[1..]);
      assert forall s :: s in rest ==> exists k :: 1 <= k < |segs| && s == Project(surface, segs[k]) by {
        forall s | s in rest
          ensures exists k :: 1 <= k < |segs| && s == Project(surface, segs[k])
        {
          var j :| 0 <= j < |segs[1..]| && s == Project(surface, segs[1..][j]);
          assert s == Project(surface, segs[j + 1]);
        }
      }
      {Project(surface, segs[0])} + rest
  }

  /** The projections of every segment of every interior cycle. */
  function ProjectCycles(surface: Surface, cycles: seq<CycleApprox>): (r: set<Segment2>)
    ensures forall i, k :: 0 <= i < |cycles| && 0 <= k < |cycles[i].segments| ==>
              Project(surface, cycles[i].segments[k]) in r
    ensures forall s :: s in r ==>
              exists i, k :: 0 <= i < |cycles| && 0 <= k < |cycles[i].segments| &&
                             s == Project(surface, cycles[i].segments[k])
  {
    if cycles == [] then {}
    else
      var rest := ProjectCycles(surface, cycles[1..]);
      assert forall s :: s in rest ==>
               exists i, k :: 1 <= i < |cycles| && 0 <= k < |cycles[i].segments| &&
                              s == Project(surface, cycles[i].segments[k]) by {
        forall s | s in rest
          ensures exists i, k :: 1 <= i < |cycles| && 0 <= k < |cycles[i].segments| &&
                                 s == Project(surface, cycles[i].segments[k])
        {
          var i, k :| 0 <= i < |cycles[1..]| && 0 <= k < |cycles[1..][i].segments| &&
                      s == Project(surface, cycles[1..][i].segments[k]);
          assert cycles[1..][i] == cycles[i + 1];
        }
      }
      ProjectAll(surface, cycles[0].segments) + rest
  }

  /**
    `Polygon::new`: the boundary is exactly the surface projections of the
    exterior cycle's segments and of every interior cycle's segments.
   */
  function New(exterior: CycleApprox, interiors: seq<CycleApprox>, surface: Surface): (p: Polygon)
    ensures p.surface == surface
    ensures forall k :: 0 <= k < |exterior.segments| ==> Project(surface, exterior.segments[k]) in p.segments
    ensures forall i, k :: 0 <= i < |interiors| && 0 <= k < |interiors[i].segments| ==>
              Project(surface, interiors[i].segments[k]) in p.segments
    ensures forall s :: s in p.segments ==>
              || (exists k :: 0 <= k < |exterior.segments| && s == Project(surface, exterior.segments[k]))
              || (exists i, k :: 0 <= i < |interiors| && 0 <= k < |interiors[i].segments| &&
                                 s == Project(surface, interiors[i].segments[k]))
  {
    Polygon(surface, ProjectAll(surface, exterior.segments) + ProjectCycles(surface, interiors))
  }

  /** `Polygon::contains_segment`: the segment is a boundary segment, in either direction. */
  predicate ContainsSegment(p: Polygon, s: Segment2): (r: bool)
    ensures r <==> exists t :: t in p.segments && {t.p0, t.p1} == {s.p0, s.p1}
  {
    s in p.segments || Segment2(s.p1, s.p0) in p.segments
  }

  /** The same segment, traversed the other way. */
  function Reversed(s: Segment2): Segment2
  {
    Segment2(s.p1, s.p0)
  }

  /** `contains_segment` does not depend on the direction of the segment. */
  lemma ContainsSegmentSymmetric(p: Polygon, a: Point2, b: Point2)
    ensures ContainsSegment(p, Segment2(a, b)) <==> ContainsSegment(p, Segment2(b, a))
  {
  }

  /** Every boundary segment is contained, in both directions. */
  lemma BoundaryContained(p: Polygon, s: Segment2)
    requires s in p.segments
    ensures ContainsSegment(p, s) && ContainsSegment(p, Reversed(s))
  {
  }

  /** The centre of a segment, `s0 + (s1 - s0) / 2`. */
  function Midpoint(s: Segment2): (m: Point2)
    ensures m.u == (s.p0.u + s.p1.u) / 2.0 && m.v == (s.p0.v + s.p1.v) / 2.0
  {
    Add2(s.p0, Div2(Sub2(s.p1, s.p0), 2.0))
  }

  /** The ray from the segment's centre toward the outside point. */
  function RayFor(s: Segment2, outside: Point2): (r: Ray2)
    ensures r.origin == Midpoint(s) && Add2(r.origin, r.dir) == outside
  {
    Ray2(Midpoint(s), Sub2(outside, Midpoint(s)))
  }

  /** The same ray in model space, as the debug check records it. */
  function Ray3For(surface: Surface, s: Segment2, outside: Point2): Ray3
  {
    var r := RayFor(s, outside);
    Ray3(surface.pointSurfaceToModel(r.origin), surface.vectorSurfaceToModel(r.dir))
  }

  /** `f64::round`: to the nearest integer, halves away from zero. */
  function Round(x: real): (n: int)
    ensures -0.5 <= n as real - x <= 0.5
    ensures n as real == x + 0.5 ==> x > 0.0
    ensures n as real == x - 0.5 ==> x < 0.0
  {
    if x >= 0.0 then (x + 0.5).Floor else -((-x + 0.5).Floor)
  }

  /** `(t * eps).round() / eps` with `eps = 1_000_000.0`. */
  function Round6(t: real): (r: real)
    ensures -0.0000005 <= r - t <= 0.0000005
  {
    Round(t * 1000000.0) as real / 1000000.0
  }

  /** Rounding moves a parameter by at most half a millionth, and keeps whole millionths. */
  lemma Round6Close(t: real, n: int)
    ensures -0.0000005 <= Round6(t) - t <= 0.0000005
    ensures Round6(n as real / 1000000.0) == n as real / 1000000.0
  {
    var n' := Round(n as real / 1000000.0 * 1000000.0);
    assert n as real / 1000000.0 * 1000000.0 == n as real;
    assert n' == n;
  }

  /** The distinct rounded parameters at which the ray meets the segments of `segs`. */
  function HitsOf(segs: set<Segment2>, ray: Ray2, cast: Cast): set<real>
  {
    set s | s in segs && cast(s, ray).Some? :: Round6(cast(s, ray).value)
  }

  /** The rounded parameters of the segments in `order`, each recorded the first time it is seen. */
  function FirstSeen(order: seq<Segment2>, ray: Ray2, cast: Cast): seq<real>
  {
    if order == [] then []
    else
      var prev := FirstSeen(order[..|order| - 1], ray, cast);
      match cast(order[|order| - 1], ray)
      case None => prev
      case Some(t) => if Round6(t) in prev then prev else prev + [Round6(t)]
  }

  /** The segments listed in `order`. */
  function Elements(order: seq<Segment2>): set<Segment2>
  {
    set s | s in order
  }

  predicate NoDuplicates<T(==)>(s: seq<T>)
  {
    forall i, j :: 0 <= i < j < |s| ==> s[i] != s[j]
  }

  /** `order` lists the elements of `s`, each once: an iteration order of the hash set. */
  ghost predicate Enumerates(order: seq<Segment2>, s: set<Segment2>)
  {
    NoDuplicates(order) && forall x :: x in s <==> x in order
  }

  /**
    `hits` is what the test pushes onto a check: the rounded parameters in the
    order first seen, for some iteration order of the segments.
   */
  ghost predicate IsFirstSeen(segs: set<Segment2>, hits: seq<real>, ray: Ray2, cast: Cast)
  {
    exists order :: Enumerates(order, segs) && hits == FirstSeen(order, ray, cast)
  }

  /** A sequence without repeats has as many elements as its set. */
  lemma {:induction false} NoDuplicatesCard(s: seq<real>)
    requires NoDuplicates(s)
    ensures |set x | x in s| == |s|
  {
    if s != [] {
      var init := s[..|s| - 1];
      assert NoDuplicates(init);
      NoDuplicatesCard(init);
      assert (set x | x in s) == (set x | x in init) + {s[|s| - 1]};
      assert s[|s| - 1] !in init;
    }
  }

  /** The first-seen list of an order has no repeats and holds exactly the rounded hits of its segments. */
  lemma {:induction false} FirstSeenIsHits(order: seq<Segment2>, ray: Ray2, cast: Cast)
    ensures NoDuplicates(FirstSeen(order, ray, cast))
    ensures (set x | x in FirstSeen(order, ray, cast)) == HitsOf(Elements(order), ray, cast)
  {
    if order != [] {
      var init := order[..|order| - 1];
      var last := order[|order| - 1];
      FirstSeenIsHits(init, ray, cast);
      assert Elements(order) == Elements(init) + {last};
      var prev := FirstSeen(init, ray, cast);
      match cast(last, ray)
      case None =>
        assert HitsOf(Elements(order), ray, cast) == HitsOf(Elements(init), ray, cast);
      case Some(t) =>
        assert HitsOf(Elements(order), ray, cast) == HitsOf(Elements(init), ray, cast) + {Round6(t)};
    }
  }

  /**
    The hits recorded in a debug check have no repeats, are exactly the
    distinct rounded parameters, and so are as many as the test counts.
   */
  lemma RecordedHitsAreDistinctHits(segs: set<Segment2>, hits: seq<real>, ray: Ray2, cast: Cast)
    requires IsFirstSeen(segs, hits, ray, cast)
    ensures NoDuplicates(hits)
    ensures (set x | x in hits) == HitsOf(segs, ray, cast)
    ensures |hits| == |HitsOf(segs, ray, cast)|
  {
    var order :| Enumerates(order, segs) && hits == FirstSeen(order, ray, cast);
    FirstSeenIsHits(order, ray, cast);
    assert Elements(order) == segs;
    NoDuplicatesCard(hits);
  }

  /**
    Two intersections whose parameters round to the same value are counted
    once: dropping one of the two segments leaves the hits unchanged.
   */
  lemma DuplicateHitCountedOnce(segs: set<Segment2>, s1: Segment2, s2: Segment2, ray: Ray2, cast: Cast)
    requires s1 in segs && s2 in segs && s1 != s2
    requires cast(s1, ray).Some? && cast(s2, ray).Some?
    requires Round6(cast(s1, ray).value) == Round6(cast(s2, ray).value)
    ensures HitsOf(segs - {s2}, ray, cast) == HitsOf(segs, ray, cast)
  {
    assert Round6(cast(s1, ray).value) in HitsOf(segs - {s2}, ray, cast);
  }

  /** A triangle edge passes: it is a boundary segment or its ray meets the boundary an odd number of times. */
  predicate EdgeInside(p: Polygon, e: Segment2, outside: Point2, cast: Cast)
  {
    ContainsSegment(p, e) || OddHits(p, e, outside, cast)
  }

  /** The ray from the edge's centre meets the boundary at an odd number of distinct parameters. */
  predicate OddHits(p: Polygon, e: Segment2, outside: Point2, cast: Cast)
  {
    |HitsOf(p.segments, RayFor(e, outside), cast)| % 2 == 1
  }

  predicate AllInside(p: Polygon, es: seq<Segment2>, outside: Point2, cast: Cast)
  {
    forall k :: 0 <= k < |es| ==> EdgeInside(p, es[k], outside, cast)
  }

  /** `windows(2)`: each element paired with the next. */
  function Windows(corners: seq<Point2>): (w: seq<Segment2>)
    ensures |w| == if |corners| == 0 then 0 else |corners| - 1
    ensures forall k :: 0 <= k < |w| ==> w[k] == Segment2(corners[k], corners[k + 1])
  {
    if |corners| < 2 then [] else [Segment2(corners[0], corners[1])] + Windows(corners[1..])
  }

  /** The edges `contains_triangle` examines: the windows of `[a, b, c, a]`. */
  function TriangleEdges(a: Point2, b: Point2, c: Point2): seq<Segment2>
  {
    Windows([a, b, c, a])
  }

  /** The edges are examined in the order ab, bc, ca. */
  lemma TriangleEdgesInOrder(a: Point2, b: Point2, c: Point2)
    ensures TriangleEdges(a, b, c) == [Segment2(a, b), Segment2(b, c), Segment2(c, a)]
  {
    var w := TriangleEdges(a, b, c);
    var corners := [a, b, c, a];
    assert corners[1] == b && corners[2] == c && corners[3] == a;
    assert |w| == 3 && w[0] == Segment2(a, b) && w[1] == Segment2(b, c) && w[2] == Segment2(c, a);
  }

  /** What `contains_triangle` decides: every edge passes. */
  predicate ContainsTriangleSpec(p: Polygon, a: Point2, b: Point2, c: Point2, outside: Point2, cast: Cast)
  {
    AllInside(p, TriangleEdges(a, b, c), outside, cast)
  }

  /** The verdict does not depend on how the corners are labelled: rotating them or swapping two keeps it. */
  lemma ContainsTriangleLabelling(p: Polygon, a: Point2, b: Point2, c: Point2, outside: Point2, cast: Cast)
    ensures ContainsTriangleSpec(p, a, b, c, outside, cast) <==> ContainsTriangleSpec(p, b, c, a, outside, cast)
    ensures ContainsTriangleSpec(p, a, b, c, outside, cast) <==> ContainsTriangleSpec(p, b, a, c, outside, cast)
  {
    TriangleEdgesInOrder(a, b, c);
    TriangleEdgesInOrder(b, c, a);
    TriangleEdgesInOrder(b, a, c);
    AllInsideThree(p, Segment2(a, b), Segment2(b, c), Segment2(c, a), outside, cast);
    AllInsideThree(p, Segment2(b, c), Segment2(c, a), Segment2(a, b), outside, cast);
    AllInsideThree(p, Segment2(b, a), Segment2(a, c), Segment2(c, b), outside, cast);
    EdgeInsideSymmetric(p, Segment2(a, b), outside, cast);
    EdgeInsideSymmetric(p, Segment2(b, c), outside, cast);
    EdgeInsideSymmetric(p, Segment2(c, a), outside, cast);
  }

  lemma AllInsideThree(p: Polygon, e0: Segment2, e1: Segment2, e2: Segment2, outside: Point2, cast: Cast)
    ensures AllInside(p, [e0, e1, e2], outside, cast)
        <==> EdgeInside(p, e0, outside, cast) && EdgeInside(p, e1, outside, cast) && EdgeInside(p, e2, outside, cast)
  {
    var es := [e0, e1, e2];
    assert es[0] == e0 && es[1] == e1 && es[2] == e2;
  }

  /**
    The edges a debug check is recorded for: every non-boundary edge, in
    order, up to and including the first one that fails.
   */
  function CheckedEdges(p: Polygon, es: seq<Segment2>, outside: Point2, cast: Cast): seq<Segment2>
  {
    if es == [] then []
    else if ContainsSegment(p, es[0]) then CheckedEdges(p, es[1..], outside, cast)
    else if EdgeInside(p, es[0], outside, cast) then [es[0]] + CheckedEdges(p, es[1..], outside, cast)
    else [es[0]]
  }

  /** The non-boundary edges among `es`, in order. */
  function NonBoundary(p: Polygon, es: seq<Segment2>): seq<Segment2>
  {
    if es == [] then []
    else if ContainsSegment(p, es[0]) then NonBoundary(p, es[1..])
    else [es[0]] + NonBoundary(p, es[1..])
  }

  /** Past a prefix of passing edges, the checks are those of the prefix followed by those of the rest. */
  lemma {:induction false} CheckedEdgesSplit(p: Polygon, es: seq<Segment2>, i: nat, outside: Point2, cast: Cast)
    requires i <= |es| && AllInside(p, es[..i], outside, cast)
    ensures CheckedEdges(p, es, outside, cast)
            == CheckedEdges(p, es[..i], outside, cast) + CheckedEdges(p, es[i..], outside, cast)
  {
    if i == 0 {
      assert es[..0] == [] && es[0..] == es;
    } else {
      assert EdgeInside(p, es[..i][0], outside, cast);
      assert es[..i][1..] == es[1..][..i - 1];
      assert es[1..][i - 1..] == es[i..];
      var tail := es[1..][..i - 1];
      assert AllInside(p, tail, outside, cast) by {
        forall k | 0 <= k < |tail|
          ensures EdgeInside(p, tail[k], outside, cast)
        {
          assert tail[k] == es[..i][k + 1];
        }
      }
      CheckedEdgesSplit(p, es[1..], i - 1, outside, cast);
    }
  }

  /**
    At the first edge that fails, the test stops: no later edge is examined,
    and that edge is the last one checked.
   */
  lemma StopsAtFirstRejection(p: Polygon, es: seq<Segment2>, k: nat, outside: Point2, cast: Cast)
    requires k < |es| && AllInside(p, es[..k], outside, cast) && !EdgeInside(p, es[k], outside, cast)
    ensures CheckedEdges(p, es, outside, cast) == CheckedEdges(p, es[..k], outside, cast) + [es[k]]
    ensures !AllInside(p, es, outside, cast)
  {
    CheckedEdgesSplit(p, es, k, outside, cast);
  }

  /** When every edge passes, exactly the non-boundary edges are checked, one check each. */
  lemma {:induction false} AllInsideChecksNonBoundary(p: Polygon, es: seq<Segment2>, outside: Point2, cast: Cast)
    requires AllInside(p, es, outside, cast)
    ensures CheckedEdges(p, es, outside, cast) == NonBoundary(p, es)
  {
    if es != [] {
      AllInsideCons(p, es, outside, cast);
      AllInsideChecksNonBoundary(p, es[1..], outside, cast);
    }
  }

  /** Passing edges at the front of a sequence: the first passes and so do the rest. */
  lemma AllInsideCons(p: Polygon, es: seq<Segment2>, outside: Point2, cast: Cast)
    requires es != []
    ensures AllInside(p, es, outside, cast) <==>
            EdgeInside(p, es[0], outside, cast) && AllInside(p, es[1..], outside, cast)
  {
    if EdgeInside(p, es[0], outside, cast) && AllInside(p, es[1..], outside, cast) {
      forall k | 0 <= k < |es|
        ensures EdgeInside(p, es[k], outside, cast)
      {
        if k > 0 {
          assert es[k] == es[1..][k - 1];
        }
      }
    }
  }

  /** Every edge in `checked` meets the boundary an odd number of times. */
  predicate AllOdd(p: Polygon, checked: seq<Segment2>, outside: Point2, cast: Cast)
  {
    forall k :: 0 <= k < |checked| ==> OddHits(p, checked[k], outside, cast)
  }

  lemma AllOddCons(p: Polygon, e: Segment2, rest: seq<Segment2>, outside: Point2, cast: Cast)
    ensures AllOdd(p, [e] + rest, outside, cast) <==> OddHits(p, e, outside, cast) && AllOdd(p, rest, outside, cast)
  {
    var s := [e] + rest;
    if AllOdd(p, s, outside, cast) {
      assert OddHits(p, s[0], outside, cast);
      forall k | 0 <= k < |rest|
        ensures OddHits(p, rest[k], outside, cast)
      {
        assert s[k + 1] == rest[k];
      }
    }
    if OddHits(p, e, outside, cast) && AllOdd(p, rest, outside, cast) {
      forall k | 0 <= k < |s|
        ensures OddHits(p, s[k], outside, cast)
      {
        if k > 0 {
          assert s[k] == rest[k - 1];
        }
      }
    }
  }

  /**
    The verdict is read off the checks: the edges pass iff every checked edge
    has an odd number of distinct hits.
   */
  lemma {:induction false} VerdictFromChecks(p: Polygon, es: seq<Segment2>, outside: Point2, cast: Cast)
    ensures AllInside(p, es, outside, cast) <==> AllOdd(p, CheckedEdges(p, es, outside, cast), outside, cast)
  {
    if es != [] {
      VerdictFromChecks(p, es[1..], outside, cast);
      AllInsideCons(p, es, outside, cast);
      var rest := CheckedEdges(p, es[1..], outside, cast);
      if !ContainsSegment(p, es[0]) {
        if EdgeInside(p, es[0], outside, cast) {
          AllOddCons(p, es[0], rest, outside, cast);
        } else {
          assert CheckedEdges(p, es, outside, cast) == [es[0]];
          assert !OddHits(p, [es[0]][0], outside, cast);
        }
      }
    }
  }

  /** A triangle whose three edges are all boundary segments is inside, and no check is recorded. */
  lemma AllBoundaryAccepted(p: Polygon, a: Point2, b: Point2, c: Point2, outside: Point2, cast: Cast)
    requires ContainsSegment(p, Segment2(a, b)) && ContainsSegment(p, Segment2(b, c))
    requires ContainsSegment(p, Segment2(c, a))
    ensures ContainsTriangleSpec(p, a, b, c, outside, cast)
    ensures CheckedEdges(p, TriangleEdges(a, b, c), outside, cast) == []
  {
    var es := TriangleEdges(a, b, c);
    TriangleEdgesInOrder(a, b, c);
    assert es[1..] == [Segment2(b, c), Segment2(c, a)];
    assert es[1..][1..] == [Segment2(c, a)];
    assert es[1..][1..][1..] == [];
    assert CheckedEdges(p, es[1..][1..], outside, cast) == [];
    assert CheckedEdges(p, es[1..], outside, cast) == [];
    assert EdgeInside(p, es[0], outside, cast) && EdgeInside(p, es[1], outside, cast);
    assert EdgeInside(p, es[2], outside, cast);
  }

  /** An edge and its reverse have the same centre, so they pass or fail together. */
  lemma EdgeInsideSymmetric(p: Polygon, e: Segment2, outside: Point2, cast: Cast)
    ensures EdgeInside(p, e, outside, cast) <==> EdgeInside(p, Reversed(e), outside, cast)
  {
    assert Midpoint(e) == Midpoint(Reversed(e));
  }

  /** Debug checks match edges: one per edge, with that edge's ray and its hits in first-seen order. */
  ghost predicate ChecksMatch(p: Polygon, checks: seq<TriangleEdgeCheck>, edges: seq<Segment2>, outside: Point2, cast: Cast)
  {
    && |checks| == |edges|
    && forall k :: 0 <= k < |checks| ==>
         && checks[k].ray == Ray3For(p.surface, edges[k], outside)
         && IsFirstSeen(p.segments, checks[k].hits, RayFor(edges[k], outside), cast)
  }

  /** A check recorded for one more edge, with that edge's ray and hits, keeps the records matching. */
  lemma ChecksMatchAppend(p: Polygon, checks: seq<TriangleEdgeCheck>, edges: seq<Segment2>,
                          check: TriangleEdgeCheck, edge: Segment2, outside: Point2, cast: Cast)
    requires ChecksMatch(p, checks, edges, outside, cast)
    requires check.ray == Ray3For(p.surface, edge, outside)
    requires IsFirstSeen(p.segments, check.hits, RayFor(edge, outside), cast)
    ensures ChecksMatch(p, checks + [check], edges + [edge], outside, cast)
  {
    var cs, es := checks + [check], edges + [edge];
    forall k | 0 <= k < |cs|
      ensures cs[k].ray == Ray3For(p.surface, es[k], outside)
      ensures IsFirstSeen(p.segments, cs[k].hits, RayFor(es[k], outside), cast)
    {
      if k < |checks| {
        assert cs[k] == checks[k] && es[k] == edges[k];
      }
    }
  }

  /** One more segment examined: its rounded parameter joins the hits, and is listed unless already seen. */
  lemma CastStep(order: seq<Segment2>, edge: Segment2, ray: Ray2, cast: Cast)
    ensures Elements(order + [edge]) == Elements(order) + {edge}
    ensures cast(edge, ray).None? ==>
              && HitsOf(Elements(order + [edge]), ray, cast) == HitsOf(Elements(order), ray, cast)
              && FirstSeen(order + [edge], ray, cast) == FirstSeen(order, ray, cast)
    ensures cast(edge, ray).Some? ==>
              var t := Round6(cast(edge, ray).value);
              && HitsOf(Elements(order + [edge]), ray, cast) == HitsOf(Elements(order), ray, cast) + {t}
              && FirstSeen(order + [edge], ray, cast)
                 == if t in FirstSeen(order, ray, cast) then FirstSeen(order, ray, cast)
                    else FirstSeen(order, ray, cast) + [t]
  {
    assert (order + [edge])[..|order|] == order;
    assert Elements(order + [edge]) == Elements(order) + {edge};
  }

  /** Moving an element from one part of a partition to the other keeps the union and the disjointness. */
  lemma MoveElement<T>(done: set<T>, remaining: set<T>, x: T)
    requires x in remaining && done !! remaining
    ensures (done + {x}) + (remaining - {x}) == done + remaining
    ensures (done + {x}) !! (remaining - {x})
  {
  }

  /**
    What holds between examined segments (`order`) and the rest: they
    partition the boundary, and `hits` and `found` are the rounded hits of the
    examined ones, as a set and in first-seen order.
   */
  ghost predicate CastInvariant(segs: set<Segment2>, ray: Ray2, cast: Cast, order: seq<Segment2>,
                                remaining: set<Segment2>, hits: set<real>, found: seq<real>)
  {
    && NoDuplicates(order)
    && Elements(order) + remaining == segs
    && Elements(order) !! remaining
    && hits == HitsOf(Elements(order), ray, cast)
    && found == FirstSeen(order, ray, cast)
    && forall t :: t in found <==> t in hits
  }

  /** Examining one more segment the way the inner loop does keeps `CastInvariant`. */
  lemma CastInvariantStep(segs: set<Segment2>, ray: Ray2, cast: Cast, order: seq<Segment2>,
                          remaining: set<Segment2>, hits: set<real>, found: seq<real>,
                          edge: Segment2, hits2: set<real>, found2: seq<real>)
    requires CastInvariant(segs, ray, cast, order, remaining, hits, found)
    requires edge in remaining
    requires cast(edge, ray).None? ==> hits2 == hits && found2 == found
    requires cast(edge, ray).Some? ==>
               var t := Round6(cast(edge, ray).value);
               && (t in hits ==> hits2 == hits && found2 == found)
               && (t !in hits ==> hits2 == hits + {t} && found2 == found + [t])
    ensures CastInvariant(segs, ray, cast, order + [edge], remaining - {edge}, hits2, found2)
  {
    CastStep(order, edge, ray, cast);
    MoveElement(Elements(order), remaining, edge);
    assert edge !in Elements(order);
  }

  /**
    The inner loop of `contains_triangle`: every boundary segment, in the hash
    set's order, is intersected with the ray; each new rounded parameter goes
    into `hits` and is pushed onto `found`.
   */
  method CastRay(p: Polygon, ray: Ray2, cast: Cast) returns (hits: set<real>, found: seq<real>)
    ensures hits == HitsOf(p.segments, ray, cast)
    ensures IsFirstSeen(p.segments, found, ray, cast)
  {
    hits := {};
    found := [];
    var remaining := p.segments;
    ghost var order: seq<Segment2> := [];
    assert Elements(order) == {};
    while remaining != {}
      invariant CastInvariant(p.segments, ray, cast, order, remaining, hits, found)
      decreases |remaining|
    {
      var edge :| edge in remaining;
      ghost var hits0, found0 := hits, found;
      var intersection := cast(edge, ray);
      if intersection.Some? {
        var t := Round6(intersection.value);
        if t !in hits {
          hits := hits + {t};
          found := found + [t];
        }
      }
      CastInvariantStep(p.segments, ray, cast, order, remaining, hits0, found0, edge, hits, found);
      remaining := remaining - {edge};
      order := order + [edge];
    }
    assert Enumerates(order, p.segments);
  }

  /**
    `Polygon::contains_triangle`: examines the edges ab, bc, ca in turn,
    skipping boundary segments, appends one debug check per other edge, and
    returns false at the first edge with an even number of distinct hits.
   */
  method ContainsTriangle(p: Polygon, a: Point2, b: Point2, c: Point2, outside: Point2,
                          debug: DebugInfo, cast: Cast) returns (inside: bool)
    modifies debug
    ensures inside == ContainsTriangleSpec(p, a, b, c, outside, cast)
    ensures var start := old(debug.triangleEdgeChecks);
            var edges := CheckedEdges(p, TriangleEdges(a, b, c), outside, cast);
            && |debug.triangleEdgeChecks| == |start| + |edges|
            && debug.triangleEdgeChecks[..|start|] == start
            && ChecksMatch(p, debug.triangleEdgeChecks[|start|..], edges, outside, cast)
  {
    var corners := [a, b, c, a];
    ghost var es := TriangleEdges(a, b, c);
    ghost var start := debug.triangleEdgeChecks;
    for i := 0 to 3
      invariant AllInside(p, es[..i], outside, cast)
      invariant |debug.triangleEdgeChecks| >= |start| && debug.triangleEdgeChecks[..|start|] == start
      invariant ChecksMatch(p, debug.triangleEdgeChecks[|start|..], CheckedEdges(p, es[..i], outside, cast), outside, cast)
    {
      var segment := Segment2(corners[i], corners[i + 1]);
      assert segment == es[i];
      assert es[..i + 1][..i] == es[..i] && es[..i + 1][i..] == [es[i]];
      if ContainsSegment(p, segment) {
        CheckedEdgesSplit(p, es[..i + 1], i, outside, cast);
        continue;
      }
      var center := Midpoint(segment);
      var origin := center;
      var dir := Sub2(outside, center);
      var ray := Ray2(origin, dir);
      var check := TriangleEdgeCheck(Ray3(p.surface.pointSurfaceToModel(origin), p.surface.vectorSurfaceToModel(dir)), []);
      var hits, found := CastRay(p, ray, cast);
      check := check.(hits := found);
      ghost var before := debug.triangleEdgeChecks;
      debug.triangleEdgeChecks := debug.triangleEdgeChecks + [check];
      assert debug.triangleEdgeChecks[|start|..] == before[|start|..] + [check];
      ChecksMatchAppend(p, before[|start|..], CheckedEdges(p, es[..i], outside, cast), check, segment, outside, cast);
      if |hits| % 2 == 0 {
        StopsAtFirstRejection(p, es, i, outside, cast);
        return false;
      }
      CheckedEdgesSplit(p, es[..i + 1], i, outside, cast);
    }
    assert es[..3] == es;
    return true;
  }
}
