/**
  `fj_math::Circle<D>`: a centre and two vectors `a`, `b` spanning the plane
  of the circle, with the maps between D-dimensional points and the circle's
  one-dimensional angular coordinate. Points and vectors of dimension D are
  sequences of D reals. The transcendental functions and `Vector::to_uv`,
  which the module calls but does not define, are supplied as a `Trig`
  record of functions.
 */
module Circle {
  import opened Geometry

  type Vector = seq<real>

  /** `std::f64::consts::PI`, the double nearest to pi, written out exactly. */
  const PI: real := 3.141592653589793115997963468544185161590576171875

  /** The collaborators the coordinate maps rely on. */
  datatype Trig = Trig(
    atan2: (real, real) -> real,  // atan2(y, x)
    sin: real -> real,
    cos: real -> real,
    toUv: Vector -> Vector2  // Vector::to_uv
  )

  /** `atan2` yields its principal value, in (-pi, pi]. */
  ghost predicate Atan2InRange(m: Trig)
  {
    forall y, x :: -PI < m.atan2(y, x) <= PI
  }

  datatype Circle = Circle(center: Vector, a: Vector, b: Vector)

  /** All three parts have the circle's dimension. */
  predicate HasDim(c: Circle, d: nat)
  {
    |c.center| == d && |c.a| == d && |c.b| == d
  }

  function Add(u: Vector, w: Vector): (r: Vector)
    requires |u| == |w|
    ensures |r| == |u| && forall i :: 0 <= i < |u| ==> r[i] == u[i] + w[i]
  {
    seq(|u|, i requires 0 <= i < |u| => u[i] + w[i])
  }

  function Sub(u: Vector, w: Vector): (r: Vector)
    requires |u| == |w|
    ensures |r| == |u| && forall i :: 0 <= i < |u| ==> r[i] == u[i] - w[i]
  {
    seq(|u|, i requires 0 <= i < |u| => u[i] - w[i])
  }

  function Scale(u: Vector, k: real): (r: Vector)
    ensures |r| == |u| && forall i :: 0 <= i < |u| ==> r[i] == u[i] * k
  {
    seq(|u|, i requires 0 <= i < |u| => u[i] * k)
  }

  function Neg(u: Vector): (r: Vector)
    ensures |r| == |u| && forall i :: 0 <= i < |u| ==> r[i] == -u[i]
  {
    seq(|u|, i requires 0 <= i < |u| => -u[i])
  }

  /** `Circle::reverse`: the same circle, traversed the other way. */
  function Reverse(c: Circle): (r: Circle)
    ensures r.center == c.center && r.a == c.a
    ensures |r.b| == |c.b| && forall i :: 0 <= i < |c.b| ==> r.b[i] == -c.b[i]
  {
    c.(b := Neg(c.b))
  }

  /** Reversing twice gives back the original circle. */
  lemma ReverseInvolutive(c: Circle)
    ensures Reverse(Reverse(c)) == c
  {
    assert Reverse(Reverse(c)).b == c.b;
  }

  /**
    `Circle::point_to_circle_coords`: the angle of `point - center`, as
    `to_uv` sees it, moved into [0, 2*pi) by adding 2*pi to a negative angle.
   */
  function PointToCircleCoords(c: Circle, point: Vector, m: Trig): (t: real)
    requires |point| == |c.center|
    ensures var uv := m.toUv(Sub(point, c.center));
            var angle := m.atan2(uv.v, uv.u);
            && (angle >= 0.0 ==> t == angle)
            && (angle < 0.0 ==> t == angle + 2.0 * PI)
            && (-PI < angle <= PI ==> 0.0 <= t < 2.0 * PI)
  {
    var uv := m.toUv(Sub(point, c.center));
    var atan := m.atan2(uv.v, uv.u);
    if atan >= 0.0 then atan else atan + PI * 2.0
  }

  /** Given the principal-value `atan2`, every circle coordinate is in [0, 2*pi). */
  lemma CircleCoordsInRange(c: Circle, point: Vector, m: Trig)
    requires Atan2InRange(m)
    requires |point| == |c.center|
    ensures 0.0 <= PointToCircleCoords(c, point, m) < 2.0 * PI
  {
    var uv := m.toUv(Sub(point, c.center));
    assert -PI < m.atan2(uv.v, uv.u) <= PI;
  }

  /** `Circle::vector_from_circle_coords`: `a * cos(t) + b * sin(t)`. */
  function VectorFromCircleCoords(c: Circle, t: real, m: Trig): (r: Vector)
    requires |c.a| == |c.b|
    ensures |r| == |c.a|
    ensures forall i :: 0 <= i < |r| ==> r[i] == c.a[i] * m.cos(t) + c.b[i] * m.sin(t)
  {
    var sa := Scale(c.a, m.cos(t));
    var sb := Scale(c.b, m.sin(t));
    assert forall i :: 0 <= i < |c.a| ==> sa[i] == c.a[i] * m.cos(t) && sb[i] == c.b[i] * m.sin(t);
    Add(sa, sb)
  }

  /** `Circle::point_from_circle_coords`: the centre plus that vector. */
  function PointFromCircleCoords(c: Circle, t: real, m: Trig): (r: Vector)
    requires |c.a| == |c.b| == |c.center|
    ensures |r| == |c.center|
    ensures forall i :: 0 <= i < |r| ==>
              r[i] == c.center[i] + c.a[i] * m.cos(t) + c.b[i] * m.sin(t)
  {
    var v := VectorFromCircleCoords(c, t, m);
    var r := Add(c.center, v);
    assert forall i :: 0 <= i < |r| ==> r[i] == c.center[i] + v[i];
    r
  }

  /** The vector from the centre to the point at `t` is the vector at `t`. */
  lemma PointMinusCenterIsVector(c: Circle, t: real, m: Trig)
    requires HasDim(c, |c.center|)
    ensures Sub(PointFromCircleCoords(c, t, m), c.center) == VectorFromCircleCoords(c, t, m)
  {
    var p := PointFromCircleCoords(c, t, m);
    var w := VectorFromCircleCoords(c, t, m);
    assert forall i :: 0 <= i < |w| ==> Sub(p, c.center)[i] == w[i];
  }

  /**
    Reversing a circle mirrors its parametrisation: the reversed circle at
    `t` is the original at `-t`, given that sine is odd and cosine even there.
   */
  lemma ReverseMirrorsCoords(c: Circle, t: real, m: Trig)
    requires HasDim(c, |c.center|)
    requires m.sin(-t) == -m.sin(t) && m.cos(-t) == m.cos(t)
    ensures PointFromCircleCoords(Reverse(c), t, m) == PointFromCircleCoords(c, -t, m)
  {
    var p := PointFromCircleCoords(Reverse(c), t, m);
    var q := PointFromCircleCoords(c, -t, m);
    var co, si := m.cos(t), m.sin(t);
    forall i | 0 <= i < |p|
      ensures p[i] == q[i]
    {
      assert (-c.b[i]) * si == c.b[i] * (-si);
      assert p[i] == c.center[i] + c.a[i] * co + (-c.b[i]) * si;
      assert q[i] == c.center[i] + c.a[i] * co + c.b[i] * (-si);
    }
  }

  /** `atan2` depends only on the direction of its argument: scaling both parts by a positive factor keeps it. */
  ghost predicate Atan2ScaleInvariant(m: Trig)
  {
    forall y, x, s :: s > 0.0 ==> m.atan2(Times(s, y), Times(s, x)) == m.atan2(y, x)
  }

  /** The product `s * x`, named so that the quantifier above has a term to trigger on. */
  function Times(s: real, x: real): real
  {
    s * x
  }

  /**
    Round trip: a coordinate in [0, 2*pi) mapped to a point and back is
    unchanged, given that `to_uv` sees the point's offset as `(cos t, sin t)`
    scaled by some positive factor `k` (the circle's radius, for a circle
    whose `a` and `b` are the plane's axes scaled alike), that `atan2` ignores
    such a factor, and that `atan2` gives the principal angle of `(sin t, cos t)`.
   */
  lemma CircleCoordsRoundTrip(c: Circle, t: real, m: Trig, k: real)
    requires HasDim(c, |c.center|)
    requires 0.0 <= t < 2.0 * PI
    requires k > 0.0
    requires m.toUv(VectorFromCircleCoords(c, t, m)) == Vector2(k * m.cos(t), k * m.sin(t))
    requires Atan2ScaleInvariant(m)
    requires m.atan2(m.sin(t), m.cos(t)) == if t <= PI then t else t - 2.0 * PI
    ensures PointToCircleCoords(c, PointFromCircleCoords(c, t, m), m) == t
  {
    PointMinusCenterIsVector(c, t, m);
    assert m.atan2(Times(k, m.sin(t)), Times(k, m.cos(t))) == m.atan2(m.sin(t), m.cos(t));
  }

  /** The test `point_to_circle_coords`. */
  lemma PointToCircleCoordsExample(m: Trig)
    requires m.toUv([1.0, 0.0, 0.0]) == Vector2(1.0, 0.0)
    requires m.toUv([0.0, 1.0, 0.0]) == Vector2(0.0, 1.0)
    requires m.toUv([-1.0, 0.0, 0.0]) == Vector2(-1.0, 0.0)
    requires m.toUv([0.0, -1.0, 0.0]) == Vector2(0.0, -1.0)
    requires m.atan2(0.0, 1.0) == 0.0
    requires m.atan2(1.0, 0.0) == PI / 2.0
    requires m.atan2(0.0, -1.0) == PI
    requires m.atan2(-1.0, 0.0) == -PI / 2.0
    ensures var c := Circle([1.0, 2.0, 3.0], [1.0, 0.0, 0.0], [0.0, 1.0, 0.0]);
            && PointToCircleCoords(c, [2.0, 2.0, 3.0], m) == 0.0
            && PointToCircleCoords(c, [1.0, 3.0, 3.0], m) == PI / 2.0
            && PointToCircleCoords(c, [0.0, 2.0, 3.0], m) == PI
            && PointToCircleCoords(c, [1.0, 1.0, 3.0], m) == PI / 2.0 * 3.0
  {
    var center := [1.0, 2.0, 3.0];
    assert Sub([2.0, 2.0, 3.0], center) == [1.0, 0.0, 0.0];
    assert Sub([1.0, 3.0, 3.0], center) == [0.0, 1.0, 0.0];
    assert Sub([0.0, 2.0, 3.0], center) == [-1.0, 0.0, 0.0];
    assert Sub([1.0, 1.0, 3.0], center) == [0.0, -1.0, 0.0];
  }
}
