/**
  Points and vectors of the kernel's geometry (`fj_math::Point<D>` and
  `Vector<D>` for D = 2 and 3), over `real`. Floating-point rounding of the
  source's `Scalar` is not modelled.
 */
module Geometry {

  datatype Point2 = Point2(u: real, v: real)
  datatype Vector2 = Vector2(u: real, v: real)
  datatype Point3 = Point3(x: real, y: real, z: real)
  datatype Vector3 = Vector3(x: real, y: real, z: real)

  const Origin3: Point3 := Point3(0.0, 0.0, 0.0)

  /** Point - Point yields a Vector. */
  function Sub2(p: Point2, q: Point2): (r: Vector2)
    ensures Add2(q, r) == p
  {
    Vector2(p.u - q.u, p.v - q.v)
  }

  /** Point + Vector yields a Point. */
  function Add2(p: Point2, w: Vector2): Point2
  {
    Point2(p.u + w.u, p.v + w.v)
  }

  function Div2(w: Vector2, k: real): Vector2
    requires k != 0.0
  {
    Vector2(w.u / k, w.v / k)
  }
}
