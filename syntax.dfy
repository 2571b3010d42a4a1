/**
  The shape-description builders of the `fj` crate: `rotate`, `translate`,
  `union`, `sketch` and `sweep` clone their receiver, convert it into a
  shape and wrap it in a record. The records (`Transform`, `Union`,
  `Sketch`, `Sweep`) are defined outside the modelled sources; they are
  written here with the fields the builders fill. The receiver's
  conversion into a shape (`Into<Shape3d>`, `Into<Shape2d>`) is the
  function `into`; `f64` values are reals, copied and never computed on.
 */
module Syntax {

  datatype Vec3 = Vec3(x: real, y: real, z: real)
  datatype Pt2 = Pt2(x: real, y: real)

  const Zero3: Vec3 := Vec3(0.0, 0.0, 0.0)
  const UnitX: Vec3 := Vec3(1.0, 0.0, 0.0)

  /** `crate::Transform`: a shape rotated by `angle` about `axis`, then moved by `offset`. */
  datatype Transform<S> = Transform(shape: S, axis: Vec3, angle: real, offset: Vec3)

  /** `crate::Union`. */
  datatype Union<S> = Union(a: S, b: S)

  /** `crate::Sketch`, as built by `Sketch::from_points`. */
  datatype Sketch = Sketch(points: seq<Pt2>)

  /** `crate::Sweep`, as built by `Sweep::from_shape_and_length`. */
  datatype Sweep<S> = Sweep(shape: S, length: real)

  /** A transform without offset. */
  predicate IsPureRotation<S>(t: Transform<S>) { t.offset == Zero3 }

  /** A transform without rotation. */
  predicate IsPureTranslation<S>(t: Transform<S>) { t.angle == 0.0 }

  /** `Rotate::rotate`: rotation about `axis` by `angle`, with no offset. */
  function Rotate<T, S>(receiver: T, into: T -> S, axis: Vec3, angle: real): (t: Transform<S>)
    ensures t.shape == into(receiver) && t.axis == axis && t.angle == angle
    ensures IsPureRotation(t)
  {
    Transform(into(receiver), axis, angle, Zero3)
  }

  /** `Translate::translate`: the offset, about the x axis by angle zero. */
  function Translate<T, S>(receiver: T, into: T -> S, offset: Vec3): (t: Transform<S>)
    ensures t.shape == into(receiver) && t.offset == offset && t.axis == UnitX
    ensures IsPureTranslation(t)
  {
    Transform(into(receiver), UnitX, 0.0, offset)
  }

  /** `Union::union`: the receiver is `a`, the other shape `b`. */
  function UnionOf<T, U, S>(receiver: T, into: T -> S, other: U, intoOther: U -> S): (u: Union<S>)
    ensures u.a == into(receiver) && u.b == intoOther(other)
  {
    Union(into(receiver), intoOther(other))
  }

  /** `Sketch::sketch`: the receiver's points, unchanged and in order. */
  function SketchOf(points: seq<Pt2>): (s: Sketch)
    ensures |s.points| == |points| && forall i :: 0 <= i < |points| ==> s.points[i] == points[i]
  {
    Sketch(points)
  }

  /** `Sweep::sweep`: the receiver's shape and the length, unchanged. */
  function SweepOf<T, S>(receiver: T, into: T -> S, length: real): (s: Sweep<S>)
    ensures s.shape == into(receiver) && s.length == length
  {
    Sweep(into(receiver), length)
  }
}
