/**
  `Pnt2`: a 2D point whose coordinates are `R32` values -- f32 values that
  are neither NaN nor infinite, and therefore totally ordered. An `R32` is
  modelled by its real value; a raw `f32` by `F32`, which can also be an
  infinity or NaN.
 */
module Pnt2 {
  import opened Wrappers

  /** A raw IEEE f32: finite (with its value), an infinity, or NaN. */
  datatype F32 = Finite(value: real) | Infinite(negative: bool) | NaN

  /** `nalgebra::Point2<f32>`. */
  datatype Point2F32 = Point2F32(x: F32, y: F32)

  /** `Pnt2(Point2<R32>)`. */
  datatype Pnt2 = Pnt2(x: real, y: real)

  /** `std::cmp::Ordering`. */
  datatype Ordering = Less | Equal | Greater

  /** `R32::from_inner` panics when its argument is NaN or infinite. */
  datatype Panic = NotReal

  /** `Pnt2::new(x, y)`. */
  function New(x: real, y: real): (p: Pnt2)
    ensures p.x == x && p.y == y
  {
    Pnt2(x, y)
  }

  /** `Ord::cmp` of `R32`, the total order of the real numbers it holds. */
  function CmpScalar(a: real, b: real): (o: Ordering)
    ensures o == Less <==> a < b
    ensures o == Equal <==> a == b
    ensures o == Greater <==> a > b
  {
    if a < b then Less else if a == b then Equal else Greater
  }

  /** `PartialOrd::partial_cmp` of `R32`: always defined for real values. */
  function PartialCmpScalar(a: real, b: real): Option<Ordering>
  {
    Some(CmpScalar(a, b))
  }

  /** `Ord::cmp` for `Pnt2`: the comparison of the tuples `(x, y)`. */
  function Cmp(p: Pnt2, q: Pnt2): (o: Ordering)
    ensures o == Less <==> p.x < q.x || (p.x == q.x && p.y < q.y)
    ensures o == Equal <==> p == q
    ensures o == Greater <==> p.x > q.x || (p.x == q.x && p.y > q.y)
  {
    match CmpScalar(p.x, q.x)
    case Equal => CmpScalar(p.y, q.y)
    case other => other
  }

  /** `PartialOrd::partial_cmp` for `Pnt2`: tuple comparison over `partial_cmp`. */
  function PartialCmp(p: Pnt2, q: Pnt2): (o: Option<Ordering>)
    ensures o == Some(Cmp(p, q))
  {
    match PartialCmpScalar(p.x, q.x)
    case Some(Equal) => PartialCmpScalar(p.y, q.y)
    case other => other
  }

  /** The operators `<`, `<=`, `>`, which Rust derives from `partial_cmp`. */
  predicate Lt(p: Pnt2, q: Pnt2) { PartialCmp(p, q) == Some(Less) }
  predicate Le(p: Pnt2, q: Pnt2) { PartialCmp(p, q) == Some(Less) || PartialCmp(p, q) == Some(Equal) }
  predicate Gt(p: Pnt2, q: Pnt2) { PartialCmp(p, q) == Some(Greater) }

  /** `Cmp` is a total order: reflexive, antisymmetric, transitive, total. */
  lemma CmpIsTotalOrder(p: Pnt2, q: Pnt2, r: Pnt2)
    ensures Le(p, p)
    ensures Le(p, q) && Le(q, p) ==> p == q
    ensures Le(p, q) && Le(q, r) ==> Le(p, r)
    ensures Le(p, q) || Le(q, p)
  {
  }

  /** Swapping the operands reverses the answer. */
  lemma CmpFlips(p: Pnt2, q: Pnt2)
    ensures Cmp(p, q) == Less <==> Cmp(q, p) == Greater
    ensures Cmp(p, q) == Equal <==> Cmp(q, p) == Equal
  {
  }

  /** Points built by `new` compare lexicographically by those arguments. */
  lemma NewOrdersLexicographically(x1: real, y1: real, x2: real, y2: real)
    ensures Lt(New(x1, y1), New(x2, y2)) <==> x1 < x2 || (x1 == x2 && y1 < y2)
    ensures Cmp(New(x1, y1), New(x2, y2)) == Equal <==> x1 == x2 && y1 == y2
  {
  }

  /** The test `points_should_have_defined_order`. */
  lemma DefinedOrderExample()
    ensures !Gt(New(0.0, 1.0), New(1.0, 0.0))
    ensures Lt(New(0.0, 1.0), New(1.0, 0.0))
    ensures Gt(New(1.0, 0.0), New(0.0, 1.0))
    ensures !Lt(New(1.0, 0.0), New(0.0, 1.0))
  {
  }

  /** `R32::from_inner`. */
  function FromInner(f: F32): (r: Result<real, Panic>)
    ensures r.Ok? <==> f.Finite?
    ensures r.Ok? ==> r.value == f.value
  {
    match f
    case Finite(v) => Ok(v)
    case _ => Err(NotReal)
  }

  /** `From<Point2<f32>> for Pnt2` (and the same for `&Point2<f32>`). */
  function FromPoint2F32(p: Point2F32): (r: Result<Pnt2, Panic>)
    ensures r.Ok? <==> p.x.Finite? && p.y.Finite?
    ensures r.Ok? ==> r.value == Pnt2(p.x.value, p.y.value)
  {
    match (FromInner(p.x), FromInner(p.y))
    case (Ok(x), Ok(y)) => Ok(Pnt2(x, y))
    case _ => Err(NotReal)
  }

  /** `From<Pnt2> for Point2<f32>` (and the same for `&Pnt2`): `into_inner`. */
  function ToPoint2F32(p: Pnt2): (r: Point2F32)
    ensures r.x.Finite? && r.y.Finite?
  {
    Point2F32(Finite(p.x), Finite(p.y))
  }

  /** Out to f32 and back in gives the same point. */
  lemma PointRoundTrip(p: Pnt2)
    ensures FromPoint2F32(ToPoint2F32(p)) == Ok(p)
  {
  }

  /** In from f32 and back out gives the same coordinates, for accepted values. */
  lemma Point2F32RoundTrip(p: Point2F32)
    requires FromPoint2F32(p).Ok?
    ensures ToPoint2F32(FromPoint2F32(p).value) == p
  {
  }
}
