/** Points and rectangles of src/lib.rs (PointT, RectT), with integer coordinates. */
module Geometry {
  import opened Common

  /** PointT: a structural value, so equality is componentwise (derived PartialEq/Eq/Hash). */
  datatype Point = Point(x: int, y: int)

  /** RectT: note that `width` and `height` are used as absolute upper bounds by IsInside. */
  datatype Rect = Rect(x: int, y: int, width: int, height: int)

  /** Componentwise addition (impl Add for PointT). */
  function Add(p: Point, q: Point): (r: Point)
    ensures r.x - q.x == p.x && r.y - q.y == p.y
  {
    Point(p.x + q.x, p.y + q.y)
  }

  /** Componentwise subtraction; used by the solvers but not defined in src/lib.rs. */
  function Sub(p: Point, q: Point): (r: Point)
    ensures Add(r, q) == p
  {
    Point(p.x - q.x, p.y - q.y)
  }

  /** Manhattan distance (PointT::distance). */
  function Distance(p: Point, q: Point): (d: nat)
    ensures d == 0 <==> p == q
    ensures d >= Abs(p.x - q.x) && d >= Abs(p.y - q.y)
  {
    Abs(p.x - q.x) + Abs(p.y - q.y)
  }

  /** RectT::is_inside: lower bounds are the corner, upper bounds are width/height themselves. */
  predicate IsInside(r: Rect, p: Point)
  {
    r.x <= p.x < r.width && r.y <= p.y < r.height
  }

  lemma AddCommutative(p: Point, q: Point)
    ensures Add(p, q) == Add(q, p)
  {
  }

  lemma AddAssociative(p: Point, q: Point, s: Point)
    ensures Add(Add(p, q), s) == Add(p, Add(q, s))
  {
  }

  lemma DistanceSymmetric(p: Point, q: Point)
    ensures Distance(p, q) == Distance(q, p)
  {
  }

  lemma DistanceTranslation(p: Point, q: Point, v: Point)
    ensures Distance(Add(p, v), Add(q, v)) == Distance(p, q)
  {
  }

  lemma DistanceTriangle(p: Point, q: Point, s: Point)
    ensures Distance(p, s) <= Distance(p, q) + Distance(q, s)
  {
  }

  /** A rectangle whose corner is not the origin still bounds points by width/height,
      not by x + width / y + height. */
  lemma IsInsideUsesAbsoluteBounds(r: Rect, p: Point)
    requires r.x > 0 && r.width > 0
    requires p.x == r.width && r.y <= p.y < r.height
    ensures !IsInside(r, p)
  {
  }
}
