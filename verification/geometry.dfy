/**
  Planar landmark geometry: points in normalised image coordinates, the
  zero-length guard of `find_angles`, and the synthetic "virtual point" that
  stands directly above the ear.

  The arccos/degrees computation itself is floating-point transcendental
  maths; it is kept uninterpreted as a parameter `arc` that maps the two
  rays leaving the vertex to an angle in degrees.
*/
module Geometry {

  /** A landmark position (x, y) as reported by the pose detector. */
  datatype Point = Point(x: real, y: real)

  /** The uninterpreted angle between two rays, in degrees. */
  type Arc = (Point, Point) -> real

  /** The vertical offset, in normalised coordinates, of the virtual point. */
  const VirtualOffset: real := 0.1

  /** The ray from `from` to `to`, as a vector. */
  function Ray(from: Point, to: Point): Point
  {
    Point(to.x - from.x, to.y - from.y)
  }

  /**
    True when a ray has zero Euclidean length. The source computes the
    length as the square root of the sum of the squared components and
    compares it with zero; that length is zero exactly when both components
    are, which is the test made here.
  */
  predicate ZeroLength(v: Point)
  {
    v.x == 0.0 && v.y == 0.0
  }

  /**
    `find_angles(v1, v2, v3)`: the angle at vertex `v2` between the rays to
    `v1` and `v3`, or the sentinel 0 when either ray has zero length.
  */
  function FindAngle(arc: Arc, v1: Point, v2: Point, v3: Point): (angle: real)
    ensures v1 == v2 || v3 == v2 ==> angle == 0.0
    ensures v1 != v2 && v3 != v2 ==> angle == arc(Ray(v2, v1), Ray(v2, v3))
  {
    if ZeroLength(Ray(v2, v1)) || ZeroLength(Ray(v2, v3)) then 0.0
    else arc(Ray(v2, v1), Ray(v2, v3))
  }

  /** The reference point directly above the ear: same x, y reduced by 0.1. */
  function VirtualPoint(ear: Point): (v: Point)
    ensures v.x == ear.x && ear.y - v.y == 0.1
  {
    Point(ear.x, ear.y - VirtualOffset)
  }

  /**
    The neck angle is measured at the ear between the shoulder and the
    virtual point. The virtual point never coincides with the ear, so the
    zero sentinel appears exactly when the shoulder sits on the ear.
  */
  lemma NeckAngleGuard(arc: Arc, shoulder: Point, ear: Point)
    ensures VirtualPoint(ear) != ear
    ensures FindAngle(arc, shoulder, ear, VirtualPoint(ear)) ==
            if shoulder == ear then 0.0
            else arc(Ray(ear, shoulder), Point(0.0, -0.1))
  {
    assert Ray(ear, VirtualPoint(ear)) == Point(0.0, -0.1);
  }
}
