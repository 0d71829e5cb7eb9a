/**
 Axis-aligned boxes in world space, as the collision test of main.js uses them:
 the centre and size of a box, the "forgiving" box shrunk to 80% about its own
 centre, and the closed-interval overlap test between two boxes.
 */
module Geometry {

  datatype Vec3 = Vec3(x: real, y: real, z: real)

  /** A box given by its minimum and maximum corners. */
  datatype Box = Box(min: Vec3, max: Vec3)

  /** Fraction of each side kept by the forgiving collision box. */
  const Leniency: real := 0.8

  function Scale(v: Vec3, f: real): Vec3 {
    Vec3(v.x * f, v.y * f, v.z * f)
  }

  function Center(b: Box): Vec3 {
    Vec3((b.min.x + b.max.x) / 2.0, (b.min.y + b.max.y) / 2.0, (b.min.z + b.max.z) / 2.0)
  }

  function Size(b: Box): Vec3 {
    Vec3(b.max.x - b.min.x, b.max.y - b.min.y, b.max.z - b.min.z)
  }

  /** The box with the given centre and size; the inverse of (Center, Size). */
  function CenteredBox(c: Vec3, size: Vec3): (b: Box)
    ensures Center(b) == c
    ensures Size(b) == size
  {
    Box(Vec3(c.x - size.x / 2.0, c.y - size.y / 2.0, c.z - size.z / 2.0),
        Vec3(c.x + size.x / 2.0, c.y + size.y / 2.0, c.z + size.z / 2.0))
  }

  /** A box whose minimum corner is below its maximum corner on every axis. */
  predicate WellFormed(b: Box) {
    b.min.x <= b.max.x && b.min.y <= b.max.y && b.min.z <= b.max.z
  }

  predicate Contains(b: Box, p: Vec3) {
    b.min.x <= p.x <= b.max.x && b.min.y <= p.y <= b.max.y && b.min.z <= p.z <= b.max.z
  }

  predicate Within(inner: Box, outer: Box) {
    && outer.min.x <= inner.min.x && inner.max.x <= outer.max.x
    && outer.min.y <= inner.min.y && inner.max.y <= outer.max.y
    && outer.min.z <= inner.min.z && inner.max.z <= outer.max.z
  }

  /** The collision box of a pipe: same centre, every side multiplied by 0.8. */
  function Forgiving(b: Box): (r: Box)
    ensures Center(r) == Center(b)
    ensures Size(r) == Scale(Size(b), 0.8)
    ensures WellFormed(b) ==> WellFormed(r) && Within(r, b)
  {
    CenteredBox(Center(b), Scale(Size(b), 0.8))
  }

  /**
   The overlap test of `a.intersectsBox(b)`: two boxes meet unless one lies
   strictly beyond the other on some axis, so touching faces count as a hit.
   */
  predicate Intersects(a: Box, b: Box) {
    !(b.max.x < a.min.x || b.min.x > a.max.x
      || b.max.y < a.min.y || b.min.y > a.max.y
      || b.max.z < a.min.z || b.min.z > a.max.z)
  }

  function Max(a: real, b: real): real {
    if a < b then b else a
  }

  /** For well-formed boxes the separating-axis test means "they share a point". */
  lemma IntersectsIffSharedPoint(a: Box, b: Box)
    requires WellFormed(a) && WellFormed(b)
    ensures Intersects(a, b) <==> exists p :: Contains(a, p) && Contains(b, p)
  {
    if Intersects(a, b) {
      var p := Vec3(Max(a.min.x, b.min.x), Max(a.min.y, b.min.y), Max(a.min.z, b.min.z));
      assert Contains(a, p) && Contains(b, p);
    }
  }

  /** Touching counts: two boxes that share only a face still intersect. */
  lemma TouchingFacesIntersect(a: Box, b: Box)
    requires WellFormed(a) && WellFormed(b)
    requires b.min.x == a.max.x
    requires a.min.y <= b.max.y && b.min.y <= a.max.y
    requires a.min.z <= b.max.z && b.min.z <= a.max.z
    ensures Intersects(a, b)
  {
  }

  /** Hitting the forgiving box of a well-formed box implies hitting the box itself. */
  lemma ForgivingHitIsHit(a: Box, b: Box)
    requires WellFormed(b)
    requires Intersects(a, Forgiving(b))
    ensures Intersects(a, b)
  {
  }
}
