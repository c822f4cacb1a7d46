/** Concrete rays against the unit right triangle `(0,0,0)`, `(1,0,0)`,
    `(0,1,0)` in the plane `z = 0`, and concrete reflections: the edge cases
    of the tolerance and of the barycentric bounds. Each lemma takes the
    vertices as parameters pinned by `IsUnitTriangle` rather than as
    literals, so that the verifier reaches the test through the short
    reduction `UnitTriangle` instead of unfolding every triple product on
    literal vectors, which is far slower. */
module Scenarios {
  import opened Vectors
  import opened Options
  import opened Intersection
  import opened Surface

  /** The unit right triangle. */
  predicate IsUnitTriangle(v0: Vec3, v1: Vec3, v2: Vec3) {
    v0 == Vec3(0.0, 0.0, 0.0) && v1 == Vec3(1.0, 0.0, 0.0) && v2 == Vec3(0.0, 1.0, 0.0)
  }

  /** Against the unit triangle the determinant is `-d.z`, and the test
      reduces to its comparisons on four short polynomials in `p` and `d`. */
  lemma UnitTriangle(p: Vec3, d: Vec3, v0: Vec3, v1: Vec3, v2: Vec3)
    requires IsUnitTriangle(v0, v1, v2)
    ensures Determinant(d, v0, v1, v2) == -d.z
    ensures RayTriangleIntersect(p, d, v0, v1, v2)
         == Decide(-d.z, p.z * d.x - p.x * d.z, d.y * p.z - d.z * p.y, p.z)
  {
    DecideOnTriples(p, d, v0, v1, v2);
    var e1, e2, s := Sub(v1, v0), Sub(v2, v0), Sub(p, v0);
    assert e1 == Vec3(1.0, 0.0, 0.0) && e2 == Vec3(0.0, 1.0, 0.0) && s == p;
    assert Triple(e1, d, e2) == -d.z;
    assert Triple(s, d, e2) == p.z * d.x - p.x * d.z;
    assert Triple(d, s, e1) == d.y * p.z - d.z * p.y;
    assert Triple(e2, s, e1) == p.z;
  }

  /** Straight down onto the interior, from height 1. */
  lemma CentreHit(v0: Vec3, v1: Vec3, v2: Vec3)
    requires IsUnitTriangle(v0, v1, v2)
    ensures RayTriangleIntersect(Vec3(0.25, 0.25, 1.0), Vec3(0.0, 0.0, -1.0), v0, v1, v2) == Some((1.0, 0.25, 0.25))
  {
    UnitTriangle(Vec3(0.25, 0.25, 1.0), Vec3(0.0, 0.0, -1.0), v0, v1, v2);
  }

  /** A ray parallel to the triangle's plane is rejected. */
  lemma ParallelMiss(v0: Vec3, v1: Vec3, v2: Vec3)
    requires IsUnitTriangle(v0, v1, v2)
    ensures RayTriangleIntersect(Vec3(0.0, 0.0, 1.0), Vec3(1.0, 0.0, 0.0), v0, v1, v2) == None
  {
    UnitTriangle(Vec3(0.0, 0.0, 1.0), Vec3(1.0, 0.0, 0.0), v0, v1, v2);
  }

  /** A triangle behind the ray's origin is not hit. */
  lemma BehindMiss(v0: Vec3, v1: Vec3, v2: Vec3)
    requires IsUnitTriangle(v0, v1, v2)
    ensures RayTriangleIntersect(Vec3(0.25, 0.25, -1.0), Vec3(0.0, 0.0, -1.0), v0, v1, v2) == None
  {
    UnitTriangle(Vec3(0.25, 0.25, -1.0), Vec3(0.0, 0.0, -1.0), v0, v1, v2);
  }

  /** A point of the plane past the edge `u + v = 1` is not hit. */
  lemma OutsideMiss(v0: Vec3, v1: Vec3, v2: Vec3)
    requires IsUnitTriangle(v0, v1, v2)
    ensures RayTriangleIntersect(Vec3(0.75, 0.75, 1.0), Vec3(0.0, 0.0, -1.0), v0, v1, v2) == None
  {
    UnitTriangle(Vec3(0.75, 0.75, 1.0), Vec3(0.0, 0.0, -1.0), v0, v1, v2);
  }

  /** The barycentric bounds are inclusive: the vertex `v0` is hit with
      `u = v = 0`. */
  lemma VertexHit(v0: Vec3, v1: Vec3, v2: Vec3)
    requires IsUnitTriangle(v0, v1, v2)
    ensures RayTriangleIntersect(Vec3(0.0, 0.0, 1.0), Vec3(0.0, 0.0, -1.0), v0, v1, v2) == Some((1.0, 0.0, 0.0))
  {
    UnitTriangle(Vec3(0.0, 0.0, 1.0), Vec3(0.0, 0.0, -1.0), v0, v1, v2);
  }

  /** The vertex `v1` is hit with `u = 1`. */
  lemma UpperBoundHit(v0: Vec3, v1: Vec3, v2: Vec3)
    requires IsUnitTriangle(v0, v1, v2)
    ensures RayTriangleIntersect(Vec3(1.0, 0.0, 1.0), Vec3(0.0, 0.0, -1.0), v0, v1, v2) == Some((1.0, 1.0, 0.0))
  {
    UnitTriangle(Vec3(1.0, 0.0, 1.0), Vec3(0.0, 0.0, -1.0), v0, v1, v2);
  }

  /** A point of the edge `u + v = 1` is hit. */
  lemma EdgeHit(v0: Vec3, v1: Vec3, v2: Vec3)
    requires IsUnitTriangle(v0, v1, v2)
    ensures RayTriangleIntersect(Vec3(0.5, 0.5, 1.0), Vec3(0.0, 0.0, -1.0), v0, v1, v2) == Some((1.0, 0.5, 0.5))
  {
    UnitTriangle(Vec3(0.5, 0.5, 1.0), Vec3(0.0, 0.0, -1.0), v0, v1, v2);
  }

  /** The distance bound is strict: a hit at distance exactly `Epsilon` is
      not reported. */
  lemma DistanceAtTolerance(v0: Vec3, v1: Vec3, v2: Vec3)
    requires IsUnitTriangle(v0, v1, v2)
    ensures RayTriangleIntersect(Vec3(0.25, 0.25, Epsilon), Vec3(0.0, 0.0, -1.0), v0, v1, v2) == None
  {
    UnitTriangle(Vec3(0.25, 0.25, Epsilon), Vec3(0.0, 0.0, -1.0), v0, v1, v2);
  }

  /** A hit at twice the tolerance is reported. */
  lemma DistanceBeyondTolerance(v0: Vec3, v1: Vec3, v2: Vec3)
    requires IsUnitTriangle(v0, v1, v2)
    ensures RayTriangleIntersect(Vec3(0.25, 0.25, 2.0 * Epsilon), Vec3(0.0, 0.0, -1.0), v0, v1, v2)
         == Some((2.0 * Epsilon, 0.25, 0.25))
  {
    var p, d := Vec3(0.25, 0.25, 2.0 * Epsilon), Vec3(0.0, 0.0, -1.0);
    UnitTriangle(p, d, v0, v1, v2);
    assert -d.z == 1.0;
    assert p.z * d.x - p.x * d.z == 0.25;
    assert d.y * p.z - d.z * p.y == 0.25;
    assert Decide(1.0, 0.25, 0.25, 2.0 * Epsilon) == Some((2.0 * Epsilon, 0.25, 0.25));
  }

  /** The parallel band is open: determinants of exactly `Epsilon` and
      `-Epsilon` are not rejected. */
  lemma DeterminantAtTolerance(v0: Vec3, v1: Vec3, v2: Vec3)
    requires IsUnitTriangle(v0, v1, v2)
    ensures Determinant(Vec3(0.0, 0.0, -Epsilon), v0, v1, v2) == Epsilon
    ensures RayTriangleIntersect(Vec3(0.25, 0.25, 1.0), Vec3(0.0, 0.0, -Epsilon), v0, v1, v2)
         == Some((1.0 / Epsilon, 0.25, 0.25))
    ensures Determinant(Vec3(0.0, 0.0, Epsilon), v0, v1, v2) == -Epsilon
    ensures RayTriangleIntersect(Vec3(0.25, 0.25, -1.0), Vec3(0.0, 0.0, Epsilon), v0, v1, v2)
         == Some((1.0 / Epsilon, 0.25, 0.25))
  {
    UnitTriangle(Vec3(0.25, 0.25, 1.0), Vec3(0.0, 0.0, -Epsilon), v0, v1, v2);
    assert Decide(Epsilon, 0.25 * Epsilon, 0.25 * Epsilon, 1.0) == Some((1.0 / Epsilon, 0.25, 0.25));
    UnitTriangle(Vec3(0.25, 0.25, -1.0), Vec3(0.0, 0.0, Epsilon), v0, v1, v2);
    assert Decide(-Epsilon, -0.25 * Epsilon, -0.25 * Epsilon, -1.0) == Some((1.0 / Epsilon, 0.25, 0.25));
  }

  /** A determinant strictly inside the band, half the tolerance, is
      rejected ... */
  lemma DeterminantInsideBand(v0: Vec3, v1: Vec3, v2: Vec3)
    requires IsUnitTriangle(v0, v1, v2)
    ensures RayTriangleIntersect(Vec3(0.25, 0.25, 1.0), Vec3(0.0, 0.0, -0.000005), v0, v1, v2) == None
  {
    UnitTriangle(Vec3(0.25, 0.25, 1.0), Vec3(0.0, 0.0, -0.000005), v0, v1, v2);
  }

  /** ... even though that ray does meet the triangle, at distance
      `200000`. */
  lemma InsideBandGeometricHit()
    ensures Hit(Vec3(0.25, 0.25, 1.0), Vec3(0.0, 0.0, -0.000005),
                Vec3(0.0, 0.0, 0.0), Vec3(1.0, 0.0, 0.0), Vec3(0.0, 1.0, 0.0), 200000.0, 0.25, 0.25)
  {
  }

  /** The unit triangle's edge cross points up ... */
  lemma UnitTriangleEdgeCross(v0: Vec3, v1: Vec3, v2: Vec3)
    requires IsUnitTriangle(v0, v1, v2)
    ensures EdgeCross(v0, v1, v2) == Vec3(0.0, 0.0, 1.0)
  {
    assert Sub(v1, v0) == Vec3(1.0, 0.0, 0.0) && Sub(v2, v0) == Vec3(0.0, 1.0, 0.0);
  }

  /** ... and with the winding reversed, down. */
  lemma ReversedUnitTriangleEdgeCross(v0: Vec3, v1: Vec3, v2: Vec3)
    requires IsUnitTriangle(v0, v1, v2)
    ensures EdgeCross(v0, v2, v1) == Vec3(0.0, 0.0, -1.0)
  {
    assert Sub(v1, v0) == Vec3(1.0, 0.0, 0.0) && Sub(v2, v0) == Vec3(0.0, 1.0, 0.0);
  }

  /** A ray leaving a floor at 45 degrees is mirrored about the normal; the
      normal itself reflects onto itself. */
  lemma FloorReflection(n: Vec3, i: Vec3)
    requires n == Vec3(0.0, 1.0, 0.0) && i == Vec3(1.0, 1.0, 0.0)
    ensures Reflect(n, i) == Vec3(-1.0, 1.0, 0.0)
    ensures Reflect(n, n) == n
  {
  }

}
