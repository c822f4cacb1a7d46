/** The Moller-Trumbore ray/triangle test of `ray_triangle_intersect`,
    over exact reals. A ray starts at `p` and heads along `d`; the triangle
    has vertices `v0`, `v1`, `v2`. A hit is reported as `(t, u, v)`: the
    distance along the ray and the barycentric coordinates relative to `v0`. */
module Intersection {
  import opened Vectors
  import opened Options
  import opened Surface

  /** The one tolerance the test uses, both for the near-parallel rejection
      and for the forward-distance check. */
  const Epsilon: real := 0.00001

  /** `ray_triangle_intersect(p, d, v0, v1, v2)`: the vector products of
      the test, handed to `Decide` for the comparisons. */
  function RayTriangleIntersect(p: Vec3, d: Vec3, v0: Vec3, v1: Vec3, v2: Vec3): (r: Option<(real, real, real)>)
    ensures NearParallel(Determinant(d, v0, v1, v2)) ==> r == None
    ensures r.Some? ==> InRange(r.value.0, r.value.1, r.value.2)
  {
    var e1 := Sub(v1, v0);
    var e2 := Sub(v2, v0);
    var h := Cross(d, e2);
    var s := Sub(p, v0);
    var q := Cross(s, e1);
    Decide(Dot(e1, h), Dot(s, h), Dot(d, q), Dot(e2, q))
  }

  /** The comparisons of `ray_triangle_intersect`, in the source's order, on
      the determinant `a = e1 . h` and the three numerators `s . h`,
      `d . q` and `e2 . q`: each of `u`, `v` and `t` is its numerator
      times `f = 1 / a`. */
  function Decide(a: real, sh: real, dq: real, eq: real): (r: Option<(real, real, real)>)
    ensures NearParallel(a) ==> r == None
    ensures r.Some? ==> InRange(r.value.0, r.value.1, r.value.2)
    ensures r.Some? ==> eq == r.value.0 * a && sh == r.value.1 * a && dq == r.value.2 * a
  {
    if a > -Epsilon && a < Epsilon then None
    else
      var f := 1.0 / a;
      var u := f * sh;
      if u < 0.0 || u > 1.0 then None
      else
        var v := f * dq;
        if v < 0.0 || u + v > 1.0 then None
        else
          var t := f * eq;
          if t > Epsilon then Some((t, u, v)) else None
  }

  /** Outside the rejection band, `Decide` reports any solution of
      `eq == t a`, `sh == u a`, `dq == v a` exactly when it is in range. */
  lemma DecideAccepts(a: real, sh: real, dq: real, eq: real, t: real, u: real, v: real)
    requires !NearParallel(a)
    requires eq == t * a && sh == u * a && dq == v * a
    ensures Decide(a, sh, dq, eq) == if InRange(t, u, v) then Some((t, u, v)) else None
  {
    Cancel(a, (1.0 / a) * eq, t);
    Cancel(a, (1.0 / a) * sh, u);
    Cancel(a, (1.0 / a) * dq, v);
  }

  /** `x` and `y` agree when `x * a` and `y * a` do and `a` is not zero. */
  lemma Cancel(a: real, x: real, y: real)
    requires a != 0.0 && x * a == y * a
    ensures x == y
  {
    assert (x - y) * a == 0.0;
  }

  /** The four numbers the test hands to `Decide` are triple products of the
      edges, the direction and `s = p - v0`. */
  lemma DecideOnTriples(p: Vec3, d: Vec3, v0: Vec3, v1: Vec3, v2: Vec3)
    ensures var e1, e2, s := Sub(v1, v0), Sub(v2, v0), Sub(p, v0);
            RayTriangleIntersect(p, d, v0, v1, v2)
              == Decide(Triple(e1, d, e2), Triple(s, d, e2), Triple(d, s, e1), Triple(e2, s, e1))
  {
  }

  /** The quantity `a` the test compares against the tolerance: the triple
      product of the first edge, the direction and the second edge; by
      `DeterminantAgainstNormal` it is minus the component of the direction
      along the triangle's edge cross. */
  function Determinant(d: Vec3, v0: Vec3, v1: Vec3, v2: Vec3): real {
    Triple(Sub(v1, v0), d, Sub(v2, v0))
  }

  /** The determinant is minus the dot product of the direction with the
      edge cross behind `triangle_normal`. */
  lemma DeterminantAgainstNormal(d: Vec3, v0: Vec3, v1: Vec3, v2: Vec3)
    ensures Determinant(d, v0, v1, v2) == -Dot(d, EdgeCross(v0, v1, v2))
  {
    var e1, e2 := Sub(v1, v0), Sub(v2, v0);
    TripleCyclic(e1, d, e2);
    TripleSwap(d, e2, e1);
  }

  /** A ray whose direction is perpendicular to the edge cross, that is
      parallel to the triangle's plane, is never reported, and neither is
      any ray of a degenerate triangle. */
  lemma ParallelRayMissed(p: Vec3, d: Vec3, v0: Vec3, v1: Vec3, v2: Vec3)
    requires Dot(d, EdgeCross(v0, v1, v2)) == 0.0
    ensures RayTriangleIntersect(p, d, v0, v1, v2) == None
  {
    DeterminantAgainstNormal(d, v0, v1, v2);
  }

  /** The rejection band of the parallel test; both bounds are strict. */
  predicate NearParallel(a: real) {
    -Epsilon < a < Epsilon
  }

  /** The range checks a reported hit passes: barycentric bounds are
      inclusive, the distance bound is exclusive. */
  predicate InRange(t: real, u: real, v: real) {
    0.0 <= u <= 1.0 && 0.0 <= v && u + v <= 1.0 && t > Epsilon
  }

  /** The point at distance `t` along the ray, `p + t d`. */
  function PointOnRay(p: Vec3, d: Vec3, t: real): Vec3 {
    Vec3(p.x + t * d.x, p.y + t * d.y, p.z + t * d.z)
  }

  /** The point with barycentric coordinates `(1 - u - v, u, v)`. */
  function Barycentric(v0: Vec3, v1: Vec3, v2: Vec3, u: real, v: real): Vec3 {
    Vec3((1.0 - u - v) * v0.x + u * v1.x + v * v2.x,
         (1.0 - u - v) * v0.y + u * v1.y + v * v2.y,
         (1.0 - u - v) * v0.z + u * v1.z + v * v2.z)
  }

  /** The geometric meaning of a hit: `(t, u, v)` are in range and the point
      at distance `t` on the ray is the point of the triangle with
      coordinates `(u, v)`. */
  predicate Hit(p: Vec3, d: Vec3, v0: Vec3, v1: Vec3, v2: Vec3, t: real, u: real, v: real) {
    InRange(t, u, v) && PointOnRay(p, d, t) == Barycentric(v0, v1, v2, u, v)
  }

  /** Cramer's rule for `s = u e1 + v e2 - t d`, with `s = p - v0`: the
      determinant is outside the rejection band and each of `t`, `u`, `v`
      times it is the triple product the test forms for it. */
  predicate Quotients(p: Vec3, d: Vec3, v0: Vec3, v1: Vec3, v2: Vec3, t: real, u: real, v: real) {
    var e1, e2, s := Sub(v1, v0), Sub(v2, v0), Sub(p, v0);
    var a := Triple(e1, d, e2);
    && !NearParallel(a)
    && Triple(e2, s, e1) == t * a
    && Triple(s, d, e2) == u * a
    && Triple(d, s, e1) == v * a
  }

  /** The test reports `(t, u, v)` exactly when they solve the system by
      Cramer's rule and are in range. */
  lemma ReportedIff(p: Vec3, d: Vec3, v0: Vec3, v1: Vec3, v2: Vec3, t: real, u: real, v: real)
    ensures RayTriangleIntersect(p, d, v0, v1, v2) == Some((t, u, v))
        <==> Quotients(p, d, v0, v1, v2, t, u, v) && InRange(t, u, v)
  {
    if RayTriangleIntersect(p, d, v0, v1, v2) == Some((t, u, v)) {
      ReportedSolves(p, d, v0, v1, v2, t, u, v);
    }
    if Quotients(p, d, v0, v1, v2, t, u, v) && InRange(t, u, v) {
      ReportedWhen(p, d, v0, v1, v2, t, u, v);
    }
  }

  /** A reported `(t, u, v)` solves the system by Cramer's rule. */
  lemma ReportedSolves(p: Vec3, d: Vec3, v0: Vec3, v1: Vec3, v2: Vec3, t: real, u: real, v: real)
    requires RayTriangleIntersect(p, d, v0, v1, v2) == Some((t, u, v))
    ensures Quotients(p, d, v0, v1, v2, t, u, v)
  {
    DecideOnTriples(p, d, v0, v1, v2);
  }

  /** A solution by Cramer's rule that is in range is reported. */
  lemma ReportedWhen(p: Vec3, d: Vec3, v0: Vec3, v1: Vec3, v2: Vec3, t: real, u: real, v: real)
    requires Quotients(p, d, v0, v1, v2, t, u, v) && InRange(t, u, v)
    ensures RayTriangleIntersect(p, d, v0, v1, v2) == Some((t, u, v))
  {
    var e1, e2, s := Sub(v1, v0), Sub(v2, v0), Sub(p, v0);
    DecideOnTriples(p, d, v0, v1, v2);
    DecideAccepts(Triple(e1, d, e2), Triple(s, d, e2), Triple(d, s, e1), Triple(e2, s, e1), t, u, v);
  }

  /** A solution by Cramer's rule lies both on the ray and on the triangle. */
  lemma QuotientsOnRayAndTriangle(p: Vec3, d: Vec3, v0: Vec3, v1: Vec3, v2: Vec3, t: real, u: real, v: real)
    requires Quotients(p, d, v0, v1, v2, t, u, v)
    ensures PointOnRay(p, d, t) == Barycentric(v0, v1, v2, u, v)
  {
    CramerSolve(Sub(p, v0), d, Sub(v1, v0), Sub(v2, v0), t, u, v);
    EdgeFormOnRay(p, d, v0, v1, v2, t, u, v);
  }

  /** `s == u e1 + v e2 - t d`, component by component. */
  predicate Combination(s: Vec3, d: Vec3, e1: Vec3, e2: Vec3, t: real, u: real, v: real) {
    && s.x == (u * e1.x + v * e2.x) - t * d.x
    && s.y == (u * e1.y + v * e2.y) - t * d.y
    && s.z == (u * e1.z + v * e2.z) - t * d.z
  }

  /** Cramer's rule: when the determinant `[e1 d e2]` is outside the
      rejection band and `t`, `u`, `v` times it are `[e2 s e1]`, `[s d e2]`
      and `[d s e1]`, then `s == u e1 + v e2 - t d`. */
  lemma CramerSolve(s: Vec3, d: Vec3, e1: Vec3, e2: Vec3, t: real, u: real, v: real)
    requires !NearParallel(Triple(e1, d, e2))
    requires Triple(e2, s, e1) == t * Triple(e1, d, e2)
    requires Triple(s, d, e2) == u * Triple(e1, d, e2)
    requires Triple(d, s, e1) == v * Triple(e1, d, e2)
    ensures Combination(s, d, e1, e2, t, u, v)
  {
    CramerSolveX(s, d, e1, e2, t, u, v);
    CramerSolveY(s, d, e1, e2, t, u, v);
    CramerSolveZ(s, d, e1, e2, t, u, v);
  }

  lemma CramerSolveX(s: Vec3, d: Vec3, e1: Vec3, e2: Vec3, t: real, u: real, v: real)
    requires !NearParallel(Triple(e1, d, e2))
    requires Triple(e2, s, e1) == t * Triple(e1, d, e2)
    requires Triple(s, d, e2) == u * Triple(e1, d, e2)
    requires Triple(d, s, e1) == v * Triple(e1, d, e2)
    ensures s.x == (u * e1.x + v * e2.x) - t * d.x
  {
    CramerX(s, d, e1, e2);
    SolveComponent(Triple(e1, d, e2), Triple(e2, s, e1), Triple(s, d, e2), Triple(d, s, e1), t, u, v, s.x, d.x, e1.x, e2.x);
  }

  lemma CramerSolveY(s: Vec3, d: Vec3, e1: Vec3, e2: Vec3, t: real, u: real, v: real)
    requires !NearParallel(Triple(e1, d, e2))
    requires Triple(e2, s, e1) == t * Triple(e1, d, e2)
    requires Triple(s, d, e2) == u * Triple(e1, d, e2)
    requires Triple(d, s, e1) == v * Triple(e1, d, e2)
    ensures s.y == (u * e1.y + v * e2.y) - t * d.y
  {
    CramerY(s, d, e1, e2);
    SolveComponent(Triple(e1, d, e2), Triple(e2, s, e1), Triple(s, d, e2), Triple(d, s, e1), t, u, v, s.y, d.y, e1.y, e2.y);
  }

  lemma CramerSolveZ(s: Vec3, d: Vec3, e1: Vec3, e2: Vec3, t: real, u: real, v: real)
    requires !NearParallel(Triple(e1, d, e2))
    requires Triple(e2, s, e1) == t * Triple(e1, d, e2)
    requires Triple(s, d, e2) == u * Triple(e1, d, e2)
    requires Triple(d, s, e1) == v * Triple(e1, d, e2)
    ensures s.z == (u * e1.z + v * e2.z) - t * d.z
  {
    CramerZ(s, d, e1, e2);
    SolveComponent(Triple(e1, d, e2), Triple(e2, s, e1), Triple(s, d, e2), Triple(d, s, e1), t, u, v, s.z, d.z, e1.z, e2.z);
  }

  /** One component of `a s + b d == c e1 + w e2` with `b = t a`, `c = u a`,
      `w = v a`, divided by `a`. */
  lemma SolveComponent(a: real, b: real, c: real, w: real, t: real, u: real, v: real,
                       s: real, d: real, e1: real, e2: real)
    requires !NearParallel(a) && b == t * a && c == u * a && w == v * a
    requires a * s + b * d == c * e1 + w * e2
    ensures s == (u * e1 + v * e2) - t * d
  {
    assert a != 0.0;
    assert (s + t * d) * a == (u * e1 + v * e2) * a;
    Cancel(a, s + t * d, u * e1 + v * e2);
  }

  /** The converse of `EdgeForm`: `p - v0 == u e1 + v e2 - t d` puts the
      point at distance `t` on the ray at the barycentric point `(u, v)`. */
  lemma EdgeFormOnRay(p: Vec3, d: Vec3, v0: Vec3, v1: Vec3, v2: Vec3, t: real, u: real, v: real)
    requires Combination(Sub(p, v0), d, Sub(v1, v0), Sub(v2, v0), t, u, v)
    ensures PointOnRay(p, d, t) == Barycentric(v0, v1, v2, u, v)
  {
    var e1, e2, s := Sub(v1, v0), Sub(v2, v0), Sub(p, v0);
    OnRayComponent(p.x, d.x, v0.x, v1.x, v2.x, s.x, e1.x, e2.x, t, u, v);
    OnRayComponent(p.y, d.y, v0.y, v1.y, v2.y, s.y, e1.y, e2.y, t, u, v);
    OnRayComponent(p.z, d.z, v0.z, v1.z, v2.z, s.z, e1.z, e2.z, t, u, v);
  }

  lemma OnRayComponent(p: real, d: real, v0: real, v1: real, v2: real, s: real, e1: real, e2: real, t: real, u: real, v: real)
    requires s == p - v0 && e1 == v1 - v0 && e2 == v2 - v0
    requires s == (u * e1 + v * e2) - t * d
    ensures p + t * d == (1.0 - u - v) * v0 + u * v1 + v * v2
  {
  }

  /** A point of the ray that is a point of the triangle's plane, with the
      determinant outside the rejection band, solves the system by Cramer's
      rule. */
  lemma OnRayAndTriangleQuotients(p: Vec3, d: Vec3, v0: Vec3, v1: Vec3, v2: Vec3, t: real, u: real, v: real)
    requires !NearParallel(Determinant(d, v0, v1, v2))
    requires PointOnRay(p, d, t) == Barycentric(v0, v1, v2, u, v)
    ensures Quotients(p, d, v0, v1, v2, t, u, v)
  {
    EdgeForm(p, d, v0, v1, v2, t, u, v);
    TripleOfCombination(d, Sub(v1, v0), Sub(v2, v0), t, u, v);
  }

  /** A point on the ray equal to a barycentric point, written relative to
      `v0`: `p - v0 == u e1 + v e2 - t d`. */
  lemma EdgeForm(p: Vec3, d: Vec3, v0: Vec3, v1: Vec3, v2: Vec3, t: real, u: real, v: real)
    requires PointOnRay(p, d, t) == Barycentric(v0, v1, v2, u, v)
    ensures Sub(p, v0) == Sub(Add(Scale(u, Sub(v1, v0)), Scale(v, Sub(v2, v0))), Scale(t, d))
  {
    var e1, e2 := Sub(v1, v0), Sub(v2, v0);
    EdgeComponent(p.x, d.x, v0.x, v1.x, v2.x, e1.x, e2.x, t, u, v);
    EdgeComponent(p.y, d.y, v0.y, v1.y, v2.y, e1.y, e2.y, t, u, v);
    EdgeComponent(p.z, d.z, v0.z, v1.z, v2.z, e1.z, e2.z, t, u, v);
  }

  lemma EdgeComponent(p: real, d: real, v0: real, v1: real, v2: real, e1: real, e2: real, t: real, u: real, v: real)
    requires e1 == v1 - v0 && e2 == v2 - v0
    requires p + t * d == (1.0 - u - v) * v0 + u * v1 + v * v2
    ensures p - v0 == (u * e1 + v * e2) - t * d
  {
  }

  /** With `s = u e1 + v e2 - t d`, the three triple products the test
      forms recover `u`, `v` and `t`, each times the determinant. */
  lemma TripleOfCombination(d: Vec3, e1: Vec3, e2: Vec3, t: real, u: real, v: real)
    ensures var s := Sub(Add(Scale(u, e1), Scale(v, e2)), Scale(t, d));
            && Triple(s, d, e2) == u * Triple(e1, d, e2)
            && Triple(d, s, e1) == v * Triple(e1, d, e2)
            && Triple(e2, s, e1) == t * Triple(e1, d, e2)
  {
    var s := Sub(Add(Scale(u, e1), Scale(v, e2)), Scale(t, d));
    TripleFirst(d, e1, e2, t, u, v);
    TripleSecond(d, e1, e2, t, u, v);
    TripleThird(d, e1, e2, t, u, v);
  }

  lemma TripleFirst(d: Vec3, e1: Vec3, e2: Vec3, t: real, u: real, v: real)
    ensures Triple(Sub(Add(Scale(u, e1), Scale(v, e2)), Scale(t, d)), d, e2) == u * Triple(e1, d, e2)
  {
    TripleLinear(u, e1, v, e2, t, d, d, e2);
    TripleRepeated(d, e2);
  }

  lemma TripleSecond(d: Vec3, e1: Vec3, e2: Vec3, t: real, u: real, v: real)
    ensures Triple(d, Sub(Add(Scale(u, e1), Scale(v, e2)), Scale(t, d)), e1) == v * Triple(e1, d, e2)
  {
    var s := Sub(Add(Scale(u, e1), Scale(v, e2)), Scale(t, d));
    TripleRotate(d, s, e1);
    TripleLinear(u, e1, v, e2, t, d, e1, d);
    TripleRepeated(e1, d);
    TripleRotate(e2, e1, d);
  }

  lemma TripleThird(d: Vec3, e1: Vec3, e2: Vec3, t: real, u: real, v: real)
    ensures Triple(e2, Sub(Add(Scale(u, e1), Scale(v, e2)), Scale(t, d)), e1) == t * Triple(e1, d, e2)
  {
    var s := Sub(Add(Scale(u, e1), Scale(v, e2)), Scale(t, d));
    TripleRotate(e2, s, e1);
    TripleLinear(u, e1, v, e2, t, d, e1, e2);
    TripleRepeated(e1, e2);
    TripleCyclic(e1, d, e2);
    TripleSwap(d, e2, e1);
  }

  /** The test is exact: it reports `(t, u, v)` if and only if the ray is not
      rejected as near-parallel and `(t, u, v)` is a geometric hit. */
  lemma IntersectExact(p: Vec3, d: Vec3, v0: Vec3, v1: Vec3, v2: Vec3, t: real, u: real, v: real)
    ensures RayTriangleIntersect(p, d, v0, v1, v2) == Some((t, u, v))
        <==> !NearParallel(Determinant(d, v0, v1, v2)) && Hit(p, d, v0, v1, v2, t, u, v)
  {
    ReportedIff(p, d, v0, v1, v2, t, u, v);
    if Quotients(p, d, v0, v1, v2, t, u, v) {
      QuotientsOnRayAndTriangle(p, d, v0, v1, v2, t, u, v);
    }
    if !NearParallel(Determinant(d, v0, v1, v2)) && PointOnRay(p, d, t) == Barycentric(v0, v1, v2, u, v) {
      OnRayAndTriangleQuotients(p, d, v0, v1, v2, t, u, v);
    }
  }

  /** The test reports no intersection exactly when the ray is rejected as
      near-parallel or there is no geometric hit at all. */
  lemma MissExact(p: Vec3, d: Vec3, v0: Vec3, v1: Vec3, v2: Vec3)
    ensures RayTriangleIntersect(p, d, v0, v1, v2) == None
        <==> NearParallel(Determinant(d, v0, v1, v2))
             || forall t, u, v :: !Hit(p, d, v0, v1, v2, t, u, v)
  {
    var r := RayTriangleIntersect(p, d, v0, v1, v2);
    if r.Some? {
      var (t, u, v) := r.value;
      IntersectExact(p, d, v0, v1, v2, t, u, v);
    } else if !NearParallel(Determinant(d, v0, v1, v2)) {
      forall t, u, v ensures !Hit(p, d, v0, v1, v2, t, u, v) {
        IntersectExact(p, d, v0, v1, v2, t, u, v);
      }
    }
  }

}
