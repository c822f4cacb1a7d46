# Ray tracer utilities, modelled in Dafny

A model of the geometric core of a small Python ray tracer: `cross_prod`,
the Moller-Trumbore ray/triangle test `ray_triangle_intersect`, the edge
cross product behind `triangle_normal`, and the mirror reflection `reflect`,
with numpy's vector arithmetic (`+`, `-`, scalar `*`, `np.dot`) as total
functions on a `Vec3` datatype over exact reals.

Modules:

- `Options`: the `Option` result; `None` is the source's `return None`.
- `Vectors`: `Vec3`, `Add`, `Sub`, `Neg`, `Scale`, `Dot`, `Cross`, the
  scalar triple product `Triple`, and the algebra of the cross product.
- `Intersection`: `RayTriangleIntersect`, with the one tolerance
  `Epsilon = 0.00001`. The vector products feed a scalar function `Decide`,
  which makes the comparisons in the source's order. The main proved fact is
  that the test is exact over the reals (`IntersectExact`, `MissExact`). It
  reports `(t, u, v)` exactly when two conditions hold. First, the
  determinant is outside the open band `(-Epsilon, Epsilon)`. Second, `p + t d`
  is the triangle point with barycentric coordinates `(1 - u - v, u, v)`,
  with `0 <= u <= 1`, `v >= 0`, `u + v <= 1` and `t > Epsilon`.
- `Surface`: `EdgeCross`, `TriangleNormal` (normalisation passed in as a
  function) and `Reflect`.
- `Scenarios`: concrete rays against the unit right triangle. They pin down
  the boundary cases: inclusive barycentric bounds, the strict distance
  bound, and the open parallel band.

## Model

| member | source | states |
|---|---|---|
| Vectors.CrossAnticommutative | Raytracer/rayutils.py:19-29 | `cross_prod(a, b) == -cross_prod(b, a)` |
| Vectors.CrossSelfZero | Raytracer/rayutils.py:19-29 | `cross_prod(a, a)` is the zero vector |
| Vectors.CrossPerpendicular | Raytracer/rayutils.py:19-29 | `cross_prod(a, b)` is perpendicular to both `a` and `b` |
| Vectors.CrossZeroIffParallel | Raytracer/rayutils.py:19-29 | `cross_prod(a, b)` is zero if and only if `a` is zero or `b` is a scalar multiple of `a` |
| Vectors.TripleCyclic | Raytracer/rayutils.py:40-41 | the triple product `a . (b x c)` that the test computes as `np.dot(e1, cross_prod(d, e2))` is invariant under cyclic rotation |
| Vectors.TripleSwap | Raytracer/rayutils.py:40-41 | swapping the two crossed vectors negates the triple product |
| Vectors.TripleRepeated | Raytracer/rayutils.py:40-41 | a triple product with a repeated vector is zero |
| Vectors.TripleLinear | Raytracer/rayutils.py:40-41 | the triple product is linear in its first argument |
| Vectors.CramerX | Raytracer/rayutils.py:40-53 | for any `s`, `d`, `e1`, `e2`, the x component of `[e1 d e2] s + [e2 s e1] d == [s d e2] e1 + [d s e1] e2`, the identity that makes the three quotients of the test solve the system |
| Vectors.CramerY | Raytracer/rayutils.py:40-53 | for any `s`, `d`, `e1`, `e2`, the y component of `[e1 d e2] s + [e2 s e1] d == [s d e2] e1 + [d s e1] e2`, the identity that makes the three quotients of the test solve the system |
| Vectors.CramerZ | Raytracer/rayutils.py:40-53 | for any `s`, `d`, `e1`, `e2`, the z component of `[e1 d e2] s + [e2 s e1] d == [s d e2] e1 + [d s e1] e2`, the identity that makes the three quotients of the test solve the system |
| Intersection.RayTriangleIntersect | Raytracer/rayutils.py:32-56 | a determinant strictly inside `(-Epsilon, Epsilon)` gives `None`; any reported `(t, u, v)` has `0 <= u <= 1`, `v >= 0`, `u + v <= 1` and `t > Epsilon` |
| Intersection.Decide | Raytracer/rayutils.py:42-56 | the guards in order: a near-parallel `a` gives `None`; anything reported is in range and is `(e2.q, s.h, d.q)` divided by `a` |
| Intersection.DecideAccepts | Raytracer/rayutils.py:42-56 | outside the band, a solution of `e2.q == t a`, `s.h == u a`, `d.q == v a` is reported if it is in range, and `None` is returned otherwise |
| Intersection.DeterminantAgainstNormal | Raytracer/rayutils.py:40-41 | the determinant `a` is minus the dot product of `d` with the edge cross of `triangle_normal` |
| Intersection.ParallelRayMissed | Raytracer/rayutils.py:42-43 | a direction perpendicular to the edge cross, including any ray against a degenerate triangle, yields `None` |
| Intersection.ReportedIff | Raytracer/rayutils.py:32-56 | `(t, u, v)` is reported if and only if it is the Cramer's-rule solution outside the band and is in range |
| Intersection.ReportedSolves | Raytracer/rayutils.py:44-56 | a reported `(t, u, v)` times the determinant gives the three numerators |
| Intersection.ReportedWhen | Raytracer/rayutils.py:42-56 | an in-range Cramer solution outside the band is reported |
| Intersection.QuotientsOnRayAndTriangle | Raytracer/rayutils.py:44-53 | the Cramer solution places `p + t d` at the barycentric point `(1 - u - v) v0 + u v1 + v v2` |
| Intersection.CramerSolve | Raytracer/rayutils.py:44-53 | outside the band, the three quotients satisfy `s == u e1 + v e2 - t d` |
| Intersection.OnRayAndTriangleQuotients | Raytracer/rayutils.py:44-53 | conversely, a ray point that is a barycentric point outside the band has `(t, u, v)` equal to the quotients the test computes |
| Intersection.TripleOfCombination | Raytracer/rayutils.py:44-53 | for `s = u e1 + v e2 - t d`, the triple products `[s d e2]`, `[d s e1]`, `[e2 s e1]` are `u`, `v`, `t` times `[e1 d e2]` |
| Intersection.IntersectExact | Raytracer/rayutils.py:32-56 | `(t, u, v)` is reported if and only if the determinant is outside the band and `p + t d` is the triangle's point `(u, v)` with all range checks met |
| Intersection.MissExact | Raytracer/rayutils.py:32-56 | `None` is returned if and only if the determinant is in the band or no `(t, u, v)` is a hit |
| Surface.EdgeCrossReversed | Raytracer/rayutils.py:59-65 | reversing the winding, `(a, c, b)` for `(a, b, c)`, negates the edge cross |
| Surface.EdgeCrossRotated | Raytracer/rayutils.py:59-65 | rotating the vertices leaves the edge cross unchanged |
| Surface.EdgeCrossPerpendicular | Raytracer/rayutils.py:59-65 | the edge cross is perpendicular to all three edges |
| Surface.EdgeCrossTranslated | Raytracer/rayutils.py:59-65 | translating the triangle leaves the edge cross unchanged |
| Surface.EdgeCrossScaled | Raytracer/rayutils.py:59-65 | scaling the triangle by `k` scales the edge cross by `k * k` |
| Surface.EdgeCrossZeroIffCollinear | Raytracer/rayutils.py:59-65 | the edge cross is zero if and only if `a == b` or `c - a` is a multiple of `b - a` |
| Surface.TriangleNormalReversed | Raytracer/rayutils.py:59-65 | for a normalisation that commutes with negation, reversing the winding flips the normal |
| Surface.TriangleNormalInvariant | Raytracer/rayutils.py:59-65 | under any normalisation, rotating or translating the triangle leaves the normal unchanged |
| Surface.TriangleNormalScaled | Raytracer/rayutils.py:59-65 | scaling the triangle by a non-zero `k` leaves the normal unchanged, for a normalisation that ignores positive rescaling |
| Surface.TriangleNormalPerpendicular | Raytracer/rayutils.py:59-65 | for a normalisation that rescales its argument, the normal is perpendicular to the edges |
| Surface.ReflectKeepsNormalComponent | Raytracer/rayutils.py:68-73 | for a unit normal, the reflected ray has the same component along the normal as the incident ray |
| Surface.ReflectNormal | Raytracer/rayutils.py:68-73 | for a unit normal `n`, `reflect(n, n) == n` |
| Surface.ReflectTangent | Raytracer/rayutils.py:68-73 | an incident ray perpendicular to the normal is reversed |
| Surface.ReflectInvolution | Raytracer/rayutils.py:68-73 | reflecting twice in a unit normal gives the incident ray back |
| Surface.ReflectPreservesLength | Raytracer/rayutils.py:68-73 | reflection in a unit normal preserves the ray's squared length |
| Scenarios.UnitTriangle | Raytracer/rayutils.py:38-53 | against `(0,0,0)`, `(1,0,0)`, `(0,1,0)` the determinant is `-d.z` and the numerators are short polynomials in `p` and `d` |
| Scenarios.CentreHit | Raytracer/rayutils.py:32-56 | a ray straight down onto the interior is reported as `(1, 0.25, 0.25)` |
| Scenarios.ParallelMiss | Raytracer/rayutils.py:42-43 | a ray parallel to the triangle's plane gives `None` |
| Scenarios.BehindMiss | Raytracer/rayutils.py:54-56 | a triangle behind the ray's origin gives `None` |
| Scenarios.OutsideMiss | Raytracer/rayutils.py:51-52 | a plane point past the edge `u + v = 1` gives `None` |
| Scenarios.VertexHit | Raytracer/rayutils.py:47-52 | the bounds are inclusive: vertex `v0` is hit with `u = v = 0` |
| Scenarios.UpperBoundHit | Raytracer/rayutils.py:47-48 | vertex `v1` is hit with `u = 1` |
| Scenarios.EdgeHit | Raytracer/rayutils.py:51-52 | a point with `u + v = 1` is hit |
| Scenarios.DistanceAtTolerance | Raytracer/rayutils.py:54-56 | a hit at distance exactly `Epsilon` gives `None` |
| Scenarios.DistanceBeyondTolerance | Raytracer/rayutils.py:54-55 | a hit at distance `2 Epsilon` is reported |
| Scenarios.DeterminantAtTolerance | Raytracer/rayutils.py:42-43 | determinants of exactly `Epsilon` and `-Epsilon` are not rejected |
| Scenarios.DeterminantInsideBand | Raytracer/rayutils.py:42-43 | a determinant of half the tolerance is rejected |
| Scenarios.InsideBandGeometricHit | Raytracer/rayutils.py:42-43 | the ray that the band rejects does meet the triangle, at distance `200000` |
| Scenarios.UnitTriangleEdgeCross | Raytracer/rayutils.py:59-65 | the unit triangle's edge cross is `(0, 0, 1)` |
| Scenarios.ReversedUnitTriangleEdgeCross | Raytracer/rayutils.py:59-65 | with the winding reversed it is `(0, 0, -1)` |
| Scenarios.FloorReflection | Raytracer/rayutils.py:68-73 | `(1, 1, 0)` reflected in the normal `(0, 1, 0)` is `(-1, 1, 0)`, and the normal reflects onto itself |

## Left out

- `normalize` (Raytracer/rayutils.py:8-16) is not modelled because it needs a square root. `TriangleNormal` takes the normalisation as a function parameter. Its lemmas assume only what each one states: that it commutes with negation, or that it rescales its argument. There is no claim about the zero vector or the `FloatingPointError` fallback.
- The model uses exact reals, not IEEE doubles. Rounding, overflow, `nan` and infinities are not modelled, so `1 / a` is exact division. Each of `u`, `v` and `t` is exactly its numerator divided by the determinant.
- numpy plumbing (`tolist`, `np.array`) is not modelled. Vectors are a three-field datatype.
- Operation order: the model forms `s = p - v0` and `q = cross_prod(s, e1)` before the first guard, and the source forms them after it. The function is pure, so this cannot be observed.
- Scenarios are proved only against one triangle, the unit right triangle in the plane `z = 0`. The general facts are `IntersectExact` and `MissExact`.
