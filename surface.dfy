/** Surface geometry of the ray tracer's utilities: the edge cross product
    behind `triangle_normal` and the mirror reflection `reflect`. */
module Surface {
  import opened Vectors

  /** The un-normalised normal of `triangle_normal(a, b, c)`:
      `cross_prod(b - a, c - a)`. */
  function EdgeCross(a: Vec3, b: Vec3, c: Vec3): Vec3 {
    Cross(Sub(b, a), Sub(c, a))
  }

  /** `triangle_normal(a, b, c)`, with the normalisation passed in as a
      function, since its square root has no counterpart over the reals
      used here. */
  function TriangleNormal(normalize: Vec3 -> Vec3, a: Vec3, b: Vec3, c: Vec3): Vec3 {
    normalize(EdgeCross(a, b, c))
  }

  /** Reversing the winding of the triangle flips the edge cross. */
  lemma EdgeCrossReversed(a: Vec3, b: Vec3, c: Vec3)
    ensures EdgeCross(a, c, b) == Neg(EdgeCross(a, b, c))
  {
    CrossAnticommutative(Sub(b, a), Sub(c, a));
  }

  /** Rotating the vertices keeps the winding and the edge cross. */
  lemma EdgeCrossRotated(a: Vec3, b: Vec3, c: Vec3)
    ensures EdgeCross(b, c, a) == EdgeCross(a, b, c)
  {
  }

  /** The edge cross is perpendicular to all three edges. */
  lemma EdgeCrossPerpendicular(a: Vec3, b: Vec3, c: Vec3)
    ensures Dot(EdgeCross(a, b, c), Sub(b, a)) == 0.0
    ensures Dot(EdgeCross(a, b, c), Sub(c, a)) == 0.0
    ensures Dot(EdgeCross(a, b, c), Sub(c, b)) == 0.0
  {
    CrossPerpendicular(Sub(b, a), Sub(c, a));
  }

  /** Moving the triangle does not change its edge cross. */
  lemma EdgeCrossTranslated(a: Vec3, b: Vec3, c: Vec3, o: Vec3)
    ensures EdgeCross(Add(a, o), Add(b, o), Add(c, o)) == EdgeCross(a, b, c)
  {
  }

  /** Scaling the triangle by `k` scales its edge cross by `k * k`. */
  lemma EdgeCrossScaled(k: real, a: Vec3, b: Vec3, c: Vec3)
    ensures EdgeCross(Scale(k, a), Scale(k, b), Scale(k, c)) == Scale(k * k, EdgeCross(a, b, c))
  {
    SubScaled(k, a, b);
    SubScaled(k, a, c);
    CrossScaled(k, Sub(b, a), Sub(c, a));
  }

  lemma SubScaled(k: real, a: Vec3, b: Vec3)
    ensures Sub(Scale(k, b), Scale(k, a)) == Scale(k, Sub(b, a))
  {
    ScaledDifference(k, b.x, a.x);
    ScaledDifference(k, b.y, a.y);
    ScaledDifference(k, b.z, a.z);
  }

  lemma ScaledDifference(k: real, x: real, y: real)
    ensures k * x - k * y == k * (x - y)
  {
  }

  lemma CrossScaled(k: real, u: Vec3, v: Vec3)
    ensures Cross(Scale(k, u), Scale(k, v)) == Scale(k * k, Cross(u, v))
  {
    CrossScaledLeft(k, u, Scale(k, v));
    CrossScaledRight(k, u, v);
    ScaleTwice(k, k, Cross(u, v));
  }

  lemma CrossScaledLeft(k: real, u: Vec3, v: Vec3)
    ensures Cross(Scale(k, u), v) == Scale(k, Cross(u, v))
  {
    var c := Cross(u, v);
    LinearMinor(k, u.y, v.z, v.y, u.z);
    LinearMinor(k, u.z, v.x, v.z, u.x);
    LinearMinor(k, u.x, v.y, v.x, u.y);
    assert Cross(Scale(k, u), v) == Vec3(k * c.x, k * c.y, k * c.z);
  }

  lemma CrossScaledRight(k: real, u: Vec3, v: Vec3)
    ensures Cross(u, Scale(k, v)) == Scale(k, Cross(u, v))
  {
    CrossScaledLeft(k, v, u);
    CrossAnticommutative(u, Scale(k, v));
    CrossAnticommutative(u, v);
  }

  /** `(k p) q - r (k s) == k (p q - r s)`. */
  lemma LinearMinor(k: real, p: real, q: real, r: real, s: real)
    ensures (k * p) * q - r * (k * s) == k * (p * q - r * s)
  {
  }

  lemma ScaleTwice(j: real, k: real, a: Vec3)
    ensures Scale(j, Scale(k, a)) == Scale(j * k, a)
  {
  }

  /** The edge cross is zero exactly when the triangle is degenerate: its
      first two vertices coincide, or the third lies on the line through
      them. */
  lemma EdgeCrossZeroIffCollinear(a: Vec3, b: Vec3, c: Vec3)
    ensures EdgeCross(a, b, c) == Zero <==> a == b || exists k :: Sub(c, a) == Scale(k, Sub(b, a))
  {
    assert Sub(b, a) == Zero <==> a == b;
    CrossZeroIffParallel(Sub(b, a), Sub(c, a));
  }

  /** Reversing the winding flips the normal, for any normalisation that
      commutes with negation. */
  lemma TriangleNormalReversed(normalize: Vec3 -> Vec3, a: Vec3, b: Vec3, c: Vec3)
    requires forall w :: normalize(Neg(w)) == Neg(normalize(w))
    ensures TriangleNormal(normalize, a, c, b) == Neg(TriangleNormal(normalize, a, b, c))
  {
    EdgeCrossReversed(a, b, c);
  }

  /** Rotating the vertices, or moving the triangle, keeps the normal,
      whatever the normalisation. */
  lemma TriangleNormalInvariant(normalize: Vec3 -> Vec3, a: Vec3, b: Vec3, c: Vec3, o: Vec3)
    ensures TriangleNormal(normalize, b, c, a) == TriangleNormal(normalize, a, b, c)
    ensures TriangleNormal(normalize, Add(a, o), Add(b, o), Add(c, o)) == TriangleNormal(normalize, a, b, c)
  {
    EdgeCrossRotated(a, b, c);
    EdgeCrossTranslated(a, b, c, o);
  }

  /** Scaling the triangle by a non-zero `k` keeps the normal, for a
      normalisation that ignores positive rescaling of its argument. */
  lemma TriangleNormalScaled(normalize: Vec3 -> Vec3, k: real, a: Vec3, b: Vec3, c: Vec3)
    requires k != 0.0
    requires forall w, m :: m > 0.0 ==> normalize(Scale(m, w)) == normalize(w)
    ensures TriangleNormal(normalize, Scale(k, a), Scale(k, b), Scale(k, c)) == TriangleNormal(normalize, a, b, c)
  {
    EdgeCrossScaled(k, a, b, c);
    assert k * k > 0.0;
  }

  /** The normal is perpendicular to every edge, for a normalisation that
      only rescales its argument. */
  lemma TriangleNormalPerpendicular(normalize: Vec3 -> Vec3, a: Vec3, b: Vec3, c: Vec3)
    requires forall w :: exists k :: normalize(w) == Scale(k, w)
    ensures Dot(TriangleNormal(normalize, a, b, c), Sub(b, a)) == 0.0
    ensures Dot(TriangleNormal(normalize, a, b, c), Sub(c, a)) == 0.0
  {
    var w := EdgeCross(a, b, c);
    var k :| normalize(w) == Scale(k, w);
    EdgeCrossPerpendicular(a, b, c);
    DotScaled(k, w, Sub(b, a));
    DotScaled(k, w, Sub(c, a));
  }

  lemma DotScaled(k: real, w: Vec3, e: Vec3)
    ensures Dot(Scale(k, w), e) == k * Dot(w, e)
  {
  }

  /** `reflect(normal, incident)`: `(incident . normal) * 2 * normal - incident`.
      The incident ray points away from the surface. */
  function Reflect(n: Vec3, i: Vec3): Vec3 {
    Sub(Scale(Dot(i, n) * 2.0, n), i)
  }

  /** For a unit normal, reflection keeps the component along the normal. */
  lemma ReflectKeepsNormalComponent(n: Vec3, i: Vec3)
    requires Dot(n, n) == 1.0
    ensures Dot(Reflect(n, i), n) == Dot(i, n)
  {
    DotScaled(Dot(i, n) * 2.0, n, n);
  }

  /** A ray along a unit normal reflects onto itself. */
  lemma ReflectNormal(n: Vec3)
    requires Dot(n, n) == 1.0
    ensures Reflect(n, n) == n
  {
  }

  /** A ray perpendicular to the normal is reversed. */
  lemma ReflectTangent(n: Vec3, i: Vec3)
    requires Dot(i, n) == 0.0
    ensures Reflect(n, i) == Neg(i)
  {
  }

  /** Reflecting twice in a unit normal gives the ray back. */
  lemma ReflectInvolution(n: Vec3, i: Vec3)
    requires Dot(n, n) == 1.0
    ensures Reflect(n, Reflect(n, i)) == i
  {
    ReflectKeepsNormalComponent(n, i);
  }

  /** Reflection in a unit normal preserves length. */
  lemma ReflectPreservesLength(n: Vec3, i: Vec3)
    requires Dot(n, n) == 1.0
    ensures Dot(Reflect(n, i), Reflect(n, i)) == Dot(i, i)
  {
  }

}
