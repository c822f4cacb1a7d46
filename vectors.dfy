/** Three-component vectors over exact reals, standing in for the numpy
    arrays of the ray tracer's utilities: componentwise `+`, `-`, scalar
    multiplication, `np.dot` and the hand-written `cross_prod`. */
module Vectors {

  datatype Vec3 = Vec3(x: real, y: real, z: real)

  const Zero: Vec3 := Vec3(0.0, 0.0, 0.0)

  function Add(a: Vec3, b: Vec3): Vec3 {
    Vec3(a.x + b.x, a.y + b.y, a.z + b.z)
  }

  /** numpy's `a - b` on two 3-vectors. */
  function Sub(a: Vec3, b: Vec3): Vec3 {
    Vec3(a.x - b.x, a.y - b.y, a.z - b.z)
  }

  function Neg(a: Vec3): Vec3 {
    Vec3(-a.x, -a.y, -a.z)
  }

  /** numpy's `k * a` for a scalar `k`. */
  function Scale(k: real, a: Vec3): Vec3 {
    Vec3(k * a.x, k * a.y, k * a.z)
  }

  /** `np.dot(a, b)` on two 3-vectors. */
  function Dot(a: Vec3, b: Vec3): real {
    a.x * b.x + a.y * b.y + a.z * b.z
  }

  /** `cross_prod(a, b)`. */
  function Cross(a: Vec3, b: Vec3): Vec3 {
    Vec3(a.y * b.z - b.y * a.z,
         a.z * b.x - b.z * a.x,
         a.x * b.y - b.x * a.y)
  }

  /** The scalar triple product `a . (b x c)`. */
  function Triple(a: Vec3, b: Vec3, c: Vec3): real {
    Dot(a, Cross(b, c))
  }

  lemma CrossAnticommutative(a: Vec3, b: Vec3)
    ensures Cross(a, b) == Neg(Cross(b, a))
  {
  }

  lemma CrossSelfZero(a: Vec3)
    ensures Cross(a, a) == Zero
  {
  }

  lemma CrossPerpendicular(a: Vec3, b: Vec3)
    ensures Dot(Cross(a, b), a) == 0.0
    ensures Dot(Cross(a, b), b) == 0.0
  {
  }

  /** The cross product vanishes exactly when `a` is zero or `b` is a
      multiple of `a`. */
  lemma CrossZeroIffParallel(a: Vec3, b: Vec3)
    ensures Cross(a, b) == Zero <==> a == Zero || exists k :: b == Scale(k, a)
  {
    if a != Zero && Cross(a, b) == Zero {
      var k := if a.x != 0.0 then b.x / a.x else if a.y != 0.0 then b.y / a.y else b.z / a.z;
      ParallelWitness(a, b, k);
    }
  }

  lemma ParallelWitness(a: Vec3, b: Vec3, k: real)
    requires a != Zero && Cross(a, b) == Zero
    requires k == if a.x != 0.0 then b.x / a.x else if a.y != 0.0 then b.y / a.y else b.z / a.z
    ensures b == Scale(k, a)
  {
    if a.x != 0.0 {
      assert b.x == k * a.x;
      assert a.x * b.y == b.x * a.y;
      assert a.x * b.y == a.x * (k * a.y);
      assert a.z * b.x == b.z * a.x;
      assert a.x * b.z == a.x * (k * a.z);
    } else if a.y != 0.0 {
      assert b.y == k * a.y;
      assert a.x * b.y == b.x * a.y;
      assert a.y * b.x == a.y * (k * a.x);
      assert a.y * b.z == b.y * a.z;
      assert a.y * b.z == a.y * (k * a.z);
    } else {
      assert b.z == k * a.z;
      assert a.z * b.x == b.z * a.x;
      assert a.z * b.x == a.z * (k * a.x);
      assert a.y * b.z == b.y * a.z;
      assert a.z * b.y == a.z * (k * a.y);
    }
  }

  /** The triple product is invariant under cyclic rotation of its arguments. */
  lemma TripleCyclic(a: Vec3, b: Vec3, c: Vec3)
    ensures Triple(a, b, c) == Triple(b, c, a)
    ensures Triple(a, b, c) == Triple(c, a, b)
  {
    TripleRotate(a, b, c);
    TripleRotate(b, c, a);
  }

  lemma TripleRotate(a: Vec3, b: Vec3, c: Vec3)
    ensures Triple(a, b, c) == Triple(b, c, a)
  {
  }

  /** Swapping the last two arguments negates the triple product. */
  lemma TripleSwap(a: Vec3, b: Vec3, c: Vec3)
    ensures Triple(a, b, c) == -Triple(a, c, b)
  {
  }

  /** A triple product with a repeated vector vanishes. */
  lemma TripleRepeated(a: Vec3, b: Vec3)
    ensures Triple(a, a, b) == 0.0 && Triple(b, a, b) == 0.0
  {
    CrossPerpendicular(a, b);
  }

  /** The triple product is linear in its first argument. */
  lemma TripleLinear(u: real, x: Vec3, v: real, y: Vec3, t: real, z: Vec3, b: Vec3, c: Vec3)
    ensures Triple(Sub(Add(Scale(u, x), Scale(v, y)), Scale(t, z)), b, c)
         == u * Triple(x, b, c) + v * Triple(y, b, c) - t * Triple(z, b, c)
  {
  }

  /** Cramer's rule for three vectors in the form the intersection test
      needs, one component at a time: for any `s`, `d`, `e1`, `e2`,
      `[e1 d e2] s + [e2 s e1] d == [s d e2] e1 + [d s e1] e2`. */
  lemma CramerX(s: Vec3, d: Vec3, e1: Vec3, e2: Vec3)
    ensures Triple(e1, d, e2) * s.x + Triple(e2, s, e1) * d.x == Triple(s, d, e2) * e1.x + Triple(d, s, e1) * e2.x
  {
  }

  lemma CramerY(s: Vec3, d: Vec3, e1: Vec3, e2: Vec3)
    ensures Triple(e1, d, e2) * s.y + Triple(e2, s, e1) * d.y == Triple(s, d, e2) * e1.y + Triple(d, s, e1) * e2.y
  {
  }

  lemma CramerZ(s: Vec3, d: Vec3, e1: Vec3, e2: Vec3)
    ensures Triple(e1, d, e2) * s.z + Triple(e2, s, e1) * d.z == Triple(s, d, e2) * e1.z + Triple(d, s, e1) * e2.z
  {
  }

}
