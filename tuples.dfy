/** Homogeneous 4-tuples (points have w = 1, vectors w = 0), rays, and the vector algebra
    the geometric core is written in. Arithmetic is over exact reals. */
module Tuples {

  datatype Tuple = Tuple(x: real, y: real, z: real, w: real)

  function Point(x: real, y: real, z: real): Tuple { Tuple(x, y, z, 1.0) }
  function Vector(x: real, y: real, z: real): Tuple { Tuple(x, y, z, 0.0) }

  function Add(a: Tuple, b: Tuple): Tuple { Tuple(a.x + b.x, a.y + b.y, a.z + b.z, a.w + b.w) }
  function Sub(a: Tuple, b: Tuple): Tuple { Tuple(a.x - b.x, a.y - b.y, a.z - b.z, a.w - b.w) }
  function Neg(a: Tuple): Tuple { Tuple(-a.x, -a.y, -a.z, -a.w) }
  function Scale(k: real, a: Tuple): Tuple { Tuple(k * a.x, k * a.y, k * a.z, k * a.w) }

  /** The dot product over all four components (zero w for vectors makes it the 3D one). */
  function Dot(a: Tuple, b: Tuple): real { a.x * b.x + a.y * b.y + a.z * b.z + a.w * b.w }

  /** The vector made of the x, y and z components, with w dropped to 0. */
  function DropW(a: Tuple): Tuple { Vector(a.x, a.y, a.z) }

  /** A square-root routine: non-negative, and squares back to its argument on x >= 0. */
  ghost predicate IsSqrt(sqrt: real -> real) {
    forall x: real :: x >= 0.0 ==> sqrt(x) >= 0.0 && sqrt(x) * sqrt(x) == x
  }

  /** The squared length of a tuple is never negative. */
  lemma SelfDotNonNegative(v: Tuple)
    ensures Dot(v, v) >= 0.0
  {
  }

  /** `v` divided by its magnitude `sqrt(v·v)`; a zero-magnitude vector is returned unchanged.
      The result points the same way as `v`, and with a true square root it has length 1
      (or 0, for the zero vector). */
  function Normalize(v: Tuple, sqrt: real -> real): (r: Tuple)
    ensures IsSqrt(sqrt) ==> exists k: real :: k > 0.0 && r == Scale(k, v)
    ensures IsSqrt(sqrt) ==> Dot(r, r) == 1.0 || Dot(r, r) == 0.0
  {
    var m := sqrt(Dot(v, v));
    SelfDotNonNegative(v);
    if m == 0.0 then
      assert v == Scale(1.0, v);
      v
    else
      var k := 1.0 / m;
      assert Dot(Scale(k, v), Scale(k, v)) == (k * k) * Dot(v, v);
      assert IsSqrt(sqrt) ==> (k * k) * (m * m) == (k * m) * (k * m) && k * m == 1.0 && k > 0.0;
      Scale(k, v)
  }

  /** A true square root of 1 is 1. */
  lemma SqrtOne(sqrt: real -> real)
    requires IsSqrt(sqrt)
    ensures sqrt(1.0) == 1.0
  {
    var s := sqrt(1.0);
    assert s >= 0.0 && s * s == 1.0;
    assert (s - 1.0) * (s + 1.0) == s * s - 1.0;
    ZeroFactor(s - 1.0, s + 1.0);
  }

  /** A product with a positive factor is zero only when the other factor is. */
  lemma ZeroFactor(a: real, b: real)
    requires a * b == 0.0 && b > 0.0
    ensures a == 0.0
  {
  }

  /** Normalizing a vector that already has length 1 leaves it as it is (all that is needed
      of the square-root routine is that it maps 1 to 1, as a true one does by SqrtOne). */
  lemma NormalizeUnit(v: Tuple, sqrt: real -> real)
    requires sqrt(1.0) == 1.0 && Dot(v, v) == 1.0
    ensures Normalize(v, sqrt) == v
  {
    assert Scale(1.0 / 1.0, v) == v;
  }

  /** Negating a vector negates its dot products and keeps its length. */
  lemma DotNeg(a: Tuple, b: Tuple)
    ensures Dot(Neg(a), b) == -Dot(a, b)
    ensures Dot(Neg(a), Neg(a)) == Dot(a, a)
  {
  }

  /** Reflection of `d` about the normal `n`: d − 2(d·n)n. */
  function Reflect(d: Tuple, n: Tuple): Tuple { Sub(d, Scale(2.0 * Dot(d, n), n)) }

  /** About a unit normal, reflection negates the normal component of `d` ... */
  lemma ReflectFlipsNormalComponent(d: Tuple, n: Tuple)
    requires Dot(n, n) == 1.0
    ensures Dot(Reflect(d, n), n) == -Dot(d, n)
  {
    var k := 2.0 * Dot(d, n);
    assert Dot(Reflect(d, n), n) == Dot(d, n) - k * Dot(n, n);
  }

  /** ... keeps the part of `d` orthogonal to `n` ... */
  lemma ReflectKeepsTangent(d: Tuple, n: Tuple, u: Tuple)
    requires Dot(u, n) == 0.0
    ensures Dot(Reflect(d, n), u) == Dot(d, u)
  {
    var k := 2.0 * Dot(d, n);
    assert Dot(Reflect(d, n), u) == Dot(d, u) - k * Dot(n, u);
  }

  /** ... and so reflecting twice gives `d` back. */
  lemma ReflectInvolution(d: Tuple, n: Tuple)
    requires Dot(n, n) == 1.0
    ensures Reflect(Reflect(d, n), n) == d
  {
    ReflectFlipsNormalComponent(d, n);
    var r := Reflect(d, n);
    var k := 2.0 * Dot(d, n);
    assert r == Sub(d, Scale(k, n));
    assert Reflect(r, n) == Add(Sub(d, Scale(k, n)), Scale(k, n));
  }

  datatype Ray = Ray(origin: Tuple, direction: Tuple)

  /** The point reached after travelling `t` along the ray. */
  function Position(r: Ray, t: real): Tuple { Add(r.origin, Scale(t, r.direction)) }
}
