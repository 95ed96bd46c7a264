/** 4×4 real matrices acting on homogeneous tuples, as used for shape transformations. */
module Matrices {
  import opened Tuples

  /** A matrix given by its four rows. */
  datatype Matrix = Matrix(r0: Tuple, r1: Tuple, r2: Tuple, r3: Tuple)

  const Identity: Matrix := Matrix(Tuple(1.0, 0.0, 0.0, 0.0), Tuple(0.0, 1.0, 0.0, 0.0),
                                   Tuple(0.0, 0.0, 1.0, 0.0), Tuple(0.0, 0.0, 0.0, 1.0))

  /** The matrix-tuple product m·v. */
  function Apply(m: Matrix, v: Tuple): Tuple {
    Tuple(Dot(m.r0, v), Dot(m.r1, v), Dot(m.r2, v), Dot(m.r3, v))
  }

  function Transpose(m: Matrix): Matrix {
    Matrix(Tuple(m.r0.x, m.r1.x, m.r2.x, m.r3.x), Tuple(m.r0.y, m.r1.y, m.r2.y, m.r3.y),
           Tuple(m.r0.z, m.r1.z, m.r2.z, m.r3.z), Tuple(m.r0.w, m.r1.w, m.r2.w, m.r3.w))
  }

  /** The matrix product a·b: row i of the product is b's transpose applied to row i of a. */
  function Mul(a: Matrix, b: Matrix): Matrix {
    var bt := Transpose(b);
    Matrix(Apply(bt, a.r0), Apply(bt, a.r1), Apply(bt, a.r2), Apply(bt, a.r3))
  }

  /** `inv` is a two-sided inverse of `m`. */
  ghost predicate IsInverse(m: Matrix, inv: Matrix) {
    Mul(m, inv) == Identity && Mul(inv, m) == Identity
  }

  ghost predicate Invertible(m: Matrix) {
    exists inv :: IsInverse(m, inv)
  }

  /** An affine transformation: the last row is (0, 0, 0, 1), so w is carried through unchanged. */
  ghost predicate IsAffine(m: Matrix) {
    m.r3 == Tuple(0.0, 0.0, 0.0, 1.0)
  }

  lemma ApplyAffineKeepsW(m: Matrix, v: Tuple)
    requires IsAffine(m)
    ensures Apply(m, v).w == v.w
  {
  }

  lemma ApplyIdentity(v: Tuple)
    ensures Apply(Identity, v) == v
  {
  }

  lemma IdentityIsSelfInverse()
    ensures IsInverse(Identity, Identity)
  {
    MulIdentityLeft(Identity);
  }

  lemma IdentityIsSelfTranspose()
    ensures Transpose(Identity) == Identity
  {
  }

  lemma MulIdentityLeft(m: Matrix)
    ensures Mul(Identity, m) == m
  {
    var mt := Transpose(m);
    assert Apply(mt, Identity.r0) == m.r0;
    assert Apply(mt, Identity.r1) == m.r1;
    assert Apply(mt, Identity.r2) == m.r2;
    assert Apply(mt, Identity.r3) == m.r3;
  }

  /** Applying a product is applying its factors one after the other. */
  lemma ApplyMul(a: Matrix, b: Matrix, v: Tuple)
    ensures Apply(a, Apply(b, v)) == Apply(Mul(a, b), v)
  {
    var bt := Transpose(b);
    var u := Apply(b, v);
    TransposeAdjoint(b, a.r0, v);
    TransposeAdjoint(b, a.r1, v);
    TransposeAdjoint(b, a.r2, v);
    TransposeAdjoint(b, a.r3, v);
  }

  /** Matrices act linearly: m·(u + k·v) == m·u + k·(m·v). */
  lemma ApplyLinear(m: Matrix, u: Tuple, k: real, v: Tuple)
    ensures Apply(m, Add(u, Scale(k, v))) == Add(Apply(m, u), Scale(k, Apply(m, v)))
  {
    DotLinear(m.r0, u, k, v);
    DotLinear(m.r1, u, k, v);
    DotLinear(m.r2, u, k, v);
    DotLinear(m.r3, u, k, v);
    var w := Add(u, Scale(k, v));
    assert Apply(m, w) == Tuple(Dot(m.r0, w), Dot(m.r1, w), Dot(m.r2, w), Dot(m.r3, w));
    assert Add(Apply(m, u), Scale(k, Apply(m, v)))
        == Tuple(Dot(m.r0, u) + k * Dot(m.r0, v), Dot(m.r1, u) + k * Dot(m.r1, v),
                 Dot(m.r2, u) + k * Dot(m.r2, v), Dot(m.r3, u) + k * Dot(m.r3, v));
  }

  lemma DotLinear(a: Tuple, u: Tuple, k: real, v: Tuple)
    ensures Dot(a, Add(u, Scale(k, v))) == Dot(a, u) + k * Dot(a, v)
  {
    ScalarLinear(a.x, a.y, a.z, a.w, u.x, u.y, u.z, u.w, k, v.x, v.y, v.z, v.w);
  }

  /** DotLinear on plain reals, kept apart so the solver sees no datatype terms. */
  lemma ScalarLinear(a0: real, a1: real, a2: real, a3: real, u0: real, u1: real, u2: real, u3: real,
                     k: real, v0: real, v1: real, v2: real, v3: real)
    ensures a0 * (u0 + k * v0) + a1 * (u1 + k * v1) + a2 * (u2 + k * v2) + a3 * (u3 + k * v3)
         == (a0 * u0 + a1 * u1 + a2 * u2 + a3 * u3) + k * (a0 * v0 + a1 * v1 + a2 * v2 + a3 * v3)
  {
  }

  /** Transposition moves a matrix across the dot product: (aᵗ·n)·u == n·(a·u). */
  lemma TransposeAdjoint(a: Matrix, n: Tuple, u: Tuple)
    ensures Dot(Apply(Transpose(a), n), u) == Dot(n, Apply(a, u))
  {
    TransposeCombinesRows(a, n);
    CombinationDot(a, n, u);
  }

  /** aᵗ·n is the combination of a's rows weighted by n's components. */
  lemma TransposeCombinesRows(a: Matrix, n: Tuple)
    ensures Apply(Transpose(a), n)
         == Add(Add(Scale(n.x, a.r0), Scale(n.y, a.r1)), Add(Scale(n.z, a.r2), Scale(n.w, a.r3)))
  {
  }

  lemma CombinationDot(a: Matrix, n: Tuple, u: Tuple)
    ensures Dot(Add(Add(Scale(n.x, a.r0), Scale(n.y, a.r1)), Add(Scale(n.z, a.r2), Scale(n.w, a.r3))), u)
         == Dot(n, Apply(a, u))
  {
    var p := Add(Scale(n.x, a.r0), Scale(n.y, a.r1));
    var q := Add(Scale(n.z, a.r2), Scale(n.w, a.r3));
    DotAddLeft(p, q, u);
    DotAddLeft(Scale(n.x, a.r0), Scale(n.y, a.r1), u);
    DotAddLeft(Scale(n.z, a.r2), Scale(n.w, a.r3), u);
    DotScaleLeft(n.x, a.r0, u);
    DotScaleLeft(n.y, a.r1, u);
    DotScaleLeft(n.z, a.r2, u);
    DotScaleLeft(n.w, a.r3, u);
  }

  lemma DotAddLeft(p: Tuple, q: Tuple, u: Tuple)
    ensures Dot(Add(p, q), u) == Dot(p, u) + Dot(q, u)
  {
  }

  lemma DotScaleLeft(k: real, p: Tuple, u: Tuple)
    ensures Dot(Scale(k, p), u) == k * Dot(p, u)
  {
  }

  /** A matrix and its inverse undo each other, in either order. */
  lemma InverseRoundTrip(m: Matrix, inv: Matrix, v: Tuple)
    requires IsInverse(m, inv)
    ensures Apply(inv, Apply(m, v)) == v
    ensures Apply(m, Apply(inv, v)) == v
  {
    ApplyMul(inv, m, v);
    ApplyMul(m, inv, v);
  }

  /** The columns of a matrix, read off by applying it to the unit tuples. */
  lemma ColumnsDetermine(a: Matrix, b: Matrix)
    requires Apply(a, Tuple(1.0, 0.0, 0.0, 0.0)) == Apply(b, Tuple(1.0, 0.0, 0.0, 0.0))
    requires Apply(a, Tuple(0.0, 1.0, 0.0, 0.0)) == Apply(b, Tuple(0.0, 1.0, 0.0, 0.0))
    requires Apply(a, Tuple(0.0, 0.0, 1.0, 0.0)) == Apply(b, Tuple(0.0, 0.0, 1.0, 0.0))
    requires Apply(a, Tuple(0.0, 0.0, 0.0, 1.0)) == Apply(b, Tuple(0.0, 0.0, 0.0, 1.0))
    ensures a == b
  {
    assert a.r0 == b.r0 && a.r1 == b.r1 && a.r2 == b.r2 && a.r3 == b.r3;
  }

  /** A matrix has at most one inverse. */
  lemma InverseUnique(m: Matrix, a: Matrix, b: Matrix)
    requires IsInverse(m, a) && IsInverse(m, b)
    ensures a == b
  {
    forall e: Tuple ensures Apply(a, e) == Apply(b, e) {
      var be := Apply(b, e);
      InverseRoundTrip(m, b, e);
      InverseRoundTrip(m, a, be);
      assert Apply(a, Apply(m, be)) == be;
    }
    ColumnsDetermine(a, b);
  }

  /** The inverse of an invertible matrix (unique, by InverseUnique). Matrix inversion itself
      is not computed in this model. */
  ghost function Invert(m: Matrix): (inv: Matrix)
    requires Invertible(m)
    ensures IsInverse(m, inv)
  {
    var inv :| IsInverse(m, inv); inv
  }

  /** Any inverse of `m` is the inverse. */
  lemma InvertIs(m: Matrix, inv: Matrix)
    requires IsInverse(m, inv)
    ensures Invertible(m) && Invert(m) == inv
  {
    InverseUnique(m, Invert(m), inv);
  }

  /** A ray mapped through a matrix. */
  function TransformRay(r: Ray, m: Matrix): Ray {
    Ray(Apply(m, r.origin), Apply(m, r.direction))
  }

  /** The parameter `t` means the same point before and after mapping a ray. */
  lemma TransformRayPosition(r: Ray, m: Matrix, t: real)
    ensures Position(TransformRay(r, m), t) == Apply(m, Position(r, t))
  {
    ApplyLinear(m, r.origin, t, r.direction);
  }
}
