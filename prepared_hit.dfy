/** Preparing a hit for shading: the world-space point, the eye and normal vectors, the
    inside/outside decision, the points nudged off the surface, the reflection vector and the
    refractive indices on either side; and Schlick's approximation of the reflectance. */
module PreparedHits {
  import opened Tuples
  import opened Matrices
  import opened Intersections
  import opened Shapes
  import opened Refraction

  /** The distance by which the over and under points are moved off the surface. */
  const Epsilon: real := 0.0001

  /** Everything shading needs to know about one chosen intersection. */
  datatype PreparedHit = PreparedHit(
    t: real, shape: ShapeId,
    point: Tuple, eye: Tuple, normal: Tuple, inside: bool,
    overPoint: Tuple, underPoint: Tuple, reflect: Tuple,
    n1: real, n2: real)

  /** Prepares `hit`, one of the intersections `xs` of `ray` with the scene (sorted by `t`).
      The normal is the shape's world normal at the point, turned round when it points away
      from the eye; the over point lies on the normal's side of the surface and the under
      point on the other side, both at distance Epsilon along the normal; n1 and n2 come from
      the containers walk over `xs`. */
  method PrepareHit(hit: Intersection, ray: Ray, xs: seq<Intersection>, arena: seq<Shape>,
                    geo: Geometry, sqrt: real -> real) returns (ph: PreparedHit)
    requires Acyclic(arena) && hit.shape < |arena| && InArena(xs, arena)
    ensures ph.t == hit.t && ph.shape == hit.shape
    ensures ph.point == Position(ray, hit.t)
    ensures ph.eye == Neg(ray.direction)
    ensures var outward := NormalAt(arena, hit.shape, ph.point, geo, sqrt);
      (ph.inside <==> Dot(outward, ph.eye) < 0.0) &&
      ph.normal == (if ph.inside then Neg(outward) else outward)
    ensures Dot(ph.normal, ph.eye) >= 0.0
    ensures ph.normal.w == 0.0 && (IsSqrt(sqrt) ==> Dot(ph.normal, ph.normal) == 1.0 || Dot(ph.normal, ph.normal) == 0.0)
    ensures ph.overPoint == Add(ph.point, Scale(Epsilon, ph.normal))
    ensures ph.underPoint == Sub(ph.point, Scale(Epsilon, ph.normal))
    ensures Dot(Sub(ph.overPoint, ph.point), ph.normal) == Epsilon * Dot(ph.normal, ph.normal)
    ensures Dot(Sub(ph.underPoint, ph.point), ph.normal) == -Epsilon * Dot(ph.normal, ph.normal)
    ensures ph.reflect == Reflect(ray.direction, ph.normal)
    ensures Dot(ph.normal, ph.normal) == 1.0 ==>
      Dot(ph.reflect, ph.normal) == Dot(ph.eye, ph.normal) && Reflect(ph.reflect, ph.normal) == ray.direction
    ensures (ph.n1, ph.n2) == RefractiveIndicesOf(hit, xs, arena)
  {
    var point := Position(ray, hit.t);
    var eye := Neg(ray.direction);
    var normal := NormalAt(arena, hit.shape, point, geo, sqrt);
    var inside := false;
    if Dot(normal, eye) < 0.0 {
      inside := true;
      DotNeg(normal, eye);
      normal := Neg(normal);
    }
    var overPoint := Add(point, Scale(Epsilon, normal));
    var underPoint := Sub(point, Scale(Epsilon, normal));
    var reflect := Reflect(ray.direction, normal);
    var n1, n2 := RefractiveIndices(hit, xs, arena);
    ph := PreparedHit(hit.t, hit.shape, point, eye, normal, inside, overPoint, underPoint, reflect, n1, n2);
    OffsetAlongNormal(point, normal);
    if Dot(normal, normal) == 1.0 {
      MirrorAngle(ray.direction, normal);
    }
  }

  /** About a unit normal, the reflected ray makes the same angle with the normal as the eye
      vector does, and reflecting it again gives the incoming direction back. */
  lemma MirrorAngle(d: Tuple, n: Tuple)
    requires Dot(n, n) == 1.0
    ensures Dot(Reflect(d, n), n) == Dot(Neg(d), n)
    ensures Reflect(Reflect(d, n), n) == d
  {
    ReflectFlipsNormalComponent(d, n);
    ReflectInvolution(d, n);
    assert Dot(Neg(d), n) == -Dot(d, n);
  }

  /** Moving by ±Epsilon along `n` changes the component along `n` by ±Epsilon·(n·n). */
  lemma OffsetAlongNormal(p: Tuple, n: Tuple)
    ensures Dot(Sub(Add(p, Scale(Epsilon, n)), p), n) == Epsilon * Dot(n, n)
    ensures Dot(Sub(Sub(p, Scale(Epsilon, n)), p), n) == -Epsilon * Dot(n, n)
  {
    assert Sub(Add(p, Scale(Epsilon, n)), p) == Scale(Epsilon, n);
    assert Sub(Sub(p, Scale(Epsilon, n)), p) == Scale(-Epsilon, n);
    DotScaleLeft(Epsilon, n, n);
    DotScaleLeft(-Epsilon, n, n);
  }

  // ---- Schlick's approximation ----

  /** The reflectance at normal incidence, ((n1 − n2)/(n1 + n2))². */
  function R0(n1: real, n2: real): real
    requires n1 + n2 != 0.0
  {
    var q := (n1 - n2) / (n1 + n2);
    q * q
  }

  /** Total internal reflection: leaving a denser medium at an angle whose sine would have
      to exceed 1 on the other side, (n1/n2)²·(1 − cos²) > 1. */
  predicate TotalInternalReflection(cos: real, n1: real, n2: real)
    requires n2 != 0.0
  {
    var n := n1 / n2;
    n1 > n2 && n * n * (1.0 - cos * cos) > 1.0
  }

  /** The cosine of the transmitted angle, sqrt(1 − sin²t) with sin²t = (n1/n2)²·(1 − cos²). */
  function TransmittedCosine(cos: real, n1: real, n2: real, sqrt: real -> real): real
    requires n2 != 0.0
  {
    var n := n1 / n2;
    sqrt(1.0 - n * n * (1.0 - cos * cos))
  }

  /** The fraction of light reflected at the hit. Under total internal reflection it is 1;
      otherwise r0 + (1 − r0)(1 − c)⁵, where c is the cosine between eye and normal, or, when
      leaving a denser medium, the cosine of the transmitted angle sqrt(1 − sin²t). */
  function Schlick(ph: PreparedHit, sqrt: real -> real): real
    requires ph.n1 > 0.0 && ph.n2 > 0.0
  {
    var cos := Dot(ph.eye, ph.normal);
    var n1, n2 := ph.n1, ph.n2;
    if TotalInternalReflection(cos, n1, n2) then 1.0
    else if n1 > n2 then
      Approximation(R0(n1, n2), TransmittedCosine(cos, n1, n2, sqrt))
    else
      Approximation(R0(n1, n2), cos)
  }

  /** Schlick's polynomial r0 + (1 − r0)(1 − c)⁵ for the cosine c. */
  function Approximation(r0: real, c: real): real {
    r0 + (1.0 - r0) * Pow5(1.0 - c)
  }

  /** Under total internal reflection all the light is reflected. */
  lemma SchlickTotalInternalReflection(ph: PreparedHit, sqrt: real -> real)
    requires ph.n1 > 0.0 && ph.n2 > 0.0
    requires TotalInternalReflection(Dot(ph.eye, ph.normal), ph.n1, ph.n2)
    ensures Schlick(ph, sqrt) == 1.0
  {
  }

  /** The reflectance is a fraction: for a cosine in [0, 1] and a true square root it lies in
      [0, 1]. */
  lemma SchlickInUnitInterval(ph: PreparedHit, sqrt: real -> real)
    requires ph.n1 > 0.0 && ph.n2 > 0.0 && IsSqrt(sqrt)
    requires 0.0 <= Dot(ph.eye, ph.normal) <= 1.0
    ensures 0.0 <= Schlick(ph, sqrt) <= 1.0
  {
    var cos := Dot(ph.eye, ph.normal);
    var n1, n2 := ph.n1, ph.n2;
    R0InUnitInterval(n1, n2);
    if TotalInternalReflection(cos, n1, n2) {
    } else if n1 > n2 {
      TransmittedCosineInUnitInterval(cos, n1, n2, sqrt);
      Blend(R0(n1, n2), TransmittedCosine(cos, n1, n2, sqrt));
    } else {
      Blend(R0(n1, n2), cos);
    }
  }

  /** Short of total internal reflection, the cosine of the transmitted angle lies in [0, 1]. */
  lemma TransmittedCosineInUnitInterval(cos: real, n1: real, n2: real, sqrt: real -> real)
    requires n1 > n2 > 0.0 && IsSqrt(sqrt) && 0.0 <= cos <= 1.0
    requires !TotalInternalReflection(cos, n1, n2)
    ensures 0.0 <= TransmittedCosine(cos, n1, n2, sqrt) <= 1.0
  {
    SineSquaredInUnitInterval(cos, n1, n2);
    SqrtOfUnitInterval(sqrt, 1.0 - (n1 / n2) * (n1 / n2) * (1.0 - cos * cos));
  }

  /** Short of total internal reflection, sin²t = (n1/n2)²·(1 − cos²) lies in [0, 1]. */
  lemma SineSquaredInUnitInterval(cos: real, n1: real, n2: real)
    requires n1 > n2 > 0.0 && 0.0 <= cos <= 1.0
    requires !TotalInternalReflection(cos, n1, n2)
    ensures 0.0 <= (n1 / n2) * (n1 / n2) * (1.0 - cos * cos) <= 1.0
  {
    var n := n1 / n2;
    UnitProduct(cos, cos);
    DivPositive(n1, n2);
    MulNonNeg(n, n);
    MulNonNeg(n * n, 1.0 - cos * cos);
  }

  /** Looking straight along the normal (cos = 1) the reflectance is r0, on either side of
      the surface, for any square-root routine that maps 1 to 1 (a true one does, by
      SqrtOne). */
  lemma SchlickNormalIncidence(ph: PreparedHit, sqrt: real -> real)
    requires ph.n1 > 0.0 && ph.n2 > 0.0 && sqrt(1.0) == 1.0
    requires Dot(ph.eye, ph.normal) == 1.0
    ensures Schlick(ph, sqrt) == R0(ph.n1, ph.n2)
  {
    var cos := Dot(ph.eye, ph.normal);
    var n := ph.n1 / ph.n2;
    assert 1.0 - cos * cos == 0.0;
    assert n * n * (1.0 - cos * cos) == 0.0;
    assert Pow5(1.0 - cos) == 0.0;
  }

  /** Between media of the same index nothing is reflected at normal incidence, and in
      general only the (1 − cos)⁵ term remains. */
  lemma SchlickMatchedMedia(ph: PreparedHit, sqrt: real -> real)
    requires ph.n1 > 0.0 && ph.n1 == ph.n2
    ensures Schlick(ph, sqrt) == Pow5(1.0 - Dot(ph.eye, ph.normal))
  {
  }

  lemma R0InUnitInterval(n1: real, n2: real)
    requires n1 > 0.0 && n2 > 0.0
    ensures 0.0 <= R0(n1, n2) <= 1.0
  {
    DivWithinOne(n1 - n2, n1 + n2);
    Square((n1 - n2) / (n1 + n2));
  }

  // ---- facts of real arithmetic the solver needs spelled out ----

  lemma MulNonNeg(a: real, b: real)
    requires a >= 0.0 && b >= 0.0
    ensures a * b >= 0.0
  {
  }

  lemma MulAtMostFactor(a: real, b: real)
    requires 0.0 <= a && 0.0 <= b <= 1.0
    ensures a * b <= a
  {
    MulNonNeg(a, 1.0 - b);
    assert a * (1.0 - b) == a - a * b;
  }

  lemma MulAtLeastFactor(a: real, b: real)
    requires a >= 0.0 && b >= 1.0
    ensures a * b >= a
  {
    MulNonNeg(a, b - 1.0);
    assert a * (b - 1.0) == a * b - a;
  }

  lemma UnitProduct(a: real, b: real)
    requires 0.0 <= a <= 1.0 && 0.0 <= b <= 1.0
    ensures 0.0 <= a * b <= 1.0
  {
    MulNonNeg(a, b);
    MulAtMostFactor(a, b);
  }

  lemma Square(q: real)
    requires -1.0 <= q <= 1.0
    ensures 0.0 <= q * q <= 1.0
  {
    if q >= 0.0 {
      UnitProduct(q, q);
    } else {
      UnitProduct(-q, -q);
      assert (-q) * (-q) == q * q;
    }
  }

  lemma DivPositive(a: real, b: real)
    requires a > 0.0 && b > 0.0
    ensures a / b > 0.0
  {
  }

  lemma DivWithinOne(a: real, b: real)
    requires b > 0.0 && -b <= a <= b
    ensures -1.0 <= a / b <= 1.0
  {
    var q := a / b;
    assert q * b == a;
    if q > 1.0 {
      MulNonNeg(q - 1.0, b);
      assert false;
    }
    if q < -1.0 {
      MulNonNeg(-1.0 - q, b);
      assert false;
    }
  }

  /** A true square root maps [0, 1] into [0, 1]. */
  lemma SqrtOfUnitInterval(sqrt: real -> real, x: real)
    requires IsSqrt(sqrt) && 0.0 <= x <= 1.0
    ensures 0.0 <= sqrt(x) <= 1.0
  {
    var s := sqrt(x);
    assert s >= 0.0 && s * s == x;
    if s > 1.0 {
      MulAtLeastFactor(s, s);
      assert false;
    }
  }

  function Pow5(x: real): real { x * x * x * x * x }

  lemma Pow5Unit(x: real)
    requires 0.0 <= x <= 1.0
    ensures 0.0 <= Pow5(x) <= 1.0
  {
    UnitProduct(x, x);
    UnitProduct(x * x, x);
    UnitProduct(x * x * x, x);
    UnitProduct(x * x * x * x, x);
  }

  /** Schlick's polynomial stays in [0, 1] for r0 and c in [0, 1]. */
  lemma Blend(r0: real, c: real)
    requires 0.0 <= r0 <= 1.0 && 0.0 <= c <= 1.0
    ensures 0.0 <= Approximation(r0, c) <= 1.0
  {
    Pow5Unit(1.0 - c);
    var p := Pow5(1.0 - c);
    UnitProduct(1.0 - r0, p);
    MulAtMostFactor(1.0 - r0, p);
  }
}
