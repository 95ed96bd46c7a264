/** The numeric expectations of TestIntersection.cpp for reflection, the nudged points and
    Schlick's approximation, stated over the prepared-hit fields they depend on. */
module Fixtures {
  import opened Tuples
  import opened PreparedHits

  /** A ray coming down at 45 degrees onto a surface with normal +y leaves upwards at 45
      degrees. */
  lemma ReflectionAt45Degrees(c: real)
    ensures Reflect(Vector(0.0, -c, c), Vector(0.0, 1.0, 0.0)) == Vector(0.0, c, c)
  {
    var d, n := Vector(0.0, -c, c), Vector(0.0, 1.0, 0.0);
    assert Dot(d, n) == -c;
    assert Scale(2.0 * -c, n) == Vector(0.0, -2.0 * c, 0.0);
  }

  /** A hit at z = -1 on a surface whose normal is -z: the over point lies in (-1.1, -1) and
      the under point in (-1, -0.9). */
  lemma OffsetPointsAtUnitSphere(ph: PreparedHit)
    requires ph.point.z == -1.0 && ph.normal.z == -1.0
    requires ph.overPoint == Add(ph.point, Scale(Epsilon, ph.normal))
    requires ph.underPoint == Sub(ph.point, Scale(Epsilon, ph.normal))
    ensures -1.1 < ph.overPoint.z < -1.0
    ensures -1.0 < ph.underPoint.z < -0.9
  {
  }

  /** Glass (1.5) to vacuum at 45 degrees is past the critical angle. */
  lemma GlassToVacuumAt45Degrees(cos: real)
    requires cos * cos == 0.5
    ensures TotalInternalReflection(cos, 1.5, 1.0)
  {
    assert 1.5 / 1.0 == 1.5;
    assert 1.5 * 1.5 * (1.0 - 0.5) == 1.125;
  }

  /** Inside a glass sphere looking out at 45 degrees, all the light is reflected. */
  lemma SchlickGlassAt45Degrees(ph: PreparedHit, sqrt: real -> real)
    requires ph.n1 == 1.5 && ph.n2 == 1.0
    requires Dot(ph.eye, ph.normal) * Dot(ph.eye, ph.normal) == 0.5
    ensures Schlick(ph, sqrt) == 1.0
  {
    GlassToVacuumAt45Degrees(Dot(ph.eye, ph.normal));
    SchlickTotalInternalReflection(ph, sqrt);
  }

  /** Inside a glass sphere looking straight out, the reflectance is
      ((1.5 − 1)/(1.5 + 1))² = 0.04. */
  lemma SchlickGlassPerpendicular(ph: PreparedHit, sqrt: real -> real)
    requires ph.n1 == 1.5 && ph.n2 == 1.0 && Dot(ph.eye, ph.normal) == 1.0 && sqrt(1.0) == 1.0
    ensures Schlick(ph, sqrt) == 0.04
  {
    SchlickNormalIncidence(ph, sqrt);
    assert (1.5 - 1.0) / (1.5 + 1.0) == 0.2;
  }
}
