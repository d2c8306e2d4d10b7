/**
  The point light of ray_tracing/ray_tracing/Light.cpp: intensities, the
  quadratic attenuation law and the ambient, diffuse and specular terms.
*/
module Lights {
  import opened Geometry

  datatype Light = Light(
    ambient: real,
    diffuse: real,
    constantAtt: real,
    linearAtt: real,
    quadraticAtt: real)

  /** The five-argument constructor: stores its arguments, except that an
      unattenuated light (no linear and no quadratic term) gets constant 1. */
  function MakeLight(ambient: real, diffuse: real, constantAtt: real, linearAtt: real, quadraticAtt: real): (l: Light)
    ensures l.ambient == ambient && l.diffuse == diffuse
    ensures l.linearAtt == linearAtt && l.quadraticAtt == quadraticAtt
    ensures linearAtt == 0.0 && quadraticAtt == 0.0 ==> l.constantAtt == 1.0
    ensures linearAtt != 0.0 || quadraticAtt != 0.0 ==> l.constantAtt == constantAtt
  {
    var l := Light(ambient, diffuse, constantAtt, linearAtt, quadraticAtt);
    if linearAtt == 0.0 && quadraticAtt == 0.0 then l.(constantAtt := 1.0) else l
  }

  /** c + l*d + q*pow(d, 2): the attenuation denominator at distance `d`. */
  function Denominator(num: Numerics, light: Light, distance: real): real
  {
    light.constantAtt + light.linearAtt * distance + light.quadraticAtt * num.pow(distance, 2.0)
  }

  function Attenuation(num: Numerics, light: Light, distance: real): real
  {
    num.recip(Denominator(num, light, distance))
  }

  /** The ambient term: no attenuation and no dependence on the geometry. */
  function Ambient(light: Light, ka: real): (r: real)
    ensures light.ambient >= 0.0 && ka >= 0.0 ==> r >= 0.0
  {
    MulNonNegativeIf(light.ambient, ka, 1.0);
    light.ambient * ka
  }

  /** Lambertian term: the diffuse intensity times `kd` times max(0, N.L). */
  function Diffuse(light: Light, kd: real, n: Vec3, l: Vec3): (r: real)
    ensures Dot(n, l) <= 0.0 ==> r == 0.0
    ensures light.diffuse >= 0.0 && kd >= 0.0 ==> r >= 0.0
  {
    var theta := Max(0.0, Dot(n, l));
    MulNonNegativeIf(light.diffuse, kd, theta);
    light.diffuse * kd * theta
  }

  /** `L - 2(N.L)N`: the vector the specular term compares with the view vector. */
  function SpecularDirection(n: Vec3, l: Vec3): Vec3
  {
    Sub(l, Scale(n, 2.0 * Dot(n, l)))
  }

  /** Phong term, scaled by the light's diffuse intensity (the light has no
      separate specular intensity). */
  function Specular(num: Numerics, light: Light, ks: real, n: Vec3, l: Vec3, v: Vec3, glossiness: real): real
  {
    var alpha := Max(0.0, Dot(SpecularDirection(n, l), v));
    light.diffuse * ks * num.pow(alpha, glossiness)
  }

  lemma MulNonNegativeIf(a: real, b: real, c: real)
    ensures a >= 0.0 && b >= 0.0 && c >= 0.0 ==> a * b * c >= 0.0
  {
    if a >= 0.0 && b >= 0.0 && c >= 0.0 {
      MulNonNegative(a, b);
      MulNonNegative(a * b, c);
    }
  }

  /** With no linear and no quadratic term the constructor's fallback makes the
      light unattenuated at every distance. */
  lemma {:induction false} UnattenuatedLight(num: Numerics, ambient: real, diffuse: real, constantAtt: real, distance: real)
    requires Sound(num)
    ensures Attenuation(num, MakeLight(ambient, diffuse, constantAtt, 0.0, 0.0), distance) == 1.0
  {
    var l := MakeLight(ambient, diffuse, constantAtt, 0.0, 0.0);
    assert Denominator(num, l, distance) == 1.0;
  }

  /** `c*a <= c*b` for `c >= 0` and `a <= b`, strictly when both are strict. */
  lemma ScaledGrowth(c: real, a: real, b: real)
    requires c >= 0.0 && a <= b
    ensures c * a <= c * b
    ensures c > 0.0 && a < b ==> c * a < c * b
  {
    if c > 0.0 && a < b {
      MulPositive(c, b - a);
    }
  }

  lemma DenominatorGrowth(c: real, l: real, q: real, d1: real, d2: real, p1: real, p2: real)
    requires l * d1 <= l * d2 && q * p1 <= q * p2
    requires (l > 0.0 && d1 < d2) ==> l * d1 < l * d2
    requires (q > 0.0 && p1 < p2) ==> q * p1 < q * p2
    ensures c + l * d1 + q * p1 <= c + l * d2 + q * p2
    ensures (l > 0.0 || q > 0.0) && d1 < d2 && p1 < p2 ==> c + l * d1 + q * p1 < c + l * d2 + q * p2
  {
  }

  lemma RecipAntitone(a: real, b: real)
    requires 0.0 < a <= b
    ensures 1.0 / b <= 1.0 / a
    ensures a < b ==> 1.0 / b < 1.0 / a
  {
  }

  /** For non-negative coefficients the denominator does not shrink with the
      distance, and strictly grows when a linear or quadratic term is present. */
  lemma {:induction false} DenominatorNonDecreasing(num: Numerics, light: Light, d1: real, d2: real)
    requires forall b :: num.pow(b, 2.0) == b * b
    requires light.linearAtt >= 0.0 && light.quadraticAtt >= 0.0
    requires 0.0 <= d1 <= d2
    ensures Denominator(num, light, d1) <= Denominator(num, light, d2)
    ensures (light.linearAtt > 0.0 || light.quadraticAtt > 0.0) && d1 < d2 ==>
      Denominator(num, light, d1) < Denominator(num, light, d2)
  {
    var l, q := light.linearAtt, light.quadraticAtt;
    var p1, p2 := num.pow(d1, 2.0), num.pow(d2, 2.0);
    assert p1 == d1 * d1 && p2 == d2 * d2;
    if d1 < d2 {
      SquareStrictMono(d2, d1);
    }
    ScaledGrowth(l, d1, d2);
    ScaledGrowth(q, p1, p2);
    DenominatorGrowth(light.constantAtt, l, q, d1, d2, p1, p2);
  }

  /** For non-negative coefficients the attenuation does not grow with the
      distance, and it strictly falls when a linear or quadratic term is present. */
  lemma {:induction false} AttenuationNonIncreasing(num: Numerics, light: Light, d1: real, d2: real)
    requires Sound(num)
    requires light.constantAtt >= 0.0 && light.linearAtt >= 0.0 && light.quadraticAtt >= 0.0
    requires 0.0 <= d1 <= d2
    requires Denominator(num, light, d1) > 0.0
    ensures Attenuation(num, light, d2) <= Attenuation(num, light, d1)
    ensures (light.linearAtt > 0.0 || light.quadraticAtt > 0.0) && d1 < d2 ==>
      Attenuation(num, light, d2) < Attenuation(num, light, d1)
  {
    var den1, den2 := Denominator(num, light, d1), Denominator(num, light, d2);
    DenominatorNonDecreasing(num, light, d1, d2);
    RecipAntitone(den1, den2);
    assert Attenuation(num, light, d1) == 1.0 / den1;
    assert Attenuation(num, light, d2) == 1.0 / den2;
  }

  /** Against a unit normal the specular direction flips the normal component of
      `l` and keeps its length. */
  lemma SpecularDirectionMirrors(n: Vec3, l: Vec3)
    requires Dot(n, n) == 1.0
    ensures Dot(SpecularDirection(n, l), n) == -Dot(l, n)
    ensures Dot(SpecularDirection(n, l), SpecularDirection(n, l)) == Dot(l, l)
  {
    var m := Sub(Scale(Scale(n, 2.0), Dot(n, l)), l);
    MirrorAboutUnitNormal(n, l);
    assert SpecularDirection(n, l) == Neg(m);
    DotNegSelf(m);
  }

  /** The specular term is proportional to the diffuse intensity, vanishes when
      the mirrored light direction points away from the viewer (for a positive
      glossiness), and is non-negative for non-negative coefficients. */
  lemma {:induction false} SpecularFacts(num: Numerics, light: Light, ks: real, n: Vec3, l: Vec3, v: Vec3, glossiness: real)
    requires Sound(num)
    ensures Specular(num, light, ks, n, l, v, glossiness)
      == light.diffuse * Specular(num, light.(diffuse := 1.0), ks, n, l, v, glossiness)
    ensures Dot(SpecularDirection(n, l), v) <= 0.0 && glossiness > 0.0 ==>
      Specular(num, light, ks, n, l, v, glossiness) == 0.0
    ensures light.diffuse >= 0.0 && ks >= 0.0 ==> Specular(num, light, ks, n, l, v, glossiness) >= 0.0
  {
    var alpha := Max(0.0, Dot(SpecularDirection(n, l), v));
    var p := num.pow(alpha, glossiness);
    assert p >= 0.0;
    MulNonNegativeIf(light.diffuse, ks, p);
    assert light.diffuse * ks * p == light.diffuse * (1.0 * ks * p);
  }
}
