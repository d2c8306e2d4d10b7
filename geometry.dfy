/**
  The vector and scalar vocabulary the ray tracer borrows from glm, over `real`.

  Rounding is not modelled. The transcendental helpers (`sqrt`, `normalize`,
  `pow`) and division by a value that may be zero (`recip`) are kept abstract:
  they are fields of a `Numerics` record that every computation receives, and
  `Sound` lists the only facts about them that the proofs use.
*/
module Geometry {

  datatype Option<+T> = None | Some(value: T)

  /** A glm::vec3: a point, a direction or an RGB colour. */
  datatype Vec3 = Vec3(x: real, y: real, z: real) {

    /** Component `i`, as glm's `operator[]` (0 = x/red, 1 = y/green, 2 = z/blue). */
    function At(i: int): real
      requires 0 <= i < 3
    {
      if i == 0 then x else if i == 1 then y else z
    }

    /** This vector with component `i` replaced by `v`. */
    function With(i: int, v: real): (r: Vec3)
      requires 0 <= i < 3
      ensures r.At(i) == v
      ensures forall j :: 0 <= j < 3 && j != i ==> r.At(j) == At(j)
    {
      if i == 0 then Vec3(v, y, z) else if i == 1 then Vec3(x, v, z) else Vec3(x, y, v)
    }
  }

  const Zero: Vec3 := Vec3(0.0, 0.0, 0.0)

  function Add(a: Vec3, b: Vec3): Vec3 { Vec3(a.x + b.x, a.y + b.y, a.z + b.z) }

  function Sub(a: Vec3, b: Vec3): Vec3 { Vec3(a.x - b.x, a.y - b.y, a.z - b.z) }

  function Neg(a: Vec3): Vec3 { Vec3(-a.x, -a.y, -a.z) }

  function Scale(a: Vec3, s: real): Vec3 { Vec3(a.x * s, a.y * s, a.z * s) }

  function Dot(a: Vec3, b: Vec3): real { a.x * b.x + a.y * b.y + a.z * b.z }

  function Cross(a: Vec3, b: Vec3): Vec3
  {
    Vec3(a.y * b.z - a.z * b.y, a.z * b.x - a.x * b.z, a.x * b.y - a.y * b.x)
  }

  /** std::min(a, b): `(b < a) ? b : a`. */
  function Min(a: real, b: real): real { if b < a then b else a }

  /** std::max(a, b): `(a < b) ? b : a`. */
  function Max(a: real, b: real): real { if a < b then b else a }

  function Abs(a: real): real { if a < 0.0 then -a else a }

  /** A float that may be +infinity: the hit time and the distance window. */
  datatype Ext = Fin(v: real) | PosInf

  /** Float `<` restricted to the values that occur: nothing is below a finite
      value from above, +inf is below nothing, every finite value is below +inf. */
  predicate Less(a: Ext, b: Ext)
  {
    match a
    case PosInf => false
    case Fin(x) => b.PosInf? || x < b.v
  }

  lemma LessTransitive(a: Ext, b: Ext, c: Ext)
    requires Less(a, b) && Less(b, c)
    ensures Less(a, c)
  {
  }

  /** glm's `sqrt` and `normalize`, `pow`, and `1/x` for an `x` that may be 0. */
  datatype Numerics = Numerics(
    sqrt: real -> real,
    normalize: Vec3 -> Vec3,
    pow: (real, real) -> real,
    recip: real -> real)

  /** The facts about the abstract numerics that the proofs rely on. The value of
      `sqrt` at a negative argument and of `recip` at 0 (NaN and +inf in floats)
      are otherwise left open. */
  ghost predicate Sound(num: Numerics)
  {
    && (forall a :: num.sqrt(a) >= 0.0)
    && (forall a :: a >= 0.0 ==> num.sqrt(a) * num.sqrt(a) == a)
    && (forall b, e :: b >= 0.0 ==> num.pow(b, e) >= 0.0)
    && (forall b :: num.pow(b, 2.0) == b * b)
    && (forall e :: e > 0.0 ==> num.pow(0.0, e) == 0.0)
    && (forall a :: a != 0.0 ==> num.recip(a) == 1.0 / a)
    && (forall a :: a >= 0.0 ==> num.recip(a) >= 0.0)
  }

  /** glm::length. */
  function Length(num: Numerics, v: Vec3): real
  {
    num.sqrt(Dot(v, v))
  }

  /** glm's `v / s` for a scalar `s` that may be zero. */
  function DivBy(num: Numerics, v: Vec3, s: real): Vec3
  {
    Scale(v, num.recip(s))
  }

  // Algebra used by the geometric lemmas. Nonlinear steps are kept in small
  // lemmas of their own: the solver handles them only one at a time.

  lemma MulPositive(a: real, b: real)
    requires a > 0.0 && b > 0.0
    ensures a * b > 0.0
  {
  }

  lemma MulNonNegative(a: real, b: real)
    requires a >= 0.0 && b >= 0.0
    ensures a * b >= 0.0
  {
    if a > 0.0 && b > 0.0 { MulPositive(a, b); }
  }

  lemma MulStrictMono(a: real, b: real, c: real)
    requires a > b && c > 0.0
    ensures a * c > b * c
  {
    MulPositive(a - b, c);
  }

  lemma MulMono(a: real, b: real, c: real)
    requires a >= b && c >= 0.0
    ensures a * c >= b * c
  {
    if a > b && c > 0.0 { MulStrictMono(a, b, c); }
  }

  lemma SquareNonNegative(a: real)
    ensures a * a >= 0.0
  {
    if a > 0.0 { MulPositive(a, a); } else if a < 0.0 { MulPositive(-a, -a); }
  }

  lemma SquareStrictMono(a: real, b: real)
    requires a > b >= 0.0
    ensures a * a > b * b
  {
    MulPositive(a - b, a + b);
    assert (a - b) * (a + b) == a * a - b * b;
  }

  lemma ZeroProduct(a: real, x: real)
    requires a != 0.0 && a * x == 0.0
    ensures x == 0.0
  {
    if x > 0.0 && a > 0.0 { MulPositive(a, x); }
    else if x > 0.0 && a < 0.0 { MulPositive(-a, x); }
    else if x < 0.0 && a > 0.0 { MulPositive(a, -x); }
    else if x < 0.0 && a < 0.0 { MulPositive(-a, -x); }
  }

  lemma SquareInjective(s: real, a: real)
    requires s >= 0.0 && a >= 0.0 && s * s == a * a
    ensures s == a
  {
    if s > a { SquareStrictMono(s, a); } else if s < a { SquareStrictMono(a, s); }
  }

  lemma DotNegSelf(v: Vec3)
    ensures Dot(Neg(v), Neg(v)) == Dot(v, v)
  {
  }

  lemma DotAddLeft(a: Vec3, b: Vec3, c: Vec3)
    ensures Dot(Add(a, b), c) == Dot(a, c) + Dot(b, c)
  {
  }

  lemma DotSubLeft(a: Vec3, b: Vec3, c: Vec3)
    ensures Dot(Sub(a, b), c) == Dot(a, c) - Dot(b, c)
  {
  }

  lemma DotScaleLeft(a: Vec3, s: real, c: Vec3)
    ensures Dot(Scale(a, s), c) == s * Dot(a, c)
  {
  }

  lemma DotSymmetric(a: Vec3, b: Vec3)
    ensures Dot(a, b) == Dot(b, a)
  {
  }

  /** A square root in the sense of `Sound` is the non-negative root. */
  lemma SqrtOfSquare(num: Numerics, a: real)
    requires Sound(num) && a >= 0.0
    ensures num.sqrt(a * a) == a
  {
    var s := num.sqrt(a * a);
    SquareNonNegative(a);
    SquareInjective(s, a);
  }

  lemma LengthSymmetric(num: Numerics, a: Vec3, b: Vec3)
    ensures Length(num, Sub(a, b)) == Length(num, Sub(b, a))
  {
    assert Sub(a, b) == Neg(Sub(b, a));
    DotNegSelf(Sub(b, a));
  }

  lemma DotSubSelf(a: Vec3, b: Vec3)
    ensures Dot(Sub(a, b), Sub(a, b)) == Dot(a, a) - 2.0 * Dot(a, b) + Dot(b, b)
  {
  }

  lemma DotAddSelf(a: Vec3, b: Vec3)
    ensures Dot(Add(a, b), Add(a, b)) == Dot(a, a) + 2.0 * Dot(a, b) + Dot(b, b)
  {
  }

  lemma DotScaleSelf(a: Vec3, s: real)
    ensures Dot(Scale(a, s), Scale(a, s)) == s * s * Dot(a, a)
  {
  }

  /** Mirroring `v` about a unit normal `n`, as `2n(n.v) - v`, keeps the normal
      component and the length of `v`. */
  lemma MirrorAboutUnitNormal(n: Vec3, v: Vec3)
    requires Dot(n, n) == 1.0
    ensures var r := Sub(Scale(Scale(n, 2.0), Dot(n, v)), v);
      Dot(r, n) == Dot(v, n) && Dot(r, r) == Dot(v, v)
  {
    var k := Dot(n, v);
    var m := Scale(Scale(n, 2.0), k);
    assert m == Scale(n, 2.0 * k);
    var r := Sub(m, v);
    calc {
      Dot(r, n);
      { DotSubLeft(m, v, n); }
      Dot(m, n) - Dot(v, n);
      { DotScaleLeft(n, 2.0 * k, n); }
      2.0 * k * Dot(n, n) - Dot(v, n);
      2.0 * k - k;
      Dot(v, n);
    }
    calc {
      Dot(r, r);
      { DotSubSelf(m, v); }
      Dot(m, m) - 2.0 * Dot(m, v) + Dot(v, v);
      { DotScaleSelf(n, 2.0 * k); DotScaleLeft(n, 2.0 * k, v); }
      (2.0 * k) * (2.0 * k) * Dot(n, n) - 2.0 * ((2.0 * k) * k) + Dot(v, v);
      Dot(v, v);
    }
  }
}
