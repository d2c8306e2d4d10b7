/**
  The scene primitives of ray_tracing/Object.h and ray_tracing/Object.cpp.

  The class hierarchy (an `Object` base with a default `Intersect` and the
  subclasses `Sphere`, `Plane` and `Triangle`) becomes one datatype with a
  variant per class. Objects never change after construction, and each holds
  its material by value. Intersection is split into the candidate hit an
  object offers a ray (`Candidate`), and the record update, which keeps the
  candidate only when it is strictly nearer than the hit recorded so far
  (`IntersectSpec`, carried out in place by the method `Intersect`).
*/
module Objects {
  import opened Geometry
  import opened Materials
  import opened Rays

  /** `Sphere` adds no fields: its centre and radius are the base `centroid` and
      `radius`. `Plane` and `Triangle` add their vertex list and unit normal. */
  datatype Object =
    | BaseObject(centroid: Vec3, material: Material, radius: real)
    | Sphere(centroid: Vec3, material: Material, radius: real)
    | Plane(centroid: Vec3, material: Material, radius: real, vertices: seq<Vec3>, normal: Vec3)
    | Triangle(centroid: Vec3, material: Material, radius: real, vertices: seq<Vec3>, normal: Vec3)

  /** The vertex count each constructor establishes. */
  predicate WellFormed(o: Object)
  {
    && (o.Plane? ==> |o.vertices| == 4)
    && (o.Triangle? ==> |o.vertices| == 3)
  }

  /** Three-way maximum. */
  function Fmax(f1: real, f2: real, f3: real): (f: real)
    ensures f >= f1 && f >= f2 && f >= f3
    ensures f == f1 || f == f2 || f == f3
  {
    var f := if f1 < f2 then f2 else f1;
    if f < f3 then f3 else f
  }

  /** Heron's formula on the three side lengths. */
  function TriangleArea(num: Numerics, p1: Vec3, p2: Vec3, p3: Vec3): (area: real)
    ensures (forall a :: num.sqrt(a) >= 0.0) ==> area >= 0.0
  {
    var a := Length(num, Sub(p2, p1));
    var b := Length(num, Sub(p3, p2));
    var c := Length(num, Sub(p3, p1));
    num.sqrt(HeronProduct(a, b, c))
  }

  /** `s(s-a)(s-b)(s-c)` for the half perimeter `s`: the squared area. */
  function HeronProduct(a: real, b: real, c: real): real
  {
    var s := (a + b + c) / 2.0;
    s * (s - a) * (s - b) * (s - c)
  }

  /** Membership by areas: `p` is outside when the three sub-triangle areas
      differ from the whole by more than one percent of the whole. */
  function CheckPointInArea(num: Numerics, p1: Vec3, p2: Vec3, p3: Vec3, p: Vec3): bool
  {
    AreasAgree(TriangleArea(num, p1, p2, p3),
      TriangleArea(num, p1, p2, p), TriangleArea(num, p1, p, p3), TriangleArea(num, p, p2, p3))
  }

  /** The parts' areas sum to within one percent of the whole's area. */
  predicate AreasAgree(area: real, a1: real, a2: real, a3: real)
  {
    var areaDiff := Abs(area - (a1 + a2 + a3));
    !(areaDiff > area * 0.01)
  }

  /** A non-negative whole split into itself and two degenerate parts agrees. */
  lemma ExactSplitAgrees(area: real, a1: real, a2: real, a3: real)
    requires area >= 0.0
    requires (a1 == 0.0 && a2 == 0.0 && a3 == area) || (a1 == 0.0 && a2 == area && a3 == 0.0)
      || (a1 == area && a2 == 0.0 && a3 == 0.0)
    ensures AreasAgree(area, a1, a2, a3)
  {
  }

  /** Heron's product vanishes when one side is the sum of the other two. */
  lemma HeronVanishes(a: real, b: real, c: real)
    requires a == b + c || b == a + c || c == a + b
    ensures HeronProduct(a, b, c) == 0.0
  {
  }

  /** A triangle with two equal corners has area zero (given only that the
      square root of zero is zero); one lemma per position of the repeat. */
  lemma AreaRepeatedLast(num: Numerics, x: Vec3, y: Vec3)
    requires num.sqrt(0.0) == 0.0
    ensures TriangleArea(num, x, y, y) == 0.0
  {
    assert Sub(y, y) == Zero;
    HeronVanishes(Length(num, Sub(y, x)), Length(num, Sub(y, y)), Length(num, Sub(y, x)));
  }

  lemma AreaRepeatedFirst(num: Numerics, x: Vec3, y: Vec3)
    requires num.sqrt(0.0) == 0.0
    ensures TriangleArea(num, x, x, y) == 0.0
  {
    assert Sub(x, x) == Zero;
    HeronVanishes(Length(num, Sub(x, x)), Length(num, Sub(y, x)), Length(num, Sub(y, x)));
  }

  lemma AreaRepeatedOuter(num: Numerics, x: Vec3, y: Vec3)
    requires num.sqrt(0.0) == 0.0
    ensures TriangleArea(num, x, y, x) == 0.0
  {
    assert Sub(x, x) == Zero;
    LengthSymmetric(num, x, y);
    HeronVanishes(Length(num, Sub(y, x)), Length(num, Sub(x, y)), Length(num, Sub(x, x)));
  }

  /** The membership test accepts each corner of its own triangle: two of the
      three sub-triangles are degenerate and the third is the whole triangle.
      Only two facts about the square root are needed: it is never negative
      and it maps zero to zero. */
  lemma FirstCornerInArea(num: Numerics, p1: Vec3, p2: Vec3, p3: Vec3)
    requires forall a :: num.sqrt(a) >= 0.0
    requires num.sqrt(0.0) == 0.0
    ensures CheckPointInArea(num, p1, p2, p3, p1)
  {
    assert Sub(p1, p1) == Zero;
    AreaRepeatedOuter(num, p1, p2);
    AreaRepeatedFirst(num, p1, p3);
    ExactSplitAgrees(TriangleArea(num, p1, p2, p3),
      TriangleArea(num, p1, p2, p1), TriangleArea(num, p1, p1, p3), TriangleArea(num, p1, p2, p3));
  }

  lemma SecondCornerInArea(num: Numerics, p1: Vec3, p2: Vec3, p3: Vec3)
    requires forall a :: num.sqrt(a) >= 0.0
    requires num.sqrt(0.0) == 0.0
    ensures CheckPointInArea(num, p1, p2, p3, p2)
  {
    assert Sub(p2, p2) == Zero;
    AreaRepeatedLast(num, p1, p2);
    AreaRepeatedFirst(num, p2, p3);
    ExactSplitAgrees(TriangleArea(num, p1, p2, p3),
      TriangleArea(num, p1, p2, p2), TriangleArea(num, p1, p2, p3), TriangleArea(num, p2, p2, p3));
  }

  lemma ThirdCornerInArea(num: Numerics, p1: Vec3, p2: Vec3, p3: Vec3)
    requires forall a :: num.sqrt(a) >= 0.0
    requires num.sqrt(0.0) == 0.0
    ensures CheckPointInArea(num, p1, p2, p3, p3)
  {
    assert Sub(p3, p3) == Zero;
    AreaRepeatedLast(num, p1, p3);
    AreaRepeatedOuter(num, p3, p2);
    ExactSplitAgrees(TriangleArea(num, p1, p2, p3),
      TriangleArea(num, p1, p2, p3), TriangleArea(num, p1, p3, p3), TriangleArea(num, p3, p2, p3));
  }

  // Constructors.

  /** The base-class constructor: it stores the material and leaves centroid and
      radius unset; the last two arguments stand for whatever they hold. */
  function MakeObject(material: Material, unsetCentroid: Vec3, unsetRadius: real): (o: Object)
    ensures o.BaseObject? && WellFormed(o) && o.material == material
  {
    BaseObject(unsetCentroid, material, unsetRadius)
  }

  function MakeSphere(center: Vec3, radius: real, material: Material): (o: Object)
    ensures o.Sphere? && WellFormed(o)
    ensures o.centroid == center && o.radius == radius && o.material == material
  {
    Sphere(center, material, radius)
  }

  /** A quadrilateral from its four corners in winding order. The bounding radius
      is half the longer diagonal plus 0.1, around the mean of the corners. */
  function MakePlane(num: Numerics, v1: Vec3, v2: Vec3, v3: Vec3, v4: Vec3, material: Material): (o: Object)
    ensures o.Plane? && WellFormed(o)
    ensures o.vertices == [v1, v2, v3, v4] && o.material == material
    ensures o.normal == num.normalize(Cross(Sub(v2, v1), Sub(v3, v1)))
    ensures Scale(o.centroid, 4.0) == Add(Add(Add(v1, v2), v3), v4)
    ensures var a, b := Length(num, Sub(v3, v1)), Length(num, Sub(v4, v2));
      && o.radius >= a / 2.0 + 0.1 && o.radius >= b / 2.0 + 0.1
      && (o.radius == a / 2.0 + 0.1 || o.radius == b / 2.0 + 0.1)
  {
    var vertices := [v1, v2, v3, v4];
    var u := Sub(vertices[1], vertices[0]);
    var v := Sub(vertices[2], vertices[0]);
    var normal := num.normalize(Cross(u, v));
    var a := Length(num, Sub(vertices[2], vertices[0]));
    var b := Length(num, Sub(vertices[3], vertices[1]));
    var radius := (if a > b then a / 2.0 else b / 2.0) + 0.1;
    var centroid := Scale(Add(Add(Add(vertices[0], vertices[1]), vertices[2]), vertices[3]), 1.0 / 4.0);
    Plane(centroid, material, radius, vertices, normal)
  }

  /** A triangle from its three corners. The bounding radius is the largest
      corner distance from the mean of the corners. */
  function MakeTriangle(num: Numerics, v1: Vec3, v2: Vec3, v3: Vec3, material: Material): (o: Object)
    ensures o.Triangle? && WellFormed(o)
    ensures o.vertices == [v1, v2, v3] && o.material == material
    ensures o.normal == num.normalize(Cross(Sub(v2, v1), Sub(v3, v1)))
    ensures Scale(o.centroid, 3.0) == Add(Add(v1, v2), v3)
    ensures forall i :: 0 <= i < 3 ==> Length(num, Sub(o.vertices[i], o.centroid)) <= o.radius
    ensures exists i :: 0 <= i < 3 && Length(num, Sub(o.vertices[i], o.centroid)) == o.radius
  {
    var vertices := [v1, v2, v3];
    var u := Sub(vertices[1], vertices[0]);
    var v := Sub(vertices[2], vertices[0]);
    var normal := num.normalize(Cross(u, v));
    var centroid := Scale(Add(Add(vertices[0], vertices[1]), vertices[2]), 1.0 / 3.0);
    var a := Length(num, Sub(vertices[0], centroid));
    var b := Length(num, Sub(vertices[1], centroid));
    var c := Length(num, Sub(vertices[2], centroid));
    Triangle(centroid, material, Fmax(a, b, c), vertices, normal)
  }

  // Intersection.

  /** The sphere's quadratic `a t^2 + 2 halfB t + c = 0` along a ray. */
  datatype Quadratic = Quadratic(a: real, halfB: real, c: real)

  function SphereQuadratic(num: Numerics, o: Object, ray: Ray): Quadratic
  {
    var ec := Sub(ray.origin, o.centroid);
    Quadratic(Dot(ray.direction, ray.direction), Dot(ray.direction, ec), Dot(ec, ec) - num.pow(o.radius, 2.0))
  }

  /** `B*B - A*C*4` with `B = 2 halfB`. */
  function Discriminant(q: Quadratic): real
  {
    (q.halfB * 2.0) * (q.halfB * 2.0) - q.a * q.c * 4.0
  }

  function FarRoot(num: Numerics, q: Quadratic): real
    requires q.a != 0.0
  {
    (-q.halfB + num.sqrt(q.halfB * q.halfB - q.a * q.c)) / q.a
  }

  function NearRoot(num: Numerics, q: Quadratic): real
    requires q.a != 0.0
  {
    (-q.halfB - num.sqrt(q.halfB * q.halfB - q.a * q.c)) / q.a
  }

  /** A negative root is no candidate: it becomes +infinity. */
  function RootTime(t: real): Ext
  {
    if t < 0.0 then PosInf else Fin(t)
  }

  /** The sphere's candidate: the smaller non-negative root, kept when it is
      positive and its point lies strictly within `max` of the ray origin.

      A zero direction (`a == 0`) makes both roots 0/0, a NaN that fails
      `t > 0`; a time of +infinity fails the strict distance test for every
      `max`, +infinity included. Both are therefore no candidate. */
  function SphereCandidate(num: Numerics, o: Object, ray: Ray, max: Ext): (c: Option<Hit>)
    requires o.Sphere?
    ensures Discriminant(SphereQuadratic(num, o, ray)) < 0.0 ==> c.None?
    ensures c.Some? ==>
      var q := SphereQuadratic(num, o, ray);
      && q.a != 0.0 && Discriminant(q) >= 0.0
      && c.value.time.Fin? && c.value.time.v > 0.0
      && (c.value.time.v == FarRoot(num, q) || c.value.time.v == NearRoot(num, q))
      && (FarRoot(num, q) >= 0.0 ==> c.value.time.v <= FarRoot(num, q))
      && (NearRoot(num, q) >= 0.0 ==> c.value.time.v <= NearRoot(num, q))
      && c.value.hitPoint == ray.At(c.value.time.v)
      && Less(Fin(Length(num, Sub(c.value.hitPoint, ray.origin))), max)
      && c.value.normal == DivBy(num, Sub(c.value.hitPoint, o.centroid), o.radius)
      && c.value.material == Some(o.material)
    ensures var q := SphereQuadratic(num, o, ray);
      q.a != 0.0 && Discriminant(q) >= 0.0 ==>
        && (FarRoot(num, q) > 0.0 && (NearRoot(num, q) >= 0.0 ==> FarRoot(num, q) <= NearRoot(num, q))
            && Less(Fin(Length(num, Sub(ray.At(FarRoot(num, q)), ray.origin))), max)
            ==> c.Some? && c.value.time == Fin(FarRoot(num, q)))
        && (NearRoot(num, q) > 0.0 && (FarRoot(num, q) >= 0.0 ==> NearRoot(num, q) <= FarRoot(num, q))
            && Less(Fin(Length(num, Sub(ray.At(NearRoot(num, q)), ray.origin))), max)
            ==> c.Some? && c.value.time == Fin(NearRoot(num, q)))
  {
    var q := SphereQuadratic(num, o, ray);
    if Discriminant(q) < 0.0 || q.a == 0.0 then None
    else
      var t1 := RootTime(FarRoot(num, q));
      var t2 := RootTime(NearRoot(num, q));
      var t := if Less(t1, t2) then t1 else t2;
      if t.Fin? && t.v > 0.0 && Less(Fin(Length(num, Sub(ray.At(t.v), ray.origin))), max) then
        var point := ray.At(t.v);
        Some(Hit(point, DivBy(num, Sub(point, o.centroid), o.radius), t, Some(o.material)))
      else
        None
  }

  /** The precise membership test: one triangle, or either half of the quad
      split along the diagonal v0-v2. */
  predicate InsideFace(num: Numerics, o: Object, p: Vec3)
    requires (o.Plane? || o.Triangle?) && WellFormed(o)
  {
    var v := o.vertices;
    if o.Plane? then
      CheckPointInArea(num, v[0], v[1], v[2], p) || CheckPointInArea(num, v[0], v[2], v[3], p)
    else
      CheckPointInArea(num, v[0], v[1], v[2], p)
  }

  /** The shared candidate of planes and triangles: no candidate for a ray
      parallel to the face; otherwise the point where the ray meets the face's
      plane, kept when `t >= 0`, its distance from the origin is not beyond
      `max`, it is within the bounding radius and it passes the membership test. */
  function FlatCandidate(num: Numerics, o: Object, ray: Ray, max: Ext): (c: Option<Hit>)
    requires (o.Plane? || o.Triangle?) && WellFormed(o)
    ensures Dot(ray.direction, o.normal) == 0.0 ==> c.None?
    ensures c.Some? ==>
      && Dot(ray.direction, o.normal) != 0.0
      && c.value.time == Fin(Dot(Sub(o.vertices[0], ray.origin), o.normal) / Dot(ray.direction, o.normal))
      && c.value.time.v >= 0.0
      && c.value.hitPoint == ray.At(c.value.time.v)
      && !Less(max, Fin(Length(num, Sub(c.value.hitPoint, ray.origin))))
      && Length(num, Sub(c.value.hitPoint, o.centroid)) <= o.radius
      && InsideFace(num, o, c.value.hitPoint)
      && c.value.normal == o.normal
      && c.value.material == Some(o.material)
    ensures var denom := Dot(ray.direction, o.normal);
      denom != 0.0 ==>
        var t := Dot(Sub(o.vertices[0], ray.origin), o.normal) / denom;
        t >= 0.0 && !Less(max, Fin(Length(num, Sub(ray.At(t), ray.origin))))
        && Length(num, Sub(ray.At(t), o.centroid)) <= o.radius && InsideFace(num, o, ray.At(t))
        ==> c.Some?
  {
    var denom := Dot(ray.direction, o.normal);
    if denom == 0.0 then None
    else
      var t := Dot(Sub(o.vertices[0], ray.origin), o.normal) / denom;
      var point := ray.At(t);
      if t < 0.0 || Less(max, Fin(Length(num, Sub(point, ray.origin)))) then None
      else if Length(num, Sub(point, o.centroid)) > o.radius then None
      else if InsideFace(num, o, point) then Some(Hit(point, o.normal, Fin(t), Some(o.material)))
      else None
  }

  /** The hit an object offers a ray, ignoring what has been recorded so far.
      The base class offers none. */
  function Candidate(num: Numerics, o: Object, ray: Ray, max: Ext): (c: Option<Hit>)
    requires WellFormed(o)
    ensures o.BaseObject? ==> c.None?
    ensures c.Some? ==> c.value.time.Fin? && c.value.material == Some(o.material)
  {
    match o
    case BaseObject(_, _, _) => None
    case Sphere(_, _, _) => SphereCandidate(num, o, ray, max)
    case _ => FlatCandidate(num, o, ray, max)
  }

  /** `Intersect` on values: the candidate replaces the whole record, and the
      result is true, exactly when it is strictly nearer than the recorded hit. */
  function IntersectSpec(num: Numerics, o: Object, ray: Ray, info: Hit, max: Ext): (r: (bool, Hit))
    requires WellFormed(o)
    ensures r.0 ==> Less(r.1.time, info.time) && r.1.time.Fin? && r.1.material == Some(o.material)
    ensures r.0 ==> Candidate(num, o, ray, max) == Some(r.1)
    ensures !r.0 ==> r.1 == info
    ensures r.0 <==> Candidate(num, o, ray, max).Some? && Less(Candidate(num, o, ray, max).value.time, info.time)
  {
    var c := Candidate(num, o, ray, max);
    if c.Some? && Less(c.value.time, info.time) then (true, c.value) else (false, info)
  }

  /** The base class's `Intersect` reports no hit and leaves the record alone. */
  lemma BaseObjectNeverHits(num: Numerics, o: Object, ray: Ray, info: Hit, max: Ext)
    requires o.BaseObject?
    ensures IntersectSpec(num, o, ray, info, max) == (false, info)
  {
  }

  // Geometry of the sphere test.

  /** `t` with `t a = -halfB + sq`, for a square root `sq` of `halfB^2 - a c`,
      solves `a t^2 + 2 halfB t + c = 0`; the sign of `sq` does not matter. */
  lemma {:induction false} RootSolves(a: real, halfB: real, c: real, sq: real, t: real)
    requires a != 0.0 && sq * sq == halfB * halfB - a * c
    requires t * a == -halfB + sq
    ensures a * (t * t) + 2.0 * halfB * t + c == 0.0
  {
    var u := t * a + halfB;
    assert u * u == a * (a * (t * t)) + a * (2.0 * halfB * t) + halfB * halfB;
    assert a * (a * (t * t) + 2.0 * halfB * t + c) == 0.0;
    ZeroProduct(a, a * (t * t) + 2.0 * halfB * t + c);
  }

  lemma DivTimes(x: real, a: real)
    requires a != 0.0
    ensures (x / a) * a == x
  {
  }

  /** `t` is a root of `q`. */
  predicate Solves(q: Quadratic, t: real)
  {
    q.a * (t * t) + 2.0 * q.halfB * t + q.c == 0.0
  }

  /** Both quotients `(-halfB +- sq) / a` solve the quadratic. */
  lemma {:induction false} QuotientRootsSolve(q: Quadratic, sq: real)
    requires q.a != 0.0 && sq * sq == q.halfB * q.halfB - q.a * q.c
    ensures Solves(q, (-q.halfB + sq) / q.a)
    ensures Solves(q, (-q.halfB - sq) / q.a)
  {
    var a, halfB, c := q.a, q.halfB, q.c;
    DivTimes(-halfB + sq, a);
    DivTimes(-halfB - sq, a);
    RootSolves(a, halfB, c, sq, (-halfB + sq) / a);
    assert (-sq) * (-sq) == sq * sq;
    RootSolves(a, halfB, c, -sq, (-halfB - sq) / a);
  }

  /** Both roots the sphere test computes solve the quadratic. */
  lemma {:induction false} RootsSolve(num: Numerics, q: Quadratic)
    requires Sound(num)
    requires q.a != 0.0 && Discriminant(q) >= 0.0
    ensures Solves(q, FarRoot(num, q)) && Solves(q, NearRoot(num, q))
  {
    DiscriminantIsFourTimes(q);
    var d := q.halfB * q.halfB - q.a * q.c;
    assert d >= 0.0;
    var sq := num.sqrt(d);
    assert sq * sq == q.halfB * q.halfB - q.a * q.c;
    QuotientRootsSolve(q, sq);
  }

  /** The squared distance from a centre along a ray, as a polynomial in t. */
  lemma {:induction false} DistanceAlongRay(ray: Ray, center: Vec3, t: real)
    ensures var ec := Sub(ray.origin, center);
      Dot(Sub(ray.At(t), center), Sub(ray.At(t), center))
        == Dot(ec, ec) + 2.0 * (t * Dot(ray.direction, ec)) + (t * t) * Dot(ray.direction, ray.direction)
  {
    var ec := Sub(ray.origin, center);
    var dt := Scale(ray.direction, t);
    assert Sub(ray.At(t), center) == Add(ec, dt);
    DotAddSelf(ec, dt);
    DotScaleLeft(ray.direction, t, ec);
    DotSymmetric(ec, dt);
    DotScaleSelf(ray.direction, t);
  }

  lemma DiscriminantIsFourTimes(q: Quadratic)
    ensures Discriminant(q) == 4.0 * (q.halfB * q.halfB - q.a * q.c)
  {
  }

  /** A time that solves the ray's quadratic puts the point on the sphere. */
  lemma {:induction false} SolutionOnSurface(ray: Ray, center: Vec3, rr: real, a: real, halfB: real, c: real, t: real)
    requires var ec := Sub(ray.origin, center);
      a == Dot(ray.direction, ray.direction) && halfB == Dot(ray.direction, ec) && c == Dot(ec, ec) - rr
    requires a * (t * t) + 2.0 * halfB * t + c == 0.0
    ensures Dot(Sub(ray.At(t), center), Sub(ray.At(t), center)) == rr
  {
    DistanceAlongRay(ray, center, t);
    assert (t * t) * a == a * (t * t);
    assert 2.0 * (t * halfB) == 2.0 * halfB * t;
  }

  /** Both roots the sphere test computes lie on the sphere. */
  lemma {:induction false} RootsOnSurface(num: Numerics, o: Object, ray: Ray, t: real)
    requires Sound(num)
    requires var q := SphereQuadratic(num, o, ray);
      && q.a != 0.0 && Discriminant(q) >= 0.0
      && (t == FarRoot(num, q) || t == NearRoot(num, q))
    ensures Dot(Sub(ray.At(t), o.centroid), Sub(ray.At(t), o.centroid)) == o.radius * o.radius
  {
    var q := SphereQuadratic(num, o, ray);
    var a, hb, c := q.a, q.halfB, q.c;
    RootsSolve(num, q);
    assert Solves(q, t);
    var rr := num.pow(o.radius, 2.0);
    SolutionOnSurface(ray, o.centroid, rr, a, hb, c, t);
    assert rr == o.radius * o.radius;
  }

  /** The sphere test's hit point lies on the sphere. */
  lemma {:induction false} SphereHitOnSurface(num: Numerics, o: Object, ray: Ray, max: Ext)
    requires Sound(num) && o.Sphere?
    requires SphereCandidate(num, o, ray, max).Some?
    ensures var p := SphereCandidate(num, o, ray, max).value.hitPoint;
      Dot(Sub(p, o.centroid), Sub(p, o.centroid)) == o.radius * o.radius
  {
    RootsOnSurface(num, o, ray, SphereCandidate(num, o, ray, max).value.time.v);
  }

  /** `(x/r)^2 = 1` for `x = r^2` and `r != 0`. */
  lemma UnitRatio(x: real, r: real)
    requires r != 0.0 && x == r * r
    ensures (1.0 / r) * (1.0 / r) * x == 1.0
  {
    assert (1.0 / r) * r == 1.0;
    assert (1.0 / r) * (1.0 / r) * (r * r) == ((1.0 / r) * r) * ((1.0 / r) * r);
  }

  /** For a sphere of non-zero radius the normal of a hit is a unit vector. */
  lemma {:induction false} SphereNormalIsUnit(num: Numerics, o: Object, ray: Ray, max: Ext)
    requires Sound(num) && o.Sphere? && o.radius != 0.0
    requires SphereCandidate(num, o, ray, max).Some?
    ensures var n := SphereCandidate(num, o, ray, max).value.normal; Dot(n, n) == 1.0
  {
    var h := SphereCandidate(num, o, ray, max).value;
    var v := Sub(h.hitPoint, o.centroid);
    SphereHitOnSurface(num, o, ray, max);
    assert num.recip(o.radius) == 1.0 / o.radius;
    DotScaleSelf(v, 1.0 / o.radius);
    UnitRatio(Dot(v, v), o.radius);
  }

  /** The roots of a quadratic with `a > 0 > c`: one positive, one negative. */
  lemma {:induction false} RootsStraddleZero(a: real, halfB: real, c: real, sq: real)
    requires a > 0.0 && c < 0.0 && sq >= 0.0
    requires sq * sq == halfB * halfB - a * c
    ensures (-halfB + sq) / a > 0.0 && (-halfB - sq) / a < 0.0
  {
    MulPositive(a, -c);
    var m := Abs(halfB);
    assert m * m == halfB * halfB;
    if sq <= m {
      MulMono(m, sq, m);
      MulMono(m, sq, sq);
    }
    assert -halfB + sq > 0.0 && halfB + sq > 0.0;
    QuotientPositive(-halfB + sq, a);
    QuotientPositive(halfB + sq, a);
    assert (-halfB - sq) / a == -((halfB + sq) / a);
  }

  lemma QuotientPositive(x: real, a: real)
    requires x > 0.0 && a > 0.0
    ensures x / a > 0.0
  {
  }

  lemma DiscriminantPositive(a: real, halfB: real, c: real)
    requires a > 0.0 && c < 0.0
    ensures halfB * halfB - a * c > 0.0
    ensures (halfB * 2.0) * (halfB * 2.0) - a * c * 4.0 > 0.0
  {
    MulPositive(a, -c);
    SquareNonNegative(halfB);
  }

  /** From strictly inside a sphere, along a non-zero direction, the larger
      root of the sphere's quadratic is positive and the smaller negative. */
  lemma {:induction false} InsideRootsStraddle(num: Numerics, o: Object, ray: Ray)
    requires forall a :: num.sqrt(a) >= 0.0
    requires forall a :: a >= 0.0 ==> num.sqrt(a) * num.sqrt(a) == a
    requires num.pow(o.radius, 2.0) == o.radius * o.radius
    requires Dot(ray.direction, ray.direction) > 0.0
    requires Dot(Sub(ray.origin, o.centroid), Sub(ray.origin, o.centroid)) < o.radius * o.radius
    ensures var q := SphereQuadratic(num, o, ray);
      q.a > 0.0 && Discriminant(q) > 0.0 && FarRoot(num, q) > 0.0 && NearRoot(num, q) < 0.0
  {
    var q := SphereQuadratic(num, o, ray);
    InsideCoefficients(num, o, ray);
    DiscriminantPositive(q.a, q.halfB, q.c);
    var d := q.halfB * q.halfB - q.a * q.c;
    var sq := num.sqrt(d);
    assert sq * sq == d;
    RootsStraddleZero(q.a, q.halfB, q.c, sq);
  }

  /** From strictly inside a sphere, along a non-zero direction, the quadratic
      opens upwards and is negative at time 0. */
  lemma {:induction false} InsideCoefficients(num: Numerics, o: Object, ray: Ray)
    requires num.pow(o.radius, 2.0) == o.radius * o.radius
    requires Dot(ray.direction, ray.direction) > 0.0
    requires Dot(Sub(ray.origin, o.centroid), Sub(ray.origin, o.centroid)) < o.radius * o.radius
    ensures SphereQuadratic(num, o, ray).a > 0.0 && SphereQuadratic(num, o, ray).c < 0.0
  {
  }

  /** A ray that starts strictly inside a sphere, with a non-zero direction and
      no distance bound, always hits it: at the larger root, which is positive
      while the smaller one is negative. */
  lemma {:induction false} SphereHitFromInside(num: Numerics, o: Object, ray: Ray)
    requires Sound(num) && o.Sphere?
    requires Dot(ray.direction, ray.direction) > 0.0
    requires Dot(Sub(ray.origin, o.centroid), Sub(ray.origin, o.centroid)) < o.radius * o.radius
    ensures var q := SphereQuadratic(num, o, ray);
      && FarRoot(num, q) > 0.0 && NearRoot(num, q) < 0.0
      && SphereCandidate(num, o, ray, PosInf).Some?
      && SphereCandidate(num, o, ray, PosInf).value.time == Fin(FarRoot(num, q))
  {
    assert num.pow(o.radius, 2.0) == o.radius * o.radius;
    InsideRootsStraddle(num, o, ray);
  }

  // Geometry of the plane and triangle tests.

  /** The offset of a ray's point from `v0`, along `n`, grows linearly in t. */
  lemma {:induction false} OffsetAlongRay(ray: Ray, v0: Vec3, n: Vec3, t: real)
    ensures Dot(Sub(ray.At(t), v0), n) == -Dot(Sub(v0, ray.origin), n) + t * Dot(ray.direction, n)
  {
    assert Sub(ray.At(t), v0) == Add(Sub(ray.origin, v0), Scale(ray.direction, t));
    DotAddLeft(Sub(ray.origin, v0), Scale(ray.direction, t), n);
    DotScaleLeft(ray.direction, t, n);
    assert Sub(ray.origin, v0) == Neg(Sub(v0, ray.origin));
  }

  /** The point at `t = ((v0 - origin).n) / (d.n)` lies in the plane through
      `v0` with normal `n`. */
  lemma {:induction false} ParameterOnPlane(ray: Ray, v0: Vec3, n: Vec3)
    requires Dot(ray.direction, n) != 0.0
    ensures var t := Dot(Sub(v0, ray.origin), n) / Dot(ray.direction, n);
      Dot(Sub(ray.At(t), v0), n) == 0.0
  {
    var w, dn := Dot(Sub(v0, ray.origin), n), Dot(ray.direction, n);
    OffsetAlongRay(ray, v0, n, w / dn);
    assert (w / dn) * dn == w;
  }

  /** A plane or triangle hit lies in the plane of the face: its offset from the
      first vertex is orthogonal to the normal. */
  lemma {:induction false} FlatHitOnPlane(num: Numerics, o: Object, ray: Ray, max: Ext)
    requires (o.Plane? || o.Triangle?) && WellFormed(o)
    requires FlatCandidate(num, o, ray, max).Some?
    ensures Dot(Sub(FlatCandidate(num, o, ray, max).value.hitPoint, o.vertices[0]), o.normal) == 0.0
  {
    ParameterOnPlane(ray, o.vertices[0], o.normal);
  }

  /** The precise membership test accepts every corner of a triangle. */
  lemma {:induction false} TriangleContainsCorners(num: Numerics, o: Object)
    requires o.Triangle? && WellFormed(o)
    requires forall a :: num.sqrt(a) >= 0.0
    requires num.sqrt(0.0) == 0.0
    ensures forall i :: 0 <= i < 3 ==> InsideFace(num, o, o.vertices[i])
  {
    var v := o.vertices;
    assert Sub(v[0], v[0]) == Zero && Sub(v[1], v[1]) == Zero && Sub(v[2], v[2]) == Zero;
    FirstCornerInArea(num, v[0], v[1], v[2]);
    SecondCornerInArea(num, v[0], v[1], v[2]);
    ThirdCornerInArea(num, v[0], v[1], v[2]);
  }

  /** The precise membership test accepts every corner of a quadrilateral: the
      first three through the half v0-v1-v2, the fourth through v0-v2-v3. */
  lemma {:induction false} PlaneContainsCorners(num: Numerics, o: Object)
    requires o.Plane? && WellFormed(o)
    requires forall a :: num.sqrt(a) >= 0.0
    requires num.sqrt(0.0) == 0.0
    ensures forall i :: 0 <= i < 4 ==> InsideFace(num, o, o.vertices[i])
  {
    var v := o.vertices;
    assert Sub(v[0], v[0]) == Zero && Sub(v[1], v[1]) == Zero && Sub(v[2], v[2]) == Zero;
    assert Sub(v[3], v[3]) == Zero;
    FirstCornerInArea(num, v[0], v[1], v[2]);
    SecondCornerInArea(num, v[0], v[1], v[2]);
    ThirdCornerInArea(num, v[0], v[1], v[2]);
    ThirdCornerInArea(num, v[0], v[2], v[3]);
  }

  /** `Object::Intersect` and its overrides: writes time, hit point, material
      and normal through `info` on a strictly nearer hit, and nothing otherwise. */
  method Intersect(num: Numerics, o: Object, ray: Ray, info: IntersectInfo, max: Ext) returns (hit: bool)
    requires WellFormed(o)
    modifies info
    ensures (hit, info.Value()) == IntersectSpec(num, o, ray, old(info.Value()), max)
  {
    var c := Candidate(num, o, ray, max);
    if c.Some? && Less(c.value.time, info.time) {
      info.time := c.value.time;
      info.hitPoint := c.value.hitPoint;
      info.material := c.value.material;
      info.normal := c.value.normal;
      hit := true;
    } else {
      hit := false;
    }
  }
}
