/**
  The recursive Whitted tracer of ray_tracing/RayTracer.cpp: the nearest-hit
  scan over the scene's objects, the shadow test, the local colour, the
  reflected and refracted rays, and the mutual recursion `CastRay` /
  `CastReflection` / `CastRefraction` bounded by `MAX_BOUNCES`.

  The globals of ray_tracing/ray_tracing/RayTracer.h become a `Scene` value
  that every operation receives.
*/
module Tracer {
  import opened Geometry
  import opened Materials
  import opened Rays
  import opened Lights
  import opened Objects

  /** Number of reflected and of refracted bounces allowed per primary ray. */
  const MAX_BOUNCES: int := 2

  /** Refraction index of air. */
  const AIR_REF: real := 1.0

  const CAMERA_POS: Vec3 := Vec3(-10.0, 10.0, 10.0)
  const LIGHT_POS: Vec3 := Vec3(-6.0, 4.0, 3.0)
  const LIGHT_0: Light := MakeLight(0.7, 1.0, 0.0, 0.3, 0.0)

  /** The global scene: every object, the objects tested by shadow rays, the
      light and camera positions and the light. */
  datatype Scene = Scene(
    objects: seq<Object>,
    canCastShadow: seq<Object>,
    lightPos: Vec3,
    cameraPos: Vec3,
    light: Light)

  /** The scene of RayTracer.h for the given object lists. */
  function DefaultScene(objects: seq<Object>, canCastShadow: seq<Object>): (s: Scene)
    ensures s.objects == objects && s.canCastShadow == canCastShadow
    ensures s.cameraPos == Vec3(-10.0, 10.0, 10.0) && s.lightPos == Vec3(-6.0, 4.0, 3.0)
    ensures s.light == Light(0.7, 1.0, 0.0, 0.3, 0.0)
  {
    Scene(objects, canCastShadow, LIGHT_POS, CAMERA_POS, LIGHT_0)
  }

  /** The scene's light is attenuated linearly only: its constant term stays 0,
      so its attenuation is `1 / (0.3 d)` at every distance `d > 0`. */
  lemma DefaultLightIsLinear(num: Numerics, d: real)
    requires Sound(num) && d > 0.0
    ensures Attenuation(num, LIGHT_0, d) == 1.0 / (0.3 * d)
  {
    assert LIGHT_0 == Light(0.7, 1.0, 0.0, 0.3, 0.0);
    assert Denominator(num, LIGHT_0, d) == 0.3 * d;
  }

  predicate AllWellFormed(objs: seq<Object>)
  {
    forall i :: 0 <= i < |objs| ==> WellFormed(objs[i])
  }

  predicate SceneWellFormed(s: Scene)
  {
    AllWellFormed(s.objects) && AllWellFormed(s.canCastShadow)
  }

  // ---------------------------------------------------------------------------
  // Nearest hit

  /** The loop of `CheckIntersection`: every object in order offers its hit to
      the record; the flag says whether any of them took it. */
  function Scan(num: Numerics, objs: seq<Object>, ray: Ray, info: Hit, max: Ext): (r: (bool, Hit))
    requires AllWellFormed(objs)
    ensures !r.0 ==> r.1 == info
    ensures r.0 ==> Less(r.1.time, info.time) && r.1.time.Fin? && r.1.material.Some?
    decreases |objs|
  {
    if |objs| == 0 then (false, info)
    else
      var last := |objs| - 1;
      var prefix := Scan(num, objs[..last], ray, info, max);
      var step := IntersectSpec(num, objs[last], ray, prefix.1, max);
      if step.0 && prefix.0 then LessTransitive(step.1.time, prefix.1.time, info.time); (true, step.1)
      else (prefix.0 || step.0, step.1)
  }

  /** The hit each object offers the ray, in scene order. */
  function Offers(num: Numerics, objs: seq<Object>, ray: Ray, max: Ext): (r: seq<Option<Hit>>)
    requires AllWellFormed(objs)
    ensures |r| == |objs|
    ensures forall i :: 0 <= i < |objs| ==> r[i] == Candidate(num, objs[i], ray, max)
  {
    seq(|objs|, i requires 0 <= i < |objs| => Candidate(num, objs[i], ray, max))
  }

  /** The scan on the offers alone: the last offer replaces the record kept over
      the earlier ones exactly when it is strictly nearer. */
  function Pick(offers: seq<Option<Hit>>, info: Hit): (bool, Hit)
  {
    if |offers| == 0 then (false, info)
    else
      var prefix := Pick(offers[..|offers| - 1], info);
      var c := offers[|offers| - 1];
      if c.Some? && Less(c.value.time, prefix.1.time) then (true, c.value) else prefix
  }

  /** Offer `c` is strictly nearer than time `t`. */
  predicate Beats(c: Option<Hit>, t: Ext)
  {
    c.Some? && Less(c.value.time, t)
  }

  /** `h` is offer `k`, no offer is strictly nearer, and every offer before `k`
      is absent or strictly farther. */
  predicate NearestAmong(offers: seq<Option<Hit>>, h: Hit, k: int)
  {
    && 0 <= k < |offers|
    && offers[k] == Some(h)
    && (forall j :: 0 <= j < |offers| ==> !Beats(offers[j], h.time))
    && (forall j :: 0 <= j < k ==> offers[j].Some? ==> Less(h.time, offers[j].value.time))
  }

  lemma NotLessThenLess(a: Ext, b: Ext, c: Ext)
    requires Less(c, b) && !Less(a, b)
    ensures Less(c, a)
  {
  }

  /** The scan computes `Pick` of the offers. */
  lemma {:induction false} ScanIsPick(num: Numerics, objs: seq<Object>, ray: Ray, info: Hit, max: Ext)
    requires AllWellFormed(objs)
    ensures Scan(num, objs, ray, info, max) == Pick(Offers(num, objs, ray, max), info)
    decreases |objs|
  {
    if |objs| > 0 {
      var last := |objs| - 1;
      ScanIsPick(num, objs[..last], ray, info, max);
      var offers := Offers(num, objs, ray, max);
      assert Offers(num, objs[..last], ray, max) == offers[..last];
      var prefix := Scan(num, objs[..last], ray, info, max);
      assert offers[last] == Candidate(num, objs[last], ray, max);
      assert IntersectSpec(num, objs[last], ray, prefix.1, max).1 == Pick(offers, info).1 by {
        assert Pick(offers[..last], info) == prefix;
      }
    }
  }

  /** `Pick` reports a hit exactly when some offer beats the starting record, and
      then returns the nearest offer, the first one among equally near. */
  lemma {:induction false} PickFindsNearest(offers: seq<Option<Hit>>, info: Hit)
    ensures Pick(offers, info).0 <==> exists k :: 0 <= k < |offers| && Beats(offers[k], info.time)
    ensures Pick(offers, info).0 ==> exists k :: NearestAmong(offers, Pick(offers, info).1, k)
    ensures !Pick(offers, info).0 ==> Pick(offers, info).1 == info
    decreases |offers|
  {
    if |offers| == 0 {
      return;
    }
    var last := |offers| - 1;
    var p := offers[..last];
    assert forall j :: 0 <= j < last ==> p[j] == offers[j];
    PickFindsNearest(p, info);
    var prefix := Pick(p, info);
    var c := offers[last];
    if Beats(c, prefix.1.time) {
      var h := c.value;
      if prefix.0 {
        var k' :| NearestAmong(p, prefix.1, k');
        LessTransitive(h.time, prefix.1.time, info.time);
        forall j | 0 <= j < last
          ensures !Beats(offers[j], h.time)
          ensures offers[j].Some? ==> Less(h.time, offers[j].value.time)
        {
          assert !Beats(p[j], prefix.1.time);
          if offers[j].Some? {
            NotLessThenLess(offers[j].value.time, prefix.1.time, h.time);
          }
        }
      } else {
        forall j | 0 <= j < last
          ensures !Beats(offers[j], h.time)
          ensures offers[j].Some? ==> Less(h.time, offers[j].value.time)
        {
          assert !Beats(p[j], info.time);
          if offers[j].Some? {
            NotLessThenLess(offers[j].value.time, info.time, h.time);
          }
        }
      }
      assert NearestAmong(offers, h, last);
      assert Beats(offers[last], info.time);
    } else if prefix.0 {
      var k :| NearestAmong(p, prefix.1, k);
      assert NearestAmong(offers, prefix.1, k);
    } else {
      forall k | 0 <= k < |offers|
        ensures !Beats(offers[k], info.time)
      {
        if k < last {
          assert !Beats(p[k], info.time);
        }
      }
    }
  }

  /** `CheckIntersection` reports a hit exactly when some object offers one
      strictly nearer than the starting record, and then leaves in the record
      the nearest offer, the first one in scene order among equally near. */
  lemma {:induction false} ScanFindsNearest(num: Numerics, objs: seq<Object>, ray: Ray, info: Hit, max: Ext)
    requires AllWellFormed(objs)
    ensures var offers := Offers(num, objs, ray, max);
      Scan(num, objs, ray, info, max).0 <==> exists k :: 0 <= k < |objs| && Beats(offers[k], info.time)
    ensures var offers := Offers(num, objs, ray, max);
      Scan(num, objs, ray, info, max).0 ==> exists k :: NearestAmong(offers, Scan(num, objs, ray, info, max).1, k)
  {
    ScanIsPick(num, objs, ray, info, max);
    PickFindsNearest(Offers(num, objs, ray, max), info);
  }

  /** The loop of `CheckIntersection`, in place on the record `info`. */
  method ScanObjects(num: Numerics, objs: seq<Object>, ray: Ray, info: IntersectInfo, max: Ext) returns (flag: bool)
    requires AllWellFormed(objs)
    modifies info
    ensures (flag, info.Value()) == Scan(num, objs, ray, old(info.Value()), max)
  {
    ghost var start := info.Value();
    flag := false;
    var i := 0;
    while i < |objs|
      invariant 0 <= i <= |objs|
      invariant (flag, info.Value()) == Scan(num, objs[..i], ray, start, max)
    {
      assert objs[..i + 1][..i] == objs[..i];
      var hit := Intersect(num, objs[i], ray, info, max);
      if hit {
        flag := true;
      }
      i := i + 1;
    }
    assert objs[..|objs|] == objs;
  }

  /** `CheckIntersection`: the nearest hit among all objects, at any distance. */
  method CheckIntersection(num: Numerics, scene: Scene, ray: Ray, info: IntersectInfo) returns (flag: bool)
    requires SceneWellFormed(scene)
    modifies info
    ensures (flag, info.Value()) == Scan(num, scene.objects, ray, old(info.Value()), PosInf)
  {
    flag := ScanObjects(num, scene.objects, ray, info, PosInf);
  }

  /** The distance window of a shadow ray: from its origin to the light. */
  function ShadowWindow(num: Numerics, scene: Scene, ray: Ray): Ext
  {
    Fin(Length(num, Sub(scene.lightPos, ray.origin)))
  }

  /** `CheckIntersection_Shadow`: the nearest hit among the shadow casters, no
      farther than the light. */
  method CheckIntersectionShadow(num: Numerics, scene: Scene, ray: Ray, info: IntersectInfo) returns (flag: bool)
    requires SceneWellFormed(scene)
    modifies info
    ensures (flag, info.Value()) == Scan(num, scene.canCastShadow, ray, old(info.Value()), ShadowWindow(num, scene, ray))
  {
    var lengthToLight := Length(num, Sub(scene.lightPos, ray.origin));
    flag := ScanObjects(num, scene.canCastShadow, ray, info, Fin(lengthToLight));
  }

  /** A hit the scan returns is one of the objects' own hits, so it carries the
      material of one of them. */
  lemma {:induction false} ScanMaterial(num: Numerics, objs: seq<Object>, ray: Ray, info: Hit, max: Ext)
    requires AllWellFormed(objs)
    requires Scan(num, objs, ray, info, max).0
    ensures exists k :: 0 <= k < |objs| && Scan(num, objs, ray, info, max).1.material == Some(objs[k].material)
  {
    ScanFindsNearest(num, objs, ray, info, max);
    var offers := Offers(num, objs, ray, max);
    var h := Scan(num, objs, ray, info, max).1;
    var k :| NearestAmong(offers, h, k);
    assert Candidate(num, objs[k], ray, max) == Some(h);
  }

  // ---------------------------------------------------------------------------
  // Local colour

  predicate NonNegative(v: Vec3)
  {
    v.x >= 0.0 && v.y >= 0.0 && v.z >= 0.0
  }

  predicate NonNegativeMaterial(m: Material)
  {
    NonNegative(m.ambient) && NonNegative(m.diffuse) && NonNegative(m.specular)
  }

  predicate NonNegativeLight(light: Light)
  {
    && light.ambient >= 0.0 && light.diffuse >= 0.0
    && light.constantAtt >= 0.0 && light.linearAtt >= 0.0 && light.quadraticAtt >= 0.0
  }

  /** Non-negative light intensities and attenuation coefficients, and
      non-negative colour coefficients on every object. */
  predicate NonNegativeScene(s: Scene)
  {
    NonNegativeLight(s.light) && forall i :: 0 <= i < |s.objects| ==> NonNegativeMaterial(s.objects[i].material)
  }

  /** The light that reaches an unshadowed point in channel `i`: the attenuated
      sum of the diffuse and specular terms. */
  function LitTerm(num: Numerics, scene: Scene, h: Hit, i: int): real
    requires h.material.Some? && 0 <= i < 3
  {
    var m := h.material.value;
    var toLight := num.normalize(Sub(scene.lightPos, h.hitPoint));
    var toCamera := num.normalize(Sub(scene.cameraPos, h.hitPoint));
    var distance := Length(num, Sub(scene.lightPos, h.hitPoint));
    var attenuation := Attenuation(num, scene.light, distance);
    attenuation * (Diffuse(scene.light, m.diffuse.At(i), h.normal, toLight)
      + Specular(num, scene.light, m.specular.At(i), h.normal, Neg(toLight), toCamera, m.glossiness))
  }

  /** Channel `i` of `calculateColor`: the ambient term alone in shadow, the
      ambient term plus the lit term otherwise. */
  function Channel(num: Numerics, scene: Scene, h: Hit, shadow: bool, i: int): real
    requires h.material.Some? && 0 <= i < 3
  {
    var ambient := Ambient(scene.light, h.material.value.ambient.At(i));
    if shadow then ambient else ambient + LitTerm(num, scene, h, i)
  }

  /** `calculateColor`: a point in shadow gets the ambient colour only. */
  function CalculateColor(num: Numerics, scene: Scene, h: Hit, shadow: bool): (c: Vec3)
    requires h.material.Some?
    ensures shadow ==> forall i :: 0 <= i < 3 ==> c.At(i) == scene.light.ambient * h.material.value.ambient.At(i)
  {
    Vec3(Channel(num, scene, h, shadow, 0), Channel(num, scene, h, shadow, 1), Channel(num, scene, h, shadow, 2))
  }

  /** With non-negative coefficients the lit term is non-negative. */
  lemma {:induction false} LitTermNonNegative(num: Numerics, scene: Scene, h: Hit, i: int)
    requires Sound(num) && NonNegativeLight(scene.light)
    requires h.material.Some? && NonNegativeMaterial(h.material.value) && 0 <= i < 3
    ensures LitTerm(num, scene, h, i) >= 0.0
  {
    var m := h.material.value;
    var light := scene.light;
    var toLight := num.normalize(Sub(scene.lightPos, h.hitPoint));
    var toCamera := num.normalize(Sub(scene.cameraPos, h.hitPoint));
    var d := Length(num, Sub(scene.lightPos, h.hitPoint));
    assert d >= 0.0;
    assert num.pow(d, 2.0) == d * d;
    MulNonNegative(d, d);
    MulNonNegative(light.linearAtt, d);
    MulNonNegative(light.quadraticAtt, d * d);
    var den := Denominator(num, light, d);
    assert den >= 0.0;
    var att := Attenuation(num, light, d);
    assert att == num.recip(den);
    assert att >= 0.0;
    assert m.diffuse.At(i) >= 0.0 && m.specular.At(i) >= 0.0;
    var diffuse := Diffuse(light, m.diffuse.At(i), h.normal, toLight);
    SpecularFacts(num, light, m.specular.At(i), h.normal, Neg(toLight), toCamera, m.glossiness);
    var specular := Specular(num, light, m.specular.At(i), h.normal, Neg(toLight), toCamera, m.glossiness);
    MulNonNegative(att, diffuse + specular);
  }

  /** A shadow never brightens a point, and with non-negative coefficients every
      channel of the local colour is non-negative, lit or not. */
  lemma {:induction false} ShadowNeverBrightens(num: Numerics, scene: Scene, h: Hit)
    requires Sound(num) && NonNegativeLight(scene.light)
    requires h.material.Some? && NonNegativeMaterial(h.material.value)
    ensures forall i :: 0 <= i < 3 ==>
      0.0 <= CalculateColor(num, scene, h, true).At(i) <= CalculateColor(num, scene, h, false).At(i)
  {
    var m := h.material.value;
    forall i | 0 <= i < 3
      ensures 0.0 <= CalculateColor(num, scene, h, true).At(i) <= CalculateColor(num, scene, h, false).At(i)
    {
      LitTermNonNegative(num, scene, h, i);
      assert m.ambient.At(i) >= 0.0;
      MulNonNegative(scene.light.ambient, m.ambient.At(i));
    }
  }

  // ---------------------------------------------------------------------------
  // Shadow test

  /** The shadow ray of `checkLight`: it starts just off the surface and takes
      the light's position itself as its direction. */
  function ShadowRay(scene: Scene, h: Hit): Ray
  {
    Ray(Add(h.hitPoint, Scale(h.normal, 0.1)), scene.lightPos)
  }

  /** Because the light's position is used as a direction, the shadow ray passes
      through the light at time 1 exactly when it starts at the world origin. */
  lemma ShadowRayReachesLightOnlyFromOrigin(scene: Scene, h: Hit)
    ensures ShadowRay(scene, h).At(1.0) == scene.lightPos <==> ShadowRay(scene, h).origin == Zero
  {
    var r := ShadowRay(scene, h);
    assert Sub(r.At(1.0), r.origin) == scene.lightPos;
  }

  /** The flag `checkLight` passes to `calculateColor`. */
  predicate Shadowed(num: Numerics, scene: Scene, h: Hit)
    requires SceneWellFormed(scene)
  {
    var ray := ShadowRay(scene, h);
    Scan(num, scene.canCastShadow, ray, NoHit, ShadowWindow(num, scene, ray)).0
  }

  /** A point is in shadow exactly when some shadow caster offers the shadow ray
      a hit within the window. */
  lemma ShadowedIffOccluded(num: Numerics, scene: Scene, h: Hit)
    requires SceneWellFormed(scene)
    ensures var ray := ShadowRay(scene, h);
      var offers := Offers(num, scene.canCastShadow, ray, ShadowWindow(num, scene, ray));
      Shadowed(num, scene, h) <==> exists k :: 0 <= k < |offers| && offers[k].Some?
  {
    var ray := ShadowRay(scene, h);
    var offers := Offers(num, scene.canCastShadow, ray, ShadowWindow(num, scene, ray));
    ScanFindsNearest(num, scene.canCastShadow, ray, NoHit, ShadowWindow(num, scene, ray));
    assert forall k :: 0 <= k < |offers| ==> (offers[k].Some? <==> Beats(offers[k], NoHit.time));
  }

  /** The colour `checkLight` returns for a hit. */
  function DirectLight(num: Numerics, scene: Scene, h: Hit): Vec3
    requires SceneWellFormed(scene) && h.material.Some?
  {
    CalculateColor(num, scene, h, Shadowed(num, scene, h))
  }

  lemma DirectLightNonNegative(num: Numerics, scene: Scene, h: Hit)
    requires Sound(num) && SceneWellFormed(scene) && NonNegativeLight(scene.light)
    requires h.material.Some? && NonNegativeMaterial(h.material.value)
    ensures NonNegative(DirectLight(num, scene, h))
  {
    ShadowNeverBrightens(num, scene, h);
    var c := DirectLight(num, scene, h);
    assert c.At(0) >= 0.0 && c.At(1) >= 0.0 && c.At(2) >= 0.0;
  }

  /** `checkLight`: traces the shadow ray with a fresh record and colours the hit. */
  method CheckLight(num: Numerics, scene: Scene, info: IntersectInfo) returns (c: Vec3)
    requires SceneWellFormed(scene) && info.material.Some?
    ensures c == DirectLight(num, scene, info.Value())
  {
    var checkLuminance := Ray(Add(info.hitPoint, Scale(info.normal, 0.1)), scene.lightPos);
    var temp := new IntersectInfo();
    var shadow := CheckIntersectionShadow(num, scene, checkLuminance, temp);
    c := CalculateColor(num, scene, info.Value(), shadow);
  }

  // ---------------------------------------------------------------------------
  // Secondary rays

  /** `reflect`: mirrors the direction back to the ray's origin about the
      normal, starting just off the surface. */
  function Reflect(num: Numerics, ray: Ray, h: Hit): Ray
  {
    var originToPoint := num.normalize(Sub(ray.origin, h.hitPoint));
    var r := Sub(Scale(Scale(h.normal, 2.0), Dot(h.normal, originToPoint)), originToPoint);
    Ray(Add(h.hitPoint, Scale(h.normal, 0.1)), r)
  }

  /** About a unit normal the reflected direction makes the same angle with the
      normal as the direction back to the ray's origin, and has its length. */
  lemma ReflectionMirrors(num: Numerics, ray: Ray, h: Hit)
    requires Dot(h.normal, h.normal) == 1.0
    ensures var u := num.normalize(Sub(ray.origin, h.hitPoint));
      var r := Reflect(num, ray, h).direction;
      Dot(r, h.normal) == Dot(u, h.normal) && Dot(r, r) == Dot(u, u)
  {
    MirrorAboutUnitNormal(h.normal, num.normalize(Sub(ray.origin, h.hitPoint)));
  }

  /** The ray enters the surface: it travels against the normal. */
  predicate Entering(ray: Ray, h: Hit)
  {
    Dot(h.normal, ray.direction) < 0.0
  }

  /** `mat_dif`: the ratio of refraction indices across the surface. */
  function RelativeIndex(ray: Ray, h: Hit): real
    requires h.material.Some? && h.material.value.refraction != 0.0
  {
    var k := h.material.value.refraction;
    if Entering(ray, h) then AIR_REF / k else k / AIR_REF
  }

  /** `norm`: the normal turned towards the side the ray comes from. */
  function FacingNormal(ray: Ray, h: Hit): (n: Vec3)
    ensures Dot(n, ray.direction) <= 0.0
  {
    if Entering(ray, h) then h.normal else Neg(h.normal)
  }

  /** `cosPhi2`: the squared cosine of the refraction angle, by Snell's law. */
  function CosPhi2(ray: Ray, h: Hit): real
    requires h.material.Some? && h.material.value.refraction != 0.0
  {
    var ratio := RelativeIndex(ray, h);
    var cosTheta := -Dot(FacingNormal(ray, h), ray.direction);
    1.0 - ratio * ratio * (1.0 - cosTheta * cosTheta)
  }

  /** `refract`: bends the ray by Snell's law and starts it just past the
      surface along the new direction. Under total internal reflection the
      square root receives a negative argument, whose value is left open. */
  function Refract(num: Numerics, ray: Ray, h: Hit): Ray
    requires h.material.Some? && h.material.value.refraction != 0.0
  {
    var dir := Bent(ray.direction, FacingNormal(ray, h), RelativeIndex(ray, h), num.sqrt(CosPhi2(ray, h)));
    Ray(Add(h.hitPoint, Scale(dir, 0.1)), dir)
  }

  /** The part of `v` perpendicular to the unit vector `n`. */
  function Tangent(v: Vec3, n: Vec3): Vec3
  {
    Sub(v, Scale(n, Dot(v, n)))
  }

  /** The direction `refract` builds from `d`, the facing normal, the index
      ratio and the root `s`: `ratio d + (ratio cosTheta - s) norm`. */
  function Bent(d: Vec3, norm: Vec3, ratio: real, s: real): Vec3
  {
    Add(Scale(d, ratio), Scale(norm, ratio * -Dot(norm, d) - s))
  }

  lemma NormalComponent(dn: real, nn: real, ratio: real, c: real, s: real)
    requires nn == 1.0 && dn == -c
    ensures ratio * dn + (ratio * c - s) * nn == -s
  {
  }

  lemma {:induction false} BentNormalPart(d: Vec3, norm: Vec3, ratio: real, s: real)
    requires Dot(norm, norm) == 1.0
    ensures Dot(Bent(d, norm, ratio, s), norm) == -s
  {
    var c := -Dot(norm, d);
    var k := ratio * c - s;
    DotAddLeft(Scale(d, ratio), Scale(norm, k), norm);
    DotScaleLeft(d, ratio, norm);
    DotScaleLeft(norm, k, norm);
    DotSymmetric(d, norm);
    NormalComponent(Dot(d, norm), Dot(norm, norm), ratio, c, s);
  }

  lemma TangentComponent(d: real, n: real, ratio: real, c: real, s: real)
    ensures (d * ratio + n * (ratio * c - s)) - n * (-s) == (d - n * (-c)) * ratio
  {
  }

  lemma {:induction false} BentTangentPart(d: Vec3, norm: Vec3, ratio: real, s: real)
    ensures Sub(Bent(d, norm, ratio, s), Scale(norm, -s)) == Scale(Sub(d, Scale(norm, Dot(d, norm))), ratio)
  {
    var c := -Dot(norm, d);
    DotSymmetric(d, norm);
    assert Dot(d, norm) == -c;
    TangentComponent(d.x, norm.x, ratio, c, s);
    TangentComponent(d.y, norm.y, ratio, c, s);
    TangentComponent(d.z, norm.z, ratio, c, s);
  }

  /** Snell's law in vector form, for a unit normal: the refracted direction has
      normal component `-sqrt(cosPhi2)`, so it continues to the far side of the
      surface, and its tangential part is the incoming one scaled by the index
      ratio. */
  lemma {:induction false} RefractionObeysSnell(num: Numerics, ray: Ray, h: Hit)
    requires h.material.Some? && h.material.value.refraction != 0.0
    requires Dot(h.normal, h.normal) == 1.0
    ensures var norm := FacingNormal(ray, h);
      var dir := Refract(num, ray, h).direction;
      Dot(dir, norm) == -num.sqrt(CosPhi2(ray, h))
      && Tangent(dir, norm) == Scale(Tangent(ray.direction, norm), RelativeIndex(ray, h))
  {
    var ratio := RelativeIndex(ray, h);
    var norm := FacingNormal(ray, h);
    var s := num.sqrt(CosPhi2(ray, h));
    if !Entering(ray, h) {
      DotNegSelf(h.normal);
    }
    BentNormalPart(ray.direction, norm, ratio, s);
    BentTangentPart(ray.direction, norm, ratio, s);
  }

  /** The normal correction of `Bent` vanishes when the root cancels the cosine. */
  lemma CancelRoot(norm: Vec3, c: real, s: real)
    requires s == c
    ensures Scale(norm, 1.0 * c - s) == Zero
  {
    assert 1.0 * c - s == 0.0;
  }

  /** Across a surface whose index matches air the refracted ray keeps its
      direction. */
  lemma {:induction false} RefractThroughMatchedIndex(num: Numerics, ray: Ray, h: Hit)
    requires Sound(num) && h.material.Some? && h.material.value.refraction == AIR_REF
    ensures Refract(num, ray, h).direction == ray.direction
  {
    var d := ray.direction;
    assert RelativeIndex(ray, h) == 1.0;
    var norm := FacingNormal(ray, h);
    var c := -Dot(norm, d);
    var s := num.sqrt(CosPhi2(ray, h));
    assert CosPhi2(ray, h) == c * c;
    SqrtOfSquare(num, c);
    CancelRoot(norm, c, s);
    assert Bent(d, norm, 1.0, s) == Add(Scale(d, 1.0), Zero);
  }

  // ---------------------------------------------------------------------------
  // Recursion

  /** Bounces a counter still allows. */
  function Budget(count: int): nat
  {
    if count < MAX_BOUNCES then MAX_BOUNCES - count else 0
  }

  /** Bounces a payload still allows, reflected and refracted together. */
  function Measure(p: PayloadState): nat
  {
    Budget(p.reflect) + Budget(p.refract)
  }

  /** The highest value a counter can reach from `count`. */
  function Ceiling(count: int): int
  {
    if count < MAX_BOUNCES then MAX_BOUNCES else count
  }

  /** Neither counter goes down, and neither goes past `MAX_BOUNCES` unless it
      started there. */
  predicate Progress(p: PayloadState, r: PayloadState)
  {
    && p.reflect <= r.reflect <= Ceiling(p.reflect)
    && p.refract <= r.refract <= Ceiling(p.refract)
  }

  /** `std::min(1, c)` on each channel: the loop at the end of `CastRay`. */
  function ClampColor(c: Vec3): (r: Vec3)
    ensures forall i :: 0 <= i < 3 ==> r.At(i) <= 1.0
    ensures forall i :: 0 <= i < 3 ==> (c.At(i) <= 1.0 ==> r.At(i) == c.At(i)) && (c.At(i) > 1.0 ==> r.At(i) == 1.0)
  {
    Vec3(Min(1.0, c.x), Min(1.0, c.y), Min(1.0, c.z))
  }

  /** The nearest hit of a secondary ray over every object, from a fresh record. */
  function Trace(num: Numerics, scene: Scene, ray: Ray): (bool, Hit)
    requires SceneWellFormed(scene)
  {
    Scan(num, scene.objects, ray, NoHit, PosInf)
  }

  /** `CastRay` on payload values: refraction, then reflection, then the clamp. */
  function CastRaySpec(num: Numerics, scene: Scene, ray: Ray, p: PayloadState, h: Hit): (r: PayloadState)
    requires SceneWellFormed(scene) && h.material.Some?
    ensures Progress(p, r) && Measure(r) <= Measure(p)
    ensures forall i :: 0 <= i < 3 ==> r.color.At(i) <= 1.0
    ensures h.material.value.reflection <= 0.0 && h.material.value.refraction <= 0.0 && p.refract <= 0 ==>
      r == p.(color := ClampColor(p.color))
    decreases Measure(p), 2
  {
    var p1 := CastRefractionSpec(num, scene, ray, p, h);
    var p2 := CastReflectionSpec(num, scene, ray, p1, h);
    p2.(color := ClampColor(p2.color))
  }

  /** `CastReflection` on payload values. */
  function CastReflectionSpec(num: Numerics, scene: Scene, ray: Ray, p: PayloadState, h: Hit): (r: PayloadState)
    requires SceneWellFormed(scene) && h.material.Some?
    ensures Progress(p, r) && Measure(r) <= Measure(p)
    ensures !(p.reflect < MAX_BOUNCES && h.material.value.reflection > 0.0) ==> r == p
    ensures p.reflect < MAX_BOUNCES && h.material.value.reflection > 0.0 ==> r.reflect > p.reflect
    ensures p.reflect < MAX_BOUNCES && h.material.value.reflection > 0.0 && !Trace(num, scene, Reflect(num, ray, h)).0 ==>
      r == p.(reflect := p.reflect + 1)
    decreases Measure(p), 1
  {
    var m := h.material.value;
    if p.reflect < MAX_BOUNCES && m.reflection > 0.0 then
      var p1 := p.(reflect := p.reflect + 1);
      var reflected := Reflect(num, ray, h);
      var (hit, temp) := Trace(num, scene, reflected);
      if hit then
        var p2 := p1.(color := Add(p1.color, Scale(DirectLight(num, scene, temp), m.reflection)));
        CastRaySpec(num, scene, reflected, p2, temp)
      else p1
    else p
  }

  /** `CastRefraction` on payload values. An opaque surface adds its direct light
      when it is reached through a refraction. */
  function CastRefractionSpec(num: Numerics, scene: Scene, ray: Ray, p: PayloadState, h: Hit): (r: PayloadState)
    requires SceneWellFormed(scene) && h.material.Some?
    ensures Progress(p, r) && Measure(r) <= Measure(p)
    ensures h.material.value.refraction > 0.0 && p.refract >= MAX_BOUNCES ==> r == p
    ensures h.material.value.refraction > 0.0 && p.refract < MAX_BOUNCES ==> r.refract > p.refract
    ensures h.material.value.refraction <= 0.0 ==> r.reflect == p.reflect && r.refract == p.refract
    ensures h.material.value.refraction <= 0.0 && p.refract <= 0 ==> r == p
    ensures h.material.value.refraction <= 0.0 && p.refract > 0 ==>
      r == p.(color := Add(p.color, DirectLight(num, scene, h)))
    ensures h.material.value.refraction > 0.0 && p.refract < MAX_BOUNCES && !Trace(num, scene, Refract(num, ray, h)).0 ==>
      r == p.(refract := p.refract + 1)
    decreases Measure(p), 1
  {
    var m := h.material.value;
    if m.refraction > 0.0 then
      if p.refract < MAX_BOUNCES then
        var p1 := p.(refract := p.refract + 1);
        var refracted := Refract(num, ray, h);
        var (hit, temp) := Trace(num, scene, refracted);
        if hit then CastRaySpec(num, scene, refracted, p1, temp) else p1
      else p
    else if p.refract > 0 then p.(color := Add(p.color, DirectLight(num, scene, h)))
    else p
  }

  /** The colour of a pixel whose primary ray is `ray`: black when it hits
      nothing, otherwise the direct light at the hit plus what `CastRay` adds,
      clamped. */
  function PixelColor(num: Numerics, scene: Scene, ray: Ray): (c: Vec3)
    requires SceneWellFormed(scene)
    ensures !Trace(num, scene, ray).0 ==> c == Zero
    ensures forall i :: 0 <= i < 3 ==> c.At(i) <= 1.0
  {
    var (hit, info) := Trace(num, scene, ray);
    if hit then CastRaySpec(num, scene, ray, PayloadState(DirectLight(num, scene, info), 0, 0), info).color
    else Zero
  }

  /** A reflection that hits something adds the direct light there, weighted by
      the reflectivity, and only then casts on from that hit: what the recursive
      cast adds is not weighted. */
  lemma {:induction false} ReflectionHitShadesThenRecurses(num: Numerics, scene: Scene, ray: Ray, p: PayloadState, h: Hit)
    requires SceneWellFormed(scene) && h.material.Some?
    requires p.reflect < MAX_BOUNCES && h.material.value.reflection > 0.0
    requires Trace(num, scene, Reflect(num, ray, h)).0
    ensures var reflected := Reflect(num, ray, h);
      var temp := Trace(num, scene, reflected).1;
      var weighted := Scale(DirectLight(num, scene, temp), h.material.value.reflection);
      CastReflectionSpec(num, scene, ray, p, h)
        == CastRaySpec(num, scene, reflected, p.(reflect := p.reflect + 1, color := Add(p.color, weighted)), temp)
  {
  }

  /** A refraction that hits something casts on from that hit with the refract
      counter one higher and the colour unchanged. */
  lemma {:induction false} RefractionHitRecurses(num: Numerics, scene: Scene, ray: Ray, p: PayloadState, h: Hit)
    requires SceneWellFormed(scene) && h.material.Some?
    requires p.refract < MAX_BOUNCES && h.material.value.refraction > 0.0
    requires Trace(num, scene, Refract(num, ray, h)).0
    ensures var refracted := Refract(num, ray, h);
      var temp := Trace(num, scene, refracted).1;
      CastRefractionSpec(num, scene, ray, p, h)
        == CastRaySpec(num, scene, refracted, p.(refract := p.refract + 1), temp)
  {
  }

  lemma {:induction false} AddScaledNonNegative(a: Vec3, b: Vec3, k: real)
    requires NonNegative(a) && NonNegative(b) && k >= 0.0
    ensures NonNegative(Add(a, Scale(b, k)))
  {
    MulNonNegative(b.x, k);
    MulNonNegative(b.y, k);
    MulNonNegative(b.z, k);
  }

  /** The colour a secondary ray brings back is that of an object of the scene,
      so its coefficients are non-negative when the scene's are. */
  lemma {:induction false} TracedMaterialNonNegative(num: Numerics, scene: Scene, ray: Ray)
    requires SceneWellFormed(scene) && NonNegativeScene(scene)
    requires Trace(num, scene, ray).0
    ensures NonNegativeMaterial(Trace(num, scene, ray).1.material.value)
  {
    ScanMaterial(num, scene.objects, ray, NoHit, PosInf);
  }

  /** With non-negative light and materials the accumulated colour never goes
      negative (mutually with the two lemmas below). */
  lemma {:induction false} CastRayNonNegative(num: Numerics, scene: Scene, ray: Ray, p: PayloadState, h: Hit)
    requires Sound(num) && SceneWellFormed(scene) && NonNegativeScene(scene)
    requires h.material.Some? && NonNegativeMaterial(h.material.value) && NonNegative(p.color)
    ensures NonNegative(CastRaySpec(num, scene, ray, p, h).color)
    decreases Measure(p), 2
  {
    var p1 := CastRefractionSpec(num, scene, ray, p, h);
    CastRefractionNonNegative(num, scene, ray, p, h);
    CastReflectionNonNegative(num, scene, ray, p1, h);
  }

  lemma {:induction false} CastReflectionNonNegative(num: Numerics, scene: Scene, ray: Ray, p: PayloadState, h: Hit)
    requires Sound(num) && SceneWellFormed(scene) && NonNegativeScene(scene)
    requires h.material.Some? && NonNegativeMaterial(h.material.value) && NonNegative(p.color)
    ensures NonNegative(CastReflectionSpec(num, scene, ray, p, h).color)
    decreases Measure(p), 1
  {
    var m := h.material.value;
    if p.reflect < MAX_BOUNCES && m.reflection > 0.0 {
      var p1 := p.(reflect := p.reflect + 1);
      var reflected := Reflect(num, ray, h);
      var (hit, temp) := Trace(num, scene, reflected);
      if hit {
        TracedMaterialNonNegative(num, scene, reflected);
        DirectLightNonNegative(num, scene, temp);
        AddScaledNonNegative(p1.color, DirectLight(num, scene, temp), m.reflection);
        var p2 := p1.(color := Add(p1.color, Scale(DirectLight(num, scene, temp), m.reflection)));
        CastRayNonNegative(num, scene, reflected, p2, temp);
      }
    }
  }

  lemma {:induction false} CastRefractionNonNegative(num: Numerics, scene: Scene, ray: Ray, p: PayloadState, h: Hit)
    requires Sound(num) && SceneWellFormed(scene) && NonNegativeScene(scene)
    requires h.material.Some? && NonNegativeMaterial(h.material.value) && NonNegative(p.color)
    ensures NonNegative(CastRefractionSpec(num, scene, ray, p, h).color)
    decreases Measure(p), 1
  {
    var m := h.material.value;
    if m.refraction > 0.0 {
      if p.refract < MAX_BOUNCES {
        var p1 := p.(refract := p.refract + 1);
        var refracted := Refract(num, ray, h);
        var (hit, temp) := Trace(num, scene, refracted);
        if hit {
          TracedMaterialNonNegative(num, scene, refracted);
          CastRayNonNegative(num, scene, refracted, p1, temp);
        }
      }
    } else if p.refract > 0 {
      DirectLightNonNegative(num, scene, h);
      AddScaledNonNegative(p.color, DirectLight(num, scene, h), 1.0);
      assert Scale(DirectLight(num, scene, h), 1.0) == DirectLight(num, scene, h);
    }
  }

  /** With non-negative light and materials every pixel channel lies in [0, 1]. */
  lemma {:induction false} PixelColorInRange(num: Numerics, scene: Scene, ray: Ray)
    requires Sound(num) && SceneWellFormed(scene) && NonNegativeScene(scene)
    ensures var c := PixelColor(num, scene, ray);
      forall i :: 0 <= i < 3 ==> 0.0 <= c.At(i) <= 1.0
  {
    var (hit, info) := Trace(num, scene, ray);
    if hit {
      TracedMaterialNonNegative(num, scene, ray);
      DirectLightNonNegative(num, scene, info);
      CastRayNonNegative(num, scene, ray, PayloadState(DirectLight(num, scene, info), 0, 0), info);
    }
  }

  // ---------------------------------------------------------------------------
  // The tracer on the shared payload

  /** `CastRay`: refracts, reflects and clamps in place, and returns the colour. */
  method CastRay(num: Numerics, scene: Scene, ray: Ray, payload: Payload, info: IntersectInfo) returns (color: Vec3)
    requires SceneWellFormed(scene) && info.material.Some?
    modifies payload
    ensures payload.State() == CastRaySpec(num, scene, ray, old(payload.State()), info.Value())
    ensures color == payload.color
    decreases Measure(payload.State()), 2
  {
    var h := info.Value();
    CastRefraction(num, scene, ray, payload, h);
    CastReflection(num, scene, ray, payload, h);
    ghost var before := payload.color;
    var i := 0;
    while i < 3
      invariant 0 <= i <= 3
      invariant payload.numBouncesReflect == CastReflectionSpec(num, scene, ray, CastRefractionSpec(num, scene, ray, old(payload.State()), h), h).reflect
      invariant payload.numBouncesRefract == CastReflectionSpec(num, scene, ray, CastRefractionSpec(num, scene, ray, old(payload.State()), h), h).refract
      invariant forall j :: 0 <= j < i ==> payload.color.At(j) == Min(1.0, before.At(j))
      invariant forall j :: i <= j < 3 ==> payload.color.At(j) == before.At(j)
    {
      payload.color := payload.color.With(i, Min(1.0, payload.color.At(i)));
      i := i + 1;
    }
    assert payload.color == ClampColor(before) by {
      assert payload.color.At(0) == Min(1.0, before.x);
      assert payload.color.At(1) == Min(1.0, before.y);
      assert payload.color.At(2) == Min(1.0, before.z);
    }
    color := payload.color;
  }

  /** `CheckIntersection` on a fresh record. */
  method TraceRay(num: Numerics, scene: Scene, ray: Ray) returns (hit: bool, temp: IntersectInfo)
    requires SceneWellFormed(scene)
    ensures fresh(temp)
    ensures (hit, temp.Value()) == Trace(num, scene, ray)
  {
    temp := new IntersectInfo();
    hit := CheckIntersection(num, scene, ray, temp);
  }

  /** `CastReflection`: spends a reflected bounce on a reflective surface and
      follows the mirrored ray. */
  method CastReflection(num: Numerics, scene: Scene, ray: Ray, payload: Payload, info: Hit)
    requires SceneWellFormed(scene) && info.material.Some?
    modifies payload
    ensures payload.State() == CastReflectionSpec(num, scene, ray, old(payload.State()), info)
    decreases Measure(payload.State()), 1
  {
    if payload.numBouncesReflect < MAX_BOUNCES {
      if info.material.value.reflection > 0.0 {
        payload.numBouncesReflect := payload.numBouncesReflect + 1;
        var reflected := Reflect(num, ray, info);
        var hit, temp := TraceRay(num, scene, reflected);
        if hit {
          ShadeReflection(num, scene, reflected, payload, temp, info.material.value.reflection);
        }
      }
    }
  }

  /** The reflected ray hit `temp`: adds the light there, weighted by the
      reflectivity `k`, and follows the ray on. */
  method ShadeReflection(num: Numerics, scene: Scene, reflected: Ray, payload: Payload, temp: IntersectInfo, k: real)
    requires SceneWellFormed(scene) && temp.material.Some?
    modifies payload
    ensures payload.State() == CastRaySpec(num, scene, reflected,
      old(payload.State()).(color := Add(old(payload.color), Scale(DirectLight(num, scene, temp.Value()), k))), temp.Value())
    decreases Measure(payload.State()), 3
  {
    var light := CheckLight(num, scene, temp);
    payload.color := Add(payload.color, Scale(light, k));
    var _ := CastRay(num, scene, reflected, payload, temp);
  }

  /** `CastRefraction`: spends a refracted bounce on a transparent surface and
      follows the bent ray; on an opaque surface reached through a refraction it
      adds the direct light there. */
  method CastRefraction(num: Numerics, scene: Scene, ray: Ray, payload: Payload, info: Hit)
    requires SceneWellFormed(scene) && info.material.Some?
    modifies payload
    ensures payload.State() == CastRefractionSpec(num, scene, ray, old(payload.State()), info)
    decreases Measure(payload.State()), 1
  {
    if info.material.value.refraction > 0.0 {
      if payload.numBouncesRefract < MAX_BOUNCES {
        payload.numBouncesRefract := payload.numBouncesRefract + 1;
        var refracted := Refract(num, ray, info);
        var hit, temp := TraceRay(num, scene, refracted);
        if hit {
          var _ := CastRay(num, scene, refracted, payload, temp);
        }
      }
    } else if payload.numBouncesRefract > 0 {
      AddDirectLight(num, scene, payload, info);
    }
  }

  /** `payload.color += checkLight(info)` for a copy `info` of the record. */
  method AddDirectLight(num: Numerics, scene: Scene, payload: Payload, info: Hit)
    requires SceneWellFormed(scene) && info.material.Some?
    modifies payload
    ensures payload.State() == old(payload.State()).(color := Add(old(payload.color), DirectLight(num, scene, info)))
  {
    var here := new IntersectInfo();
    here.hitPoint, here.normal, here.time, here.material := info.hitPoint, info.normal, info.time, info.material;
    var light := CheckLight(num, scene, here);
    payload.color := Add(payload.color, light);
  }

  /** The body of the per-pixel loop: a fresh payload and record, the primary
      hit's direct light, then `CastRay`; black when nothing is hit. */
  method RenderPixel(num: Numerics, scene: Scene, ray: Ray) returns (colour: Vec3)
    requires SceneWellFormed(scene)
    ensures colour == PixelColor(num, scene, ray)
  {
    var payload := new Payload();
    var info := new IntersectInfo();
    var hit := CheckIntersection(num, scene, ray, info);
    if hit {
      var light := CheckLight(num, scene, info);
      payload.color := Add(payload.color, light);
      colour := CastRay(num, scene, ray, payload, info);
    } else {
      colour := Zero;
    }
  }
}
