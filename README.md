# A verified model of a Whitted ray tracer's core

This project models the core of a small recursive ray tracer written in C++ with glm. It covers:

- the scene primitives: a base object, spheres, quadrilateral "planes" and triangles;
- their ray-intersection tests, including the area-based test for whether a point lies inside a polygon;
- the point light with quadratic attenuation, and its ambient, diffuse and specular terms;
- the nearest-hit scan over the scene, and the shadow test against the subset of objects that cast shadows;
- the local colour of a hit;
- the reflected and refracted rays;
- the mutual recursion `CastRay` / `CastReflection` / `CastRefraction`. It shares one `Payload` (the accumulated colour and two bounce counters) and is bounded by `MAX_BOUNCES = 2` per counter.

How the C++ maps onto Dafny:

- **Values.** Rays, materials, lights and objects never change after construction, so they are datatypes. Their constructors are functions, and the six-argument `Material` constructor is the datatype constructor itself.
- **In-place state.** `IntersectInfo` and `Payload` are written in place through references, so they are classes.
- **Methods against specification functions.** Every routine that updates one of these classes is a method proved against a function on values:
  - `Intersect` against `IntersectSpec`;
  - the scan loop `ScanObjects` against `Scan`;
  - `CastRay`, `CastReflection` and `CastRefraction` against `CastRaySpec`, `CastReflectionSpec` and `CastRefractionSpec`.
- **The scene.** The scene globals of `RayTracer.h` are one `Scene` value: the two object lists, the light and camera positions, and the light. `DefaultScene` fills in the header's constants.

Arithmetic is over `real`. glm's `sqrt`, `normalize`, `pow` and the reciprocal of a value that may be zero are fields of a `Numerics` record that every computation receives. The predicate `Sound` lists the only facts the proofs assume about them:

- square roots are non-negative, and square back to a non-negative argument;
- `pow(b, 2) = b*b`;
- `pow` of a non-negative base is non-negative;
- `pow(0, e) = 0` for `e > 0`;
- the reciprocal is `1/x` for `x != 0` and is non-negative for `x >= 0`.

A float that may be +infinity is the type `Ext`. The `time` of a fresh `IntersectInfo` and the distance window `MAX` are of this type.

Source behaviours the model keeps as written:

- **Shadow ray direction.** The shadow ray of `checkLight` takes the light's *position* as its direction, not the vector towards the light. `ShadowRayReachesLightOnlyFromOrigin` shows the consequence: the ray passes through the light at time 1 only when it starts at the world origin.
- **Reflection weight.** `CastReflection` scales only the direct light at the reflected hit by the reflectivity. What the recursive `CastRay` adds afterwards is not scaled.
- **Plane and triangle bounds.** These tests accept `t = 0` and a hit at exactly the distance `MAX`. The sphere test needs `t > 0` and a distance strictly below `MAX`. So at exactly the light's distance, a flat occluder shadows a point and a sphere does not.
- **Opaque surfaces.** Any refraction index `<= 0` counts as opaque, not only `0`.

## Model

| member | source | states |
|---|---|---|
| `Geometry.LengthSymmetric` | ray_tracing/Object.cpp:189 | `glm::distance(centroid, point)` equals the length of `point - centroid`, the form the model uses |
| `Materials.DefaultMaterial` | ray_tracing/Object.cpp:43-49 | the default material has zero colours, glossiness and refraction; its reflection is never initialised and stays whatever the argument says |
| `Rays.Ray.At` | ray_tracing/ray_tracing/Ray.h:24-26 | the point at time `t` lies `t` directions away from the origin; time 0 is the origin |
| `Rays.NoHitIsFarthest` | ray_tracing/ray_tracing/Ray.h:31-36 | every finite time is strictly nearer than the +infinity time of a fresh record |
| `Rays.IntersectInfo.constructor` | ray_tracing/ray_tracing/Ray.h:31-36 | a fresh record holds time +infinity, zero point and normal, and no material |
| `Rays.IntersectInfo.Assign` | ray_tracing/ray_tracing/Ray.h:48-54 | assignment copies all four fields of the right-hand side |
| `Rays.Payload.constructor` | ray_tracing/ray_tracing/Ray.h:59-63 | a fresh payload is black with both bounce counters at 0 |
| `Lights.MakeLight` | ray_tracing/ray_tracing/Light.cpp:9-19 | the arguments are stored, except that the constant term becomes 1 exactly when the linear and quadratic terms are both 0 |
| `Lights.UnattenuatedLight` | ray_tracing/ray_tracing/Light.cpp:17-18 | with that fallback, attenuation is 1 at every distance |
| `Lights.DenominatorNonDecreasing` | ray_tracing/ray_tracing/Light.cpp:24-26 | for non-negative coefficients the attenuation denominator never shrinks with distance, and strictly grows when a linear or quadratic term is present |
| `Lights.AttenuationNonIncreasing` | ray_tracing/ray_tracing/Light.cpp:24-26 | `Lights.Attenuation`, the reciprocal of `constant + linear·d + quadratic·d²`, never grows with distance, and strictly falls when a linear or quadratic term is present |
| `Lights.Ambient` | ray_tracing/ray_tracing/Light.cpp:31-33 | the ambient term is non-negative for non-negative intensity and coefficient |
| `Lights.Diffuse` | ray_tracing/ray_tracing/Light.cpp:38-41 | the diffuse term vanishes when the light is behind the surface (`N.L <= 0`), and is non-negative for non-negative inputs |
| `Lights.SpecularDirectionMirrors` | ray_tracing/ray_tracing/Light.cpp:47-49 | against a unit normal, `L - 2(N.L)N` flips the normal component of `L` and keeps its length |
| `Lights.SpecularFacts` | ray_tracing/ray_tracing/Light.cpp:46-52 | `Lights.Specular`, `diffuse·Ks·max(0, R·V)^glossiness`, scales with the diffuse intensity, vanishes when the mirrored light points away from the viewer (glossiness > 0), and is non-negative for non-negative inputs |
| `Objects.Fmax` | ray_tracing/Object.cpp:6-11 | the result is at least each argument and equals one of them |
| `Objects.TriangleArea` | ray_tracing/Object.cpp:16-27 | Heron's area is non-negative |
| `Objects.HeronVanishes` | ray_tracing/Object.cpp:23-24 | Heron's product is 0 when one side is the sum of the other two |
| `Objects.AreaRepeatedLast` | ray_tracing/Object.cpp:16-27 | a triangle whose last two corners coincide has area 0 |
| `Objects.AreaRepeatedFirst` | ray_tracing/Object.cpp:16-27 | a triangle whose first two corners coincide has area 0 |
| `Objects.AreaRepeatedOuter` | ray_tracing/Object.cpp:16-27 | a triangle whose first and last corners coincide has area 0 |
| `Objects.FirstCornerInArea` | ray_tracing/Object.cpp:32-38 | the area test `Objects.CheckPointInArea` (the three sub-areas sum to within 1% of the whole) accepts the triangle's first corner |
| `Objects.SecondCornerInArea` | ray_tracing/Object.cpp:32-38 | the area test `Objects.CheckPointInArea` (the three sub-areas sum to within 1% of the whole) accepts the triangle's second corner |
| `Objects.ThirdCornerInArea` | ray_tracing/Object.cpp:32-38 | the area test `Objects.CheckPointInArea` (the three sub-areas sum to within 1% of the whole) accepts the triangle's third corner |
| `Objects.MakeObject` | ray_tracing/Object.cpp:62-64 | the base constructor stores the material |
| `Objects.MakeSphere` | ray_tracing/Object.cpp:70-75 | a sphere keeps its centre, radius and material |
| `Objects.MakePlane` | ray_tracing/Object.cpp:80-105 | a quad stores its four corners in order; the normal is the normalised cross product of two edges from corner 0; four times the centroid is the sum of the corners; the radius is half the longer diagonal plus 0.1 |
| `Objects.MakeTriangle` | ray_tracing/Object.cpp:111-135 | a triangle stores its corners; three times the centroid is their sum; every corner lies within the radius of the centroid, and one lies exactly on it |
| `Objects.SphereCandidate` | ray_tracing/Object.cpp:140-173 | no hit for a negative discriminant. A hit has a positive time, which is one root of the quadratic and is no larger than any non-negative root. Its point lies on the ray at that time, strictly within `MAX` of the origin. Its normal is `(p - C)/r` and its material is the sphere's. Conversely, when the discriminant is non-negative, a positive root that is no larger than the other non-negative root and whose point lies strictly within `MAX` is reported as the hit |
| `Objects.RootsSolve` | ray_tracing/Object.cpp:155-157 | both root formulas solve the sphere's quadratic when the discriminant is non-negative |
| `Objects.SphereHitOnSurface` | ray_tracing/Object.cpp:140-173 | a sphere hit point lies on the sphere: its squared distance from the centre is `r^2` |
| `Objects.SphereNormalIsUnit` | ray_tracing/Object.cpp:168 | the normal of a sphere hit has unit length |
| `Objects.SphereHitFromInside` | ray_tracing/Object.cpp:153-170 | a ray from strictly inside a sphere, unbounded and with a non-zero direction, always hits it, at the larger root; the smaller root is negative |
| `Objects.FlatCandidate` | ray_tracing/Object.cpp:178-205 | no hit for a ray parallel to the face. A hit has `t >= 0`, with `t` as in the plane equation. Its point is no farther than `MAX`, within the radius of the centroid, and passes the membership test. It has the face's normal and material. Conversely, for a non-parallel ray, a plane-equation time `t >= 0` whose point passes the distance, radius and membership tests is always a hit (the same code serves triangles, ray_tracing/Object.cpp:210-237) |
| `Objects.FlatHitOnPlane` | ray_tracing/Object.cpp:182-183 | a flat hit point lies in the face's plane |
| `Objects.PlaneContainsCorners` | ray_tracing/Object.cpp:192 | the quad's membership test accepts all four corners |
| `Objects.TriangleContainsCorners` | ray_tracing/Object.cpp:224 | the triangle's membership test accepts all three corners |
| `Objects.Candidate` | ray_tracing/Object.h:41 | the base class offers no hit; any hit offered has a finite time and the object's own material |
| `Objects.IntersectSpec` | ray_tracing/Object.cpp:164-170 | the record is replaced, and true returned, exactly when the object offers a hit strictly nearer than the recorded one; otherwise the record is untouched |
| `Objects.BaseObjectNeverHits` | ray_tracing/Object.h:41 | the base `Intersect` returns false and leaves the record alone |
| `Objects.Intersect` | ray_tracing/Object.cpp:140-173 | the method writes the record in place exactly as `IntersectSpec` says |
| `Tracer.DefaultScene` | ray_tracing/ray_tracing/RayTracer.h:14-19 | the camera is at (-10,10,10), the light at (-6,4,3), and the light is `(.7, 1, 0, .3, 0)` |
| `Tracer.DefaultLightIsLinear` | ray_tracing/ray_tracing/RayTracer.h:19 | the scene's light keeps constant term 0, so its attenuation at distance `d > 0` is `1/(0.3 d)` |
| `Tracer.Scan` | ray_tracing/RayTracer.cpp:23-30 | the flag is false only when the record is untouched; a reported hit is strictly nearer than the start, finite, and has a material |
| `Tracer.ScanIsPick` | ray_tracing/RayTracer.cpp:23-30 | the scan equals the reference selection `Pick` over the hits the objects offer |
| `Tracer.PickFindsNearest` | ray_tracing/RayTracer.cpp:23-30 | the selection reports a hit exactly when some offer beats the start. It returns an offer that nothing beats and that is strictly nearer than every earlier offer, so the first wins ties |
| `Tracer.ScanFindsNearest` | ray_tracing/RayTracer.cpp:23-30 | `CheckIntersection` reports a hit exactly when some object offers one nearer than the record. It keeps the nearest offer, the first in scene order among equals |
| `Tracer.ScanMaterial` | ray_tracing/RayTracer.cpp:23-30 | the scanned hit carries the material of one of the scanned objects |
| `Tracer.ScanObjects` | ray_tracing/RayTracer.cpp:23-30 | the loop over the objects leaves in the record, and returns, what `Scan` says |
| `Tracer.CheckIntersection` | ray_tracing/RayTracer.cpp:23-30 | the scan over every object with an unbounded window |
| `Tracer.CheckIntersectionShadow` | ray_tracing/RayTracer.cpp:36-44 | the scan over the shadow casters, bounded by the distance from the ray origin to the light |
| `Tracer.CalculateColor` | ray_tracing/RayTracer.cpp:49-80 | a shadowed point gets exactly the ambient colour in each channel |
| `Tracer.LitTermNonNegative` | ray_tracing/RayTracer.cpp:58-77 | the attenuated diffuse and specular light is non-negative for non-negative coefficients |
| `Tracer.ShadowNeverBrightens` | ray_tracing/RayTracer.cpp:49-80 | per channel, the shadowed colour is non-negative and no brighter than the lit one |
| `Tracer.ShadowRayReachesLightOnlyFromOrigin` | ray_tracing/RayTracer.cpp:87 | the shadow ray, whose direction is the light position, reaches the light at time 1 exactly when it starts at the world origin |
| `Tracer.ShadowedIffOccluded` | ray_tracing/RayTracer.cpp:85-98 | `Tracer.Shadowed`: a point is in shadow exactly when some shadow caster offers the shadow ray a hit within the window |
| `Tracer.DirectLightNonNegative` | ray_tracing/RayTracer.cpp:85-98 | the direct light `Tracer.DirectLight` (`calculateColor` on the shadow flag) at a hit is non-negative in every channel for non-negative light and material |
| `Tracer.CheckLight` | ray_tracing/RayTracer.cpp:85-98 | with a fresh record and the shadow flag, the method returns the direct light of the hit |
| `Tracer.ReflectionMirrors` | ray_tracing/RayTracer.cpp:103-108 | `Tracer.Reflect` starts 0.1 along the normal from the hit; about a unit normal, its direction has the same normal component and length as the direction back to the ray origin |
| `Tracer.FacingNormal` | ray_tracing/RayTracer.cpp:115 | the oriented normal never points along the ray |
| `Tracer.RefractionObeysSnell` | ray_tracing/RayTracer.cpp:113-121 | `Tracer.Refract` starts 0.1 along its own direction from the hit and obeys Snell's law in vector form, for a unit normal. The refracted direction's normal component is `-sqrt(cosPhi2)`, so it continues through the surface. Its tangential part is the incoming one times the index ratio |
| `Tracer.RefractThroughMatchedIndex` | ray_tracing/RayTracer.cpp:113-121 | across a surface whose index equals air's, the direction is unchanged |
| `Tracer.ClampColor` | ray_tracing/RayTracer.cpp:165-167 | each channel is at most 1; a channel at or below 1 is kept, and one above becomes 1 (no lower clamp) |
| `Tracer.CastRaySpec` | ray_tracing/RayTracer.cpp:160-170 | counters never decrease or pass `MAX_BOUNCES` from below, and the remaining budget never grows. Channels end at most 1. On a matte, opaque surface reached directly, only the clamp applies |
| `Tracer.CastReflectionSpec` | ray_tracing/RayTracer.cpp:126-137 | nothing changes without a reflect bounce left and a positive reflectivity; otherwise the reflect counter grows, and when the reflected ray hits nothing exactly the reflect counter goes up by 1; the counter bounds hold |
| `Tracer.CastRefractionSpec` | ray_tracing/RayTracer.cpp:142-155 | a transparent surface with no bounce left changes nothing, and one with a bounce left increments the refract counter. A transparent surface whose refracted ray hits nothing only increments the refract counter. An opaque surface keeps both counters; reached directly it changes nothing, and reached through a refraction it adds its direct light (`Tracer.DirectLight`) to the colour once. The counter bounds hold |
| `Tracer.ReflectionHitShadesThenRecurses` | ray_tracing/RayTracer.cpp:129-135 | a reflected ray that hits adds the direct light at that hit times the reflectivity, then casts on from that hit with the reflect counter one higher |
| `Tracer.RefractionHitRecurses` | ray_tracing/RayTracer.cpp:145-151 | a refracted ray that hits casts on from that hit with the refract counter one higher and the colour unchanged |
| `Tracer.CastRayNonNegative` | ray_tracing/RayTracer.cpp:160-170 | with non-negative light and materials the accumulated colour never goes negative |
| `Tracer.CastReflectionNonNegative` | ray_tracing/RayTracer.cpp:126-137 | the same for the reflection step |
| `Tracer.CastRefractionNonNegative` | ray_tracing/RayTracer.cpp:142-155 | the same for the refraction step |
| `Tracer.PixelColor` | ray_tracing/RayTracer.cpp:211-220 | a pixel whose ray hits nothing is black, and every channel is at most 1 |
| `Tracer.PixelColorInRange` | ray_tracing/RayTracer.cpp:211-220 | with non-negative light and materials every pixel channel lies in [0, 1] |
| `Tracer.TraceRay` | ray_tracing/RayTracer.cpp:131-132 | a fresh record scanned against every object |
| `Tracer.CastRay` | ray_tracing/RayTracer.cpp:160-170 | refraction, reflection and the clamp loop update the shared payload as `CastRaySpec` says; the returned colour is the payload's |
| `Tracer.CastReflection` | ray_tracing/RayTracer.cpp:126-137 | updates the payload as `CastReflectionSpec` says |
| `Tracer.ShadeReflection` | ray_tracing/RayTracer.cpp:133-134 | adds the reflectivity-weighted direct light at the reflected hit, then recurses |
| `Tracer.CastRefraction` | ray_tracing/RayTracer.cpp:142-155 | updates the payload as `CastRefractionSpec` says |
| `Tracer.AddDirectLight` | ray_tracing/RayTracer.cpp:152-154 | adds the direct light of the current hit to the payload colour |
| `Tracer.RenderPixel` | ray_tracing/RayTracer.cpp:211-220 | a fresh payload and record; on a hit, the direct light followed by `CastRay`; black otherwise. The result is `PixelColor` |

## Left out

- **Display and threads.** OpenGL/GLUT output, the pthread split of the pixel loop, timing and the console output are not modelled. `RenderPixel` is one iteration of the pixel loop, and it receives the primary ray as a parameter.
- **Camera unprojection.** The matrix inversion that builds each pixel's primary ray is not modelled.
- **Scene setup and teardown.** The scene built in `main`, the material constants of `RayTracer.h` and `cleanup` are not modelled: the object lists are parameters.
- **Floating point.** Rounding, NaN and the float width are not modelled. Arithmetic is exact on `real`, with +infinity as `Ext.PosInf`. `sqrt`, `normalize`, `pow` and the reciprocal are abstract, and only the facts in `Sound` are assumed. In particular, `normalize` is not assumed to return a unit vector, so the unit-normal lemmas take that as a premise.
- Tracer.RefractionObeysSnell: under total internal reflection it leaves the refracted direction unconstrained when `cosPhi2 < 0`: the square root's value at a negative argument (NaN in floats) is left open.
- **`abs` in `checkPointInArea`.** It is modelled as the absolute value of a real. If the call resolved to the integer `abs`, the difference would be truncated first; that is not modelled.
- **The material pointer.** The record's material pointer is a copy of the object's material, an `Option`. Pointer identity and sharing are not observable in the model.
- **Bounce counters.** The source keeps them as floats that only hold small whole numbers; the model uses integers.
- **The default `Light` constructor.** It leaves every field uninitialised and the traced scene never uses it, so it is not modelled.
- **The older sources.** ray_tracing/ray_tracing/Object.cpp and ray_tracing/ray_tracing/Object.h are an older revision of the primitives and are not part of this model.
- Tracer.CastRaySpec: its contract bounds the counters and the budget, and says when nothing happens. It does not fix the exact number of bounces along a path, which depends on which secondary rays hit.
