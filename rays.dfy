/**
  The value types of ray_tracing/ray_tracing/Ray.h: a ray, the hit record
  (`IntersectInfo`) and the recursion state (`Payload`).
*/
module Rays {
  import opened Geometry
  import opened Materials

  /** A ray; the constructor stores `direction` as given, without normalising it. */
  datatype Ray = Ray(origin: Vec3, direction: Vec3) {

    /** `operator()`: the position at time `t`. */
    function At(t: real): (p: Vec3)
      ensures Sub(p, origin) == Scale(direction, t)
      ensures t == 0.0 ==> p == origin
    {
      Add(origin, Scale(direction, t))
    }
  }

  /** The contents of an `IntersectInfo`. `material` is None for the null pointer
      of a fresh record, otherwise the hit object's own material. */
  datatype Hit = Hit(hitPoint: Vec3, normal: Vec3, time: Ext, material: Option<Material>)

  /** A freshly constructed `IntersectInfo`: no hit yet, at time +infinity. */
  const NoHit: Hit := Hit(Zero, Zero, PosInf, None)

  /** Any finite time is strictly nearer than that of a fresh record. */
  lemma NoHitIsFarthest(t: real)
    ensures Less(Fin(t), NoHit.time)
  {
  }

  /** The hit record, written in place by the intersection routines. */
  class IntersectInfo {
    var hitPoint: Vec3
    var normal: Vec3
    var time: Ext
    var material: Option<Material>

    function Value(): Hit
      reads this
    {
      Hit(hitPoint, normal, time, material)
    }

    constructor ()
      ensures Value() == NoHit
    {
      time := PosInf;
      hitPoint := Zero;
      normal := Zero;
      material := None;
    }

    /** `operator=`: copies the four fields of `rhs`. */
    method Assign(rhs: IntersectInfo)
      modifies this
      ensures Value() == old(rhs.Value())
    {
      var h := rhs.Value();
      hitPoint := h.hitPoint;
      material := h.material;
      normal := h.normal;
      time := h.time;
    }
  }

  /** The contents of a `Payload`: the accumulated colour and the two bounce
      counters (floats in the source that only ever hold small whole numbers). */
  datatype PayloadState = PayloadState(color: Vec3, reflect: int, refract: int)

  /** The recursion state shared by reference across one primary ray's recursion. */
  class Payload {
    var color: Vec3
    var numBouncesReflect: int
    var numBouncesRefract: int

    function State(): PayloadState
      reads this
    {
      PayloadState(color, numBouncesReflect, numBouncesRefract)
    }

    constructor ()
      ensures State() == PayloadState(Zero, 0, 0)
    {
      color := Zero;
      numBouncesReflect := 0;
      numBouncesRefract := 0;
    }
  }
}
