/**
  Surface materials (class `Material` of ray_tracing/Object.h). A material is a
  plain value: every object holds its own copy, and the getters of the source
  are the datatype's field selectors (`ambient.At(channel)` for
  `getAmbient(channel)`, with the channel index restricted to 0..2 by `At`).
*/
module Materials {
  import opened Geometry

  datatype Material = Material(
    ambient: Vec3,
    diffuse: Vec3,
    specular: Vec3,
    glossiness: real,
    reflection: real,
    refraction: real)

  /** The default constructor: every coefficient is zero except `reflection`,
      which the constructor never initialises; `unsetReflection` stands for
      whatever value that field happens to hold. */
  function DefaultMaterial(unsetReflection: real): (m: Material)
    ensures m.ambient == Zero && m.diffuse == Zero && m.specular == Zero
    ensures m.glossiness == 0.0 && m.refraction == 0.0
    ensures m.reflection == unsetReflection
  {
    Material(Zero, Zero, Zero, 0.0, unsetReflection, 0.0)
  }
}
