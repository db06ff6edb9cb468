/** The per-vertex view-volume test and the whole-triangle cull built on it. */
module Cull {
  import opened Geometry

  /** The canonical view volume of normalised device coordinates: x, y in [-1, 1], z in [0, 1]. */
  predicate InCanonicalVolume(p: Vec4)
  {
    -1.0 <= p.x <= 1.0 && -1.0 <= p.y <= 1.0 && 0.0 <= p.z <= 1.0
  }

  /** `IsInsideFrustrum`: despite its name it answers true for a point OUTSIDE the volume. */
  function OutsideFrustum(p: Vec4): (r: bool)
    ensures r <==> !InCanonicalVolume(p)
  {
    p.x < -1.0 || p.x > 1.0 || p.y > 1.0 || p.y < -1.0 || p.z > 1.0 || p.z < 0.0
  }

  /** A triangle is dropped whole when any one of its three vertices lies outside the volume. */
  function Culled(v0: VertexOut, v1: VertexOut, v2: VertexOut): (r: bool)
    ensures !r <==> InCanonicalVolume(v0.position) && InCanonicalVolume(v1.position) && InCanonicalVolume(v2.position)
  {
    OutsideFrustum(v0.position) || OutsideFrustum(v1.position) || OutsideFrustum(v2.position)
  }
}
