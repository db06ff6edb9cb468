/** Vector, colour and vertex records of the software rasterizer.
    Coordinates are exact reals: IEEE single-precision rounding is not modelled. */
module Geometry {

  newtype byte = x: int | 0 <= x < 256

  datatype Vec2 = Vec2(x: real, y: real)
  datatype Vec3 = Vec3(x: real, y: real, z: real)
  datatype Vec4 = Vec4(x: real, y: real, z: real, w: real)

  /** An 8-bit-per-channel colour, as packed into the colour buffer and stored in textures. */
  datatype Rgb = Rgb(r: byte, g: byte, b: byte)

  /** A floating-point colour, as produced by texture sampling and shading. */
  datatype ColorRGB = ColorRGB(r: real, g: real, b: real)

  const White := ColorRGB(1.0, 1.0, 1.0)

  /** Object-space input vertex (`Vertex`). */
  datatype Vertex = Vertex(
    position: Vec3,
    color: ColorRGB,
    uv: Vec2,
    normal: Vec3,
    tangent: Vec3,
    viewDirection: Vec3)

  /** Transformed vertex (`Vertex_Out`): position holds NDC x, y, z and the clip-space w. */
  datatype VertexOut = VertexOut(
    position: Vec4,
    color: ColorRGB,
    uv: Vec2,
    normal: Vec3,
    tangent: Vec3,
    viewDirection: Vec3)

  datatype PrimitiveTopology = TriangleList | TriangleStrip

  function Sub(a: Vec2, b: Vec2): Vec2
  {
    Vec2(a.x - b.x, a.y - b.y)
  }

  /** The 2D cross product `a.x * b.y - a.y * b.x`: twice the signed area spanned by a and b. */
  function Cross(a: Vec2, b: Vec2): real
  {
    a.x * b.y - a.y * b.x
  }

  function Min(a: real, b: real): real
  {
    if a < b then a else b
  }

  function Max(a: real, b: real): real
  {
    if a > b then a else b
  }

  function Min3(a: real, b: real, c: real): real
  {
    Min(a, Min(b, c))
  }

  function Max3(a: real, b: real, c: real): real
  {
    Max(a, Max(b, c))
  }
}
