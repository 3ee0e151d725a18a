/**
 * Values shared by the mesh and the renderer: the 32-bit integer types of the
 * graphics API, the glm vector and matrix values (compared only for equality),
 * the byte sizes the attribute layout is built from, and the conversion of a
 * count to the API's signed 32-bit `GLsizei`.
 */
module Gl {

  /** `unsigned int` / `GLuint`. */
  newtype u32 = x: int | 0 <= x < 0x1_0000_0000

  const Two32: int := 0x1_0000_0000
  const Two31: int := 0x8000_0000

  /** Floating-point values are treated as opaque; only equality matters here. */
  datatype Vec2 = Vec2(x: real, y: real)
  datatype Vec3 = Vec3(x: real, y: real, z: real)
  datatype Vec4 = Vec4(x: real, y: real, z: real, w: real)

  /** A glm::mat4: four column vectors. */
  datatype Mat4 = Mat4(c0: Vec4, c1: Vec4, c2: Vec4, c3: Vec4)

  /** glm::mat4(1.0f), the default model matrix of a queued instance. */
  function Identity(): Mat4 {
    Mat4(Vec4(1.0, 0.0, 0.0, 0.0), Vec4(0.0, 1.0, 0.0, 0.0),
         Vec4(0.0, 0.0, 1.0, 0.0), Vec4(0.0, 0.0, 0.0, 1.0))
  }

  /** Byte sizes on the target ABI: 4-byte float and int, no padding. */
  const FloatSize: nat := 4
  const IntSize: nat := 4
  const Vec4Size: nat := 4 * FloatSize
  const Mat4Size: nat := 4 * Vec4Size

  /**
   * The conversion of an unsigned count to `GLsizei` (a signed 32-bit int):
   * the value is taken modulo 2^32 and read as two's complement.
   */
  function ToGLsizei(n: nat): (r: int)
    ensures -Two31 <= r < Two31
    ensures (r - n) % Two32 == 0
    ensures n < Two31 ==> r == n
  {
    var w := n % Two32;
    if w < Two31 then w else w - Two32
  }
}
