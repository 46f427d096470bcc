/** Cinder's small value types (`Vec3f`, `ColorA`) over the reals, and the
    floating-point routines the mesh borrows from Cinder and libm. */
module Vectors {

  /** A `Vec3f`. */
  datatype Vec3 = Vec3(x: real, y: real, z: real)

  const Zero: Vec3 := Vec3(0.0, 0.0, 0.0)

  function Add(a: Vec3, b: Vec3): Vec3 {
    Vec3(a.x + b.x, a.y + b.y, a.z + b.z)
  }

  function Sub(a: Vec3, b: Vec3): Vec3 {
    Vec3(a.x - b.x, a.y - b.y, a.z - b.z)
  }

  /** Scalar times vector (`float * Vec3f`, `Vec3f *= float`). */
  function Scale(k: real, v: Vec3): Vec3 {
    Vec3(k * v.x, k * v.y, k * v.z)
  }

  /** A `ColorA`: red, green, blue, alpha. */
  datatype ColorA = ColorA(r: real, g: real, b: real, a: real)

  const White: ColorA := ColorA(1.0, 1.0, 1.0, 1.0)

  /** The numeric routines the simulation calls but does not define:
      `Vec3f::length`, `Vec3f::normalized`, and the colour curve
      `powf(base, 5.0f / loudness)` (the division included, so that a zero
      loudness stays the float library's business). Their values are left
      open; the only thing relied on is that a length is never negative. */
  datatype Numerics = Numerics(
    length: Vec3 -> real,
    normalized: Vec3 -> Vec3,
    powCurve: (real, real) -> real)
  {
    ghost predicate Valid() {
      forall v: Vec3 :: length(v) >= 0.0
    }
  }
}
