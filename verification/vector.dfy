/** The small vector vocabulary of the renderer: 3-vectors for points,
    directions and normals, 4-vectors for RGBA colours and matrix rows,
    and 4x4 matrices. All components are mathematical reals. */
module Vector {

  datatype Vec3 = Vec3(x: real, y: real, z: real)

  datatype Vec4 = Vec4(x: real, y: real, z: real, w: real)

  /** A 4x4 matrix given by its rows. */
  datatype Mat4 = Mat4(r0: Vec4, r1: Vec4, r2: Vec4, r3: Vec4)

  function Splat3(c: real): Vec3 { Vec3(c, c, c) }

  function Splat4(c: real): Vec4 { Vec4(c, c, c, c) }

  function Add(a: Vec3, b: Vec3): Vec3 { Vec3(a.x + b.x, a.y + b.y, a.z + b.z) }

  function Sub(a: Vec3, b: Vec3): Vec3 { Vec3(a.x - b.x, a.y - b.y, a.z - b.z) }

  function Scale(a: Vec3, s: real): Vec3 { Vec3(a.x * s, a.y * s, a.z * s) }

  function Neg(a: Vec3): Vec3 { Vec3(-a.x, -a.y, -a.z) }

  function Dot(a: Vec3, b: Vec3): real { a.x * b.x + a.y * b.y + a.z * b.z }

  function Cross(a: Vec3, b: Vec3): Vec3 {
    Vec3(a.y * b.z - a.z * b.y, a.z * b.x - a.x * b.z, a.x * b.y - a.y * b.x)
  }

  function MinR(a: real, b: real): real { if a <= b then a else b }

  function MaxR(a: real, b: real): real { if a >= b then a else b }

  /** Componentwise minimum and maximum (taichi's ti.min / ti.max on vectors). */
  function Min3(a: Vec3, b: Vec3): Vec3 { Vec3(MinR(a.x, b.x), MinR(a.y, b.y), MinR(a.z, b.z)) }

  function Max3(a: Vec3, b: Vec3): Vec3 { Vec3(MaxR(a.x, b.x), MaxR(a.y, b.y), MaxR(a.z, b.z)) }

  /** Component `axis` (0 = x, 1 = y, 2 = z). */
  function Comp(a: Vec3, axis: nat): real
    requires axis < 3
  {
    if axis == 0 then a.x else if axis == 1 then a.y else a.z
  }

  /** Componentwise a <= b. */
  predicate Le3(a: Vec3, b: Vec3) { a.x <= b.x && a.y <= b.y && a.z <= b.z }

  function Add4(a: Vec4, b: Vec4): Vec4 { Vec4(a.x + b.x, a.y + b.y, a.z + b.z, a.w + b.w) }

  /** Componentwise product, the `*` of two taichi vectors. */
  function Mul4(a: Vec4, b: Vec4): Vec4 { Vec4(a.x * b.x, a.y * b.y, a.z * b.z, a.w * b.w) }

  function Scale4(a: Vec4, s: real): Vec4 { Vec4(a.x * s, a.y * s, a.z * s, a.w * s) }

  function Div4(a: Vec4, n: real): Vec4
    requires n != 0.0
  {
    Vec4(a.x / n, a.y / n, a.z / n, a.w / n)
  }

  function Dot4(a: Vec4, b: Vec4): real { a.x * b.x + a.y * b.y + a.z * b.z + a.w * b.w }

  /** `(m @ [p.x, p.y, p.z, 1])[:3]`: the affine image of a point. */
  function TransformPoint(m: Mat4, p: Vec3): Vec3 {
    var h := Vec4(p.x, p.y, p.z, 1.0);
    Vec3(Dot4(m.r0, h), Dot4(m.r1, h), Dot4(m.r2, h))
  }
}
