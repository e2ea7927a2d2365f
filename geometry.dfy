/**
 * Exact real vectors and quaternions. The physics engine's float maths
 * (`Quaternion.vmult`, `Vec3.dot`) is modelled with real arithmetic: a
 * rotation is the sandwich product q v q*, which is what `vmult` computes.
 */
module Geometry {

  datatype Vec3 = Vec3(x: real, y: real, z: real)

  /** Stored in the engine's component order: x, y, z, then the scalar part w. */
  datatype Quaternion = Quaternion(x: real, y: real, z: real, w: real)

  /** The world "up" direction the resolver compares against. */
  const Up: Vec3 := Vec3(0.0, 1.0, 0.0)

  function Neg(v: Vec3): Vec3 {
    Vec3(-v.x, -v.y, -v.z)
  }

  function Dot(a: Vec3, b: Vec3): real {
    a.x * b.x + a.y * b.y + a.z * b.z
  }

  /** The quaternion product q * (v, 0), the first half of a rotation. */
  function Turn(q: Quaternion, v: Vec3): Quaternion {
    Quaternion(q.w * v.x + q.y * v.z - q.z * v.y,
               q.w * v.y + q.z * v.x - q.x * v.z,
               q.w * v.z + q.x * v.y - q.y * v.x,
               -q.x * v.x - q.y * v.y - q.z * v.z)
  }

  /** The vector part of p * conjugate(q), the second half of a rotation. */
  function Unturn(p: Quaternion, q: Quaternion): Vec3 {
    Vec3(p.x * q.w + p.w * -q.x + p.y * -q.z - p.z * -q.y,
         p.y * q.w + p.w * -q.y + p.z * -q.x - p.x * -q.z,
         p.z * q.w + p.w * -q.z + p.x * -q.y - p.y * -q.x)
  }

  /** v rotated by q: the sandwich product q * (v, 0) * conjugate(q). */
  function Rotate(q: Quaternion, v: Vec3): (r: Vec3)
    ensures q == Quaternion(0.0, 0.0, 0.0, 1.0) ==> r == v
  {
    Unturn(Turn(q, v), q)
  }

  /** How far the normal n points upward once the body is oriented by q. */
  function UpDot(q: Quaternion, n: Vec3): (u: real)
    ensures u == Rotate(q, n).y
  {
    Dot(Rotate(q, n), Up)
  }

  /** Rotation is linear, so a normal and its opposite have opposite up-ness. */
  lemma UpDotNeg(q: Quaternion, n: Vec3)
    ensures UpDot(q, Neg(n)) == -UpDot(q, n)
  {
    var p, m := Turn(q, n), Turn(q, Neg(n));
    assert m == Quaternion(-p.x, -p.y, -p.z, -p.w);
  }

  /** Evaluates the up-ness of n in two steps, given the intermediate product p = q * (n, 0). */
  lemma UpDotVia(q: Quaternion, n: Vec3, p: Quaternion)
    requires Turn(q, n) == p
    ensures UpDot(q, n) == p.y * q.w + p.w * -q.y + p.z * -q.x - p.x * -q.z
  {
  }

  /** Closed forms of the up-ness of the three positive axes. */
  lemma UpDotAxes(q: Quaternion)
    ensures UpDot(q, Vec3(0.0, 1.0, 0.0)) == q.w * q.w - q.x * q.x + q.y * q.y - q.z * q.z
    ensures UpDot(q, Vec3(1.0, 0.0, 0.0)) == 2.0 * (q.x * q.y + q.w * q.z)
    ensures UpDot(q, Vec3(0.0, 0.0, 1.0)) == 2.0 * (q.y * q.z - q.w * q.x)
  {
    UpDotVia(q, Vec3(0.0, 1.0, 0.0), Quaternion(-q.z, q.w, q.x, -q.y));
    UpDotVia(q, Vec3(1.0, 0.0, 0.0), Quaternion(q.w, q.z, -q.y, -q.x));
    UpDotVia(q, Vec3(0.0, 0.0, 1.0), Quaternion(q.y, -q.x, q.w, -q.z));
  }
}
