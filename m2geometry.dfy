/**
  Vectors and the coordinate fix-ups the M2 loader applies: the file's Y and
  Z axes are swapped to Irrlicht's, and quantised 16-bit track values are
  turned into reals.
*/
module M2Geometry {

  datatype Vec2 = Vec2(X: real, Y: real)
  datatype Vec3 = Vec3(X: real, Y: real, Z: real)
  datatype Quat = Quat(X: real, Y: real, Z: real, W: real)

  /** fixCoordSystem: the file's Y axis becomes Z and its Z axis becomes Y. */
  function FixCoordSystem(v: Vec3): (r: Vec3)
    ensures r.X == v.X && r.Y == v.Z && r.Z == v.Y
  {
    Vec3(v.X, v.Z, v.Y)
  }

  /** fixQuaternion: the same swap on the vector part; W is kept. */
  function FixQuaternion(q: Quat): (r: Quat)
    ensures r.X == q.X && r.Y == q.Z && r.Z == q.Y && r.W == q.W
  {
    Quat(q.X, q.Z, q.Y, q.W)
  }

  /** Swapping twice restores the vector, so the fix-up loses nothing. */
  lemma FixCoordSystemInvolution(v: Vec3)
    ensures FixCoordSystem(FixCoordSystem(v)) == v
  {
  }

  lemma FixQuaternionInvolution(q: Quat)
    ensures FixQuaternion(FixQuaternion(q)) == q
  {
  }

  /**
    The quantised track value: (v > 0 ? v - 32767 : v + 32767) / 32767 for a
    signed 16-bit v.
  */
  function ShortToReal(v: int): (r: real)
    requires -0x8000 <= v < 0x8000
    ensures -1.0 <= r <= 1.0
    ensures v > 0 ==> r <= 0.0
    ensures v <= 0 ==> r > -1.0
  {
    (if v > 0 then v - 32767 else v + 32767) as real / 32767.0
  }

  /**
    Within each half of the 16-bit range the decoding is strictly increasing,
    and the two halves meet: 32767 and -32767 both decode to 0.
  */
  lemma ShortToRealOrder(v: int, w: int)
    requires -0x8000 <= v < w < 0x8000
    requires (v > 0 && w > 0) || (v <= 0 && w <= 0)
    ensures ShortToReal(v) < ShortToReal(w)
    ensures ShortToReal(32767) == ShortToReal(-32767) == 0.0
    ensures ShortToReal(0) == 1.0
  {
  }

  function Sub(a: Vec3, b: Vec3): Vec3
  {
    Vec3(a.X - b.X, a.Y - b.Y, a.Z - b.Z)
  }

  function SquaredLength(v: Vec3): (r: real)
    ensures r >= 0.0
  {
    v.X * v.X + v.Y * v.Y + v.Z * v.Z
  }
}
