/** Points and affine transforms of 3-space, over exact reals.
    Eigen's Vector3d and Affine3d are modelled without rounding. */
module Geometry {

  /** A point (or vector) of 3-space. */
  datatype Vec3 = Vec3(x: real, y: real, z: real)

  /** A 3x3 matrix, stored row by row. */
  datatype Mat3 = Mat3(row0: Vec3, row1: Vec3, row2: Vec3)

  /** An affine map p |-> linear * p + translation, the shape of an Eigen::Affine3d. */
  datatype Affine = Affine(linear: Mat3, translation: Vec3)

  function Add(a: Vec3, b: Vec3): Vec3
  {
    Vec3(a.x + b.x, a.y + b.y, a.z + b.z)
  }

  function Dot(a: Vec3, b: Vec3): real
  {
    a.x * b.x + a.y * b.y + a.z * b.z
  }

  function MatVec(m: Mat3, v: Vec3): Vec3
  {
    Vec3(Dot(m.row0, v), Dot(m.row1, v), Dot(m.row2, v))
  }

  /** `Transform * vertice`: rotate (or, in general, apply the linear part), then translate. */
  function Apply(tf: Affine, v: Vec3): (p: Vec3)
    ensures v == Origin ==> p == tf.translation
    ensures tf.linear == IdentityMat ==> p == Add(v, tf.translation)
  {
    Add(MatVec(tf.linear, v), tf.translation)
  }

  const Origin: Vec3 := Vec3(0.0, 0.0, 0.0)

  const IdentityMat: Mat3 := Mat3(Vec3(1.0, 0.0, 0.0), Vec3(0.0, 1.0, 0.0), Vec3(0.0, 0.0, 1.0))

  const Identity: Affine := Affine(IdentityMat, Origin)

  /** The identity transform leaves every point where it is. */
  lemma ApplyIdentity(v: Vec3)
    ensures Apply(Identity, v) == v
  {
  }

  /** A quarter turn about the z axis followed by a lift of one unit along z. */
  const QuarterTurnLift: Affine :=
    Affine(Mat3(Vec3(0.0, -1.0, 0.0), Vec3(1.0, 0.0, 0.0), Vec3(0.0, 0.0, 1.0)), Vec3(0.0, 0.0, 1.0))

  /** It takes (x, y, z) to (-y, x, z + 1). */
  lemma QuarterTurnLiftApplied(v: Vec3)
    ensures Apply(QuarterTurnLift, v) == Vec3(-v.y, v.x, v.z + 1.0)
  {
  }

  /** In particular it takes (1, 0, 0) to (0, 1, 1). */
  lemma QuarterTurnLiftOfUnitX()
    ensures Apply(QuarterTurnLift, Vec3(1.0, 0.0, 0.0)) == Vec3(0.0, 1.0, 1.0)
  {
    QuarterTurnLiftApplied(Vec3(1.0, 0.0, 0.0));
  }
}
