/**
 * Points, 3x3 matrices and poses (the homogeneous matrix [R p; 0 0 0 1]) in
 * exact real arithmetic, and the properties of a Euclidean norm that the
 * planners rely on.
 */
module Geometry {
  import opened Angles

  /**
   * A numpy 3-array: a point or a vector, and in the solver also a triple of
   * joint values, (q1, q2, q3) in x, y, z for the arm and (q4, q5, q6) for
   * the wrist.
   */
  datatype Vec3 = Vec3(x: real, y: real, z: real)
  {
    /** The vector as a numpy 3-array. */
    function Seq(): seq<real>
    {
      [x, y, z]
    }
  }

  const Zero: Vec3 := Vec3(0.0, 0.0, 0.0)

  function Add(a: Vec3, b: Vec3): Vec3
  {
    Vec3(a.x + b.x, a.y + b.y, a.z + b.z)
  }

  function Sub(a: Vec3, b: Vec3): Vec3
  {
    Vec3(a.x - b.x, a.y - b.y, a.z - b.z)
  }

  function Scale(c: real, a: Vec3): Vec3
  {
    Vec3(c * a.x, c * a.y, c * a.z)
  }

  /** A 3x3 matrix, entry mij in row i and column j. */
  datatype Mat3 = Mat3(m00: real, m01: real, m02: real,
                       m10: real, m11: real, m12: real,
                       m20: real, m21: real, m22: real)
  {
    /** Column 2, the z axis of a rotation matrix. */
    function ZAxis(): Vec3
    {
      Vec3(m02, m12, m22)
    }
  }

  /** A homogeneous matrix: rotation R and position p. */
  datatype Pose = Pose(R: Mat3, p: Vec3)

  /** What a Euclidean norm guarantees: non-negative, and zero only at Zero. */
  ghost predicate IsNorm(norm: Vec3 -> real)
  {
    forall v :: norm(v) >= 0.0 && (norm(v) == 0.0 <==> v == Zero)
  }

  /** A Euclidean norm is absolutely homogeneous. */
  ghost predicate IsHomogeneous(norm: Vec3 -> real)
  {
    forall c, v :: norm(Scale(c, v)) == Abs(c) * norm(v)
  }
}
