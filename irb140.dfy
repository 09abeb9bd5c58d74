/**
 * Closed-form inverse kinematics of the ABB IRB140 six-joint arm
 * (robots/abbirb140.py).
 *
 * The solver is decoupled: the wrist centre fixes joints 1 to 3 (an azimuth
 * and a planar two-link triangle solved by the law of cosines, elbow up and
 * elbow down) and a spherical wrist supplies joints 4 to 6 (two solutions,
 * with a separate branch for the singular wrist). An assembler joins each
 * position branch with its wrist solutions, optionally adding the +-2 PI
 * windings of joints 4 and 6.
 *
 * What the trigonometry returns numerically is not modelled: atan2, arccos,
 * the planar norm, the change into link 1's frame and the wrist residual
 * (A01 A12 A23)^-1 T are the fields of a Primitives value the caller
 * supplies. atan2(sin x, cos x), used only to wrap an angle, is Wrap.
 */
module AbbIrb140 {
  import opened Wrappers
  import opened Angles
  import opened Geometry
  import opened RealArith
  import Unique

  /* ---------------------------------------------------------------------- */
  /* DH table and joint ranges                                               */
  /* ---------------------------------------------------------------------- */

  datatype JointKind = Revolute | Prismatic

  /** One row of the DH table: theta offset, d, a, alpha and the joint kind. */
  datatype Link = Link(theta: real, d: real, a: real, alpha: real, kind: JointKind)

  /** The IRB140's DH table, base to tip. */
  const Links: seq<Link> := [
    Link(0.0, 0.352, 0.07, -PI / 2.0, Revolute),
    Link(-PI / 2.0, 0.0, 0.36, 0.0, Revolute),
    Link(0.0, 0.0, 0.0, -PI / 2.0, Revolute),
    Link(0.0, 0.38, 0.0, PI / 2.0, Revolute),
    Link(0.0, 0.0, 0.0, -PI / 2.0, Revolute),
    Link(PI, 0.065, 0.0, 0.0, Revolute)
  ]

  /** The last link's offset, from the wrist centre to the flange. */
  const L6: real := Links[5].d
  /** The upper arm. */
  const L2: real := Links[1].a
  /** The forearm, from the elbow to the wrist centre. */
  const L3: real := Links[3].d

  function Radians(degrees: real): real
  {
    degrees * PI / 180.0
  }

  /** The joint ranges, given in degrees (joint 4 extended to +-400). */
  const JointLower: seq<real> := [Radians(-180.0), Radians(-90.0), Radians(-230.0), Radians(-400.0), Radians(-115.0), Radians(-400.0)]
  const JointUpper: seq<real> := [Radians(180.0), Radians(110.0), Radians(50.0), Radians(400.0), Radians(115.0), Radians(400.0)]

  /** The lengths the solver reads from the DH table, and well-formed ranges. */
  lemma DHTable()
    ensures |Links| == 6 && forall i :: 0 <= i < 6 ==> Links[i].kind == Revolute
    ensures L6 == 0.065 && L2 == 0.36 && L3 == 0.38
    ensures |JointLower| == 6 && |JointUpper| == 6
    ensures forall i :: 0 <= i < 6 ==> JointLower[i] < JointUpper[i]
  {
  }

  /* ---------------------------------------------------------------------- */
  /* Numerical primitives                                                    */
  /* ---------------------------------------------------------------------- */

  /**
   * The numerics the solver calls: atan2(y, x), arccos, the norm of a planar
   * vector, the wrist centre expressed in link 1's frame for a given q1
   * (A01(q1)^-1 Pm), and the rotation the wrist must supply for a given
   * (q1, q2, q3) and end-effector pose ((A01 A12 A23)^-1 T).
   */
  datatype Primitives = Primitives(
    atan2: (real, real) -> real,
    arccos: real -> real,
    planarNorm: (real, real) -> real,
    inFrame1: (real, Vec3) -> Vec3,
    wristResidual: (Vec3, Pose) -> Mat3)

  /** numpy's arctan2 ranges over (-PI, PI]. */
  ghost predicate Atan2InRange(f: Primitives)
  {
    forall y, x :: -PI < f.atan2(y, x) <= PI
  }

  /** arccos maps (-1, 1) into (0, PI). */
  ghost predicate ArccosInRange(f: Primitives)
  {
    forall c :: -1.0 < c < 1.0 ==> 0.0 < f.arccos(c) < PI
  }

  /* ---------------------------------------------------------------------- */
  /* Wrist centre and joint 1                                                */
  /* ---------------------------------------------------------------------- */

  /** The wrist centre: L6 back from the flange along the end effector's z axis. */
  function WristCenter(T: Pose): (pm: Vec3)
    ensures Add(pm, Scale(L6, T.R.ZAxis())) == T.p
  {
    Sub(T.p, Scale(L6, T.R.ZAxis()))
  }

  /**
   * The rounded azimuths the solver tries: q1, then q1 + PI and q1 - PI
   * wrapped. In exact arithmetic the last two are the same angle, and it
   * differs from the first.
   */
  function Q1Tried(q1: real): (r: seq<real>)
    ensures |r| == 3 && r[0] == Round7(q1)
    ensures r[1] == r[2] == Round7(Wrap(q1 + PI))
    ensures r[0] != r[1]
  {
    WrapPeriodic(q1 - PI);
    assert q1 - PI + TwoPI == q1 + PI;
    WrapHalfTurnApart(q1);
    [Round7(q1), Round7(Wrap(q1 + PI)), Round7(Wrap(q1 - PI))]
  }

  /**
   * The joint-1 candidates: the tried azimuths de-duplicated after rounding to
   * 7 decimals, in the order they were tried.
   */
  function Q1Candidates(q1: real): (r: seq<real>)
    ensures |r| <= 3 && Unique.Distinct(r)
    ensures forall v :: v in r <==> v in Q1Tried(q1)
  {
    Unique.Dedup(Q1Tried(q1))
  }

  /**
   * In exact arithmetic q1 + PI and q1 - PI wrap to the same angle, so there
   * are exactly two candidates: q1 and the opposite azimuth.
   */
  lemma Q1CandidatesExactly(q1: real)
    ensures Q1Candidates(q1) == [Round7(q1), Round7(Wrap(q1 + PI))]
    ensures Round7(q1) != Round7(Wrap(q1 + PI))
  {
    var x, y := Round7(q1), Round7(Wrap(q1 + PI));
    WrapPeriodic(q1 - PI);
    assert q1 - PI + TwoPI == q1 + PI;
    WrapHalfTurnApart(q1);
    assert x != y;
    Unique.DedupOfThree(x, y, y);
  }

  /**
   * The solver's own de-duplication (unique, then indexing the sorted values
   * by first-occurrence indices) gives the same candidates.
   */
  lemma Q1CandidatesAsWritten(q1: real)
    ensures Unique.UniqueReindexed(Q1Tried(q1)) == Some(Q1Candidates(q1))
  {
    Q1CandidatesExactly(q1);
    WrapPeriodic(q1 - PI);
    assert q1 - PI + TwoPI == q1 + PI;
    Unique.ReindexedOfValueAndRepeat(Round7(q1), Round7(Wrap(q1 + PI)));
  }

  /* ---------------------------------------------------------------------- */
  /* Joints 2 and 3: the planar triangle                                     */
  /* ---------------------------------------------------------------------- */

  /** The elbow-up and elbow-down values of one joint; None stands for NaN. */
  datatype Elbows = Elbows(up: Option<real>, down: Option<real>)

  /**
   * The law of cosines at the shoulder, (L2^2 + r^2 - L3^2) / (2 r L2). At
   * r = 0 numpy divides by zero and yields an infinite value: None.
   */
  function CosShoulder(r: real): (c: Option<real>)
    ensures c.None? <==> r == 0.0
    ensures r == L2 + L3 ==> c == Some(1.0)
    ensures r == L3 - L2 ==> c == Some(-1.0)
  {
    DHTable();
    if r == 0.0 then None else Some((L2 * L2 + r * r - L3 * L3) / (2.0 * r * L2))
  }

  /** The law of cosines at the elbow, (L2^2 + L3^2 - r^2) / (2 L2 L3). */
  function CosElbow(r: real): (c: real)
    ensures Abs(r) == L2 + L3 ==> c == -1.0
    ensures Abs(r) == L3 - L2 ==> c == 1.0
  {
    DHTable();
    assert r * r == Abs(r) * Abs(r);
    (L2 * L2 + L3 * L3 - r * r) / (2.0 * L2 * L3)
  }

  /** arccos of a cosine strictly inside (-1, 1); otherwise NaN (None). */
  function AngleFromCos(c: Option<real>, f: Primitives): (g: Option<real>)
    ensures g.Some? <==> c.Some? && Abs(c.value) < 1.0
    ensures g.Some? ==> g.value == f.arccos(c.value)
  {
    if c.Some? && Abs(c.value) < 1.0 then Some(f.arccos(c.value)) else None
  }

  /** The two values of q2 before range fitting: PI/2 - beta -+ gamma. */
  function ShoulderAngles(beta: real, gamma: real): (q: (real, real))
    ensures q.1 - q.0 == 2.0 * gamma
    ensures q.0 + q.1 == PI - 2.0 * beta
  {
    (PI / 2.0 - beta - gamma, PI / 2.0 - beta + gamma)
  }

  /** The two values of q3 before range fitting: PI/2 - eta and eta - 3 PI/2. */
  function ElbowAngles(eta: real): (q: (real, real))
    ensures q.0 + q.1 == -PI
    ensures q.0 - q.1 == TwoPI - 2.0 * eta
  {
    (PI / 2.0 - eta, eta - 3.0 * PI / 2.0)
  }

  /** A joint value is kept inside [lo, hi] and wrapped into (-PI, PI] outside it. */
  function FitToRange(q: real, lo: real, hi: real): (r: real)
    ensures lo <= q <= hi ==> r == q
    ensures !(lo <= q <= hi) ==> -PI < r <= PI && SameAngle(r, q)
  {
    if q < lo || q > hi then WrapSameAngle(q); Wrap(q) else q
  }

  /** Range fitting leaves NaN as NaN: both comparisons are false. */
  function FitJoint(q: Option<real>, joint: nat): (r: Option<real>)
    requires joint < 6
    ensures r.Some? <==> q.Some?
    ensures q.Some? ==> r.value == FitToRange(q.value, JointLower[joint], JointUpper[joint])
  {
    if q.Some? then Some(FitToRange(q.value, JointLower[joint], JointUpper[joint])) else None
  }

  /** The planar norm is a norm: never negative. */
  ghost predicate PlanarNormInRange(f: Primitives)
  {
    forall x, y :: f.planarNorm(x, y) >= 0.0
  }

  /**
   * The planar distance r of the wrist centre in link 1's frame. With a
   * non-negative norm it is reachable exactly when L3 - L2 < r < L2 + L3.
   */
  function PlanarRadius(q1: real, pm: Vec3, f: Primitives): (r: real)
    ensures PlanarNormInRange(f) ==> r >= 0.0 && (Reachable(r) <==> L3 - L2 < r < L2 + L3)
  {
    var p1 := f.inFrame1(q1, pm);
    f.planarNorm(p1.x, p1.y)
  }

  /**
   * solve_for_theta23: q2 and q3, elbow up and elbow down. An infeasible
   * triangle (|a| >= 1 or |b| >= 1) makes the corresponding joint NaN in
   * both branches.
   */
  function SolveTheta23(q1: real, pm: Vec3, f: Primitives): (r: (Elbows, Elbows))
    ensures var rr := PlanarRadius(q1, pm, f);
      && (r.0.up.Some? <==> CosShoulder(rr).Some? && Abs(CosShoulder(rr).value) < 1.0)
      && (r.1.up.Some? <==> Abs(CosElbow(rr)) < 1.0)
    ensures r.0.up.Some? <==> r.0.down.Some?
    ensures r.1.up.Some? <==> r.1.down.Some?
  {
    var p1 := f.inFrame1(q1, pm);
    var rr := f.planarNorm(p1.x, p1.y);
    var beta := f.atan2(-p1.y, p1.x);
    var gamma := AngleFromCos(CosShoulder(rr), f);
    var eta := AngleFromCos(Some(CosElbow(rr)), f);
    var q2 := if gamma.Some? then ShoulderAngles(beta, gamma.value) else (0.0, 0.0);
    var q3 := if eta.Some? then ElbowAngles(eta.value) else (0.0, 0.0);
    (Elbows(FitJoint(if gamma.Some? then Some(q2.0) else None, 1),
            FitJoint(if gamma.Some? then Some(q2.1) else None, 1)),
     Elbows(FitJoint(if eta.Some? then Some(q3.0) else None, 2),
            FitJoint(if eta.Some? then Some(q3.1) else None, 2)))
  }

  /**
   * When the triangle closes, each returned q2 and q3 is its unfitted value
   * kept or wrapped into range, and the unfitted values satisfy
   * q2_down - q2_up = 2 gamma and q3_up + q3_down = -PI.
   */
  lemma Theta23Branches(q1: real, pm: Vec3, f: Primitives)
    requires var r := SolveTheta23(q1, pm, f); r.0.up.Some? && r.1.up.Some?
    ensures var r := SolveTheta23(q1, pm, f);
      var p1 := f.inFrame1(q1, pm);
      var rr := PlanarRadius(q1, pm, f);
      var beta := f.atan2(-p1.y, p1.x);
      var gamma := f.arccos(CosShoulder(rr).value);
      var eta := f.arccos(CosElbow(rr));
      exists u2, d2, u3, d3 ::
        && d2 - u2 == 2.0 * gamma && u2 == PI / 2.0 - beta - gamma
        && u3 + d3 == -PI && u3 == PI / 2.0 - eta
        && r.0.up.value == FitToRange(u2, JointLower[1], JointUpper[1])
        && r.0.down.value == FitToRange(d2, JointLower[1], JointUpper[1])
        && r.1.up.value == FitToRange(u3, JointLower[2], JointUpper[2])
        && r.1.down.value == FitToRange(d3, JointLower[2], JointUpper[2])
  {
    var p1 := f.inFrame1(q1, pm);
    var rr := PlanarRadius(q1, pm, f);
    var beta := f.atan2(-p1.y, p1.x);
    var gamma := f.arccos(CosShoulder(rr).value);
    var eta := f.arccos(CosElbow(rr));
    var q2 := ShoulderAngles(beta, gamma);
    var q3 := ElbowAngles(eta);
    assert q2.1 - q2.0 == 2.0 * gamma && q3.0 + q3.1 == -PI;
  }

  /** The wrist centre is reachable: L3 - L2 < |r| < L2 + L3. */
  predicate Reachable(r: real)
  {
    L3 - L2 < Abs(r) < L2 + L3
  }

  /** |n / d| < 1 exactly when |n| < |d|. */
  lemma RatioBelowOne(n: real, d: real)
    requires d != 0.0
    ensures Abs(n / d) < 1.0 <==> Abs(n) < Abs(d)
  {
    assert n == (n / d) * d;
    ScaleBelowOne(Abs(n / d), Abs(d), Abs(n));
  }

  /** For e > 0, a stays below 1 exactly when p = a e stays below e. */
  lemma ScaleBelowOne(a: real, e: real, p: real)
    requires e > 0.0 && p == a * e
    ensures a < 1.0 <==> p < e
  {
    if a < 1.0 {
      var t := 1.0 - a;
      MulPositive(t, e);
      assert t * e == e - a * e;
    } else {
      var t := a - 1.0;
      MulNonNegative(t, e);
      assert t * e == a * e - e;
    }
  }

  /** The elbow cosine is strictly inside (-1, 1) exactly when r is reachable. */
  lemma ElbowFeasibleIffReachable(r: real)
    ensures Abs(CosElbow(r)) < 1.0 <==> Reachable(r)
  {
    DHTable();
    var m := Abs(r);
    assert r * r == m * m;
    assert CosElbow(r) == (0.2740 - m * m) / 0.2736;
    if m <= 0.02 {
      assert (0.02 - m) * m >= 0.0;
      assert m * m <= 0.0004;
    } else if m >= 0.74 {
      assert (m - 0.74) * m >= 0.0;
      assert m * m >= 0.5476;
    } else {
      assert (m - 0.02) * m > 0.0;
      assert (0.74 - m) * m > 0.0;
      assert 0.0004 < m * m < 0.5476;
    }
  }

  /** The shoulder test on the planar distance m = |r| > 0, with the IRB140's lengths. */
  lemma ShoulderBound(m: real)
    requires m > 0.0
    ensures Abs(m * m - 0.0148) < 0.72 * m <==> 0.02 < m < 0.74
  {
    var x := m * m;
    if m <= 0.02 {
      var a, b := 0.02 - m, m + 0.74;
      MulNonNegative(a, b);
      assert a * b == 0.0148 - 0.72 * m - x;
    } else if m >= 0.74 {
      var a, b := m - 0.74, m + 0.02;
      MulNonNegative(a, b);
      assert a * b == x - 0.72 * m - 0.0148;
    } else {
      var a, b, c, e := 0.74 - m, m + 0.02, m + 0.74, m - 0.02;
      MulPositive(a, b);
      assert a * b == 0.0148 + 0.72 * m - x;
      MulPositive(c, e);
      assert c * e == x + 0.72 * m - 0.0148;
    }
  }

  /** The shoulder cosine is strictly inside (-1, 1) exactly when r is reachable. */
  lemma ShoulderFeasibleIffReachable(r: real)
    ensures (CosShoulder(r).Some? && Abs(CosShoulder(r).value) < 1.0) <==> Reachable(r)
  {
    DHTable();
    if r != 0.0 {
      var m := Abs(r);
      var n := L2 * L2 + r * r - L3 * L3;
      var d := 2.0 * r * L2;
      RatioBelowOne(n, d);
      assert r * r == m * m;
      assert n == m * m - 0.0148;
      assert Abs(d) == 0.72 * m;
      ShoulderBound(m);
    }
  }

  /**
   * Both joints are feasible or neither is: each triangle test holds exactly
   * when the planar radius lies in the reachable annulus.
   */
  lemma Theta23FeasibleIffReachable(q1: real, pm: Vec3, f: Primitives)
    ensures var r := SolveTheta23(q1, pm, f);
      (r.0.up.Some? <==> Reachable(PlanarRadius(q1, pm, f)))
      && (r.1.up.Some? <==> Reachable(PlanarRadius(q1, pm, f)))
  {
    ShoulderFeasibleIffReachable(PlanarRadius(q1, pm, f));
    ElbowFeasibleIffReachable(PlanarRadius(q1, pm, f));
  }

  /* ---------------------------------------------------------------------- */
  /* Joints 4 to 6: the spherical wrist                                      */
  /* ---------------------------------------------------------------------- */

  const DegenerateThreshold: real := 0.000001

  /** The wrist is singular: |Q[2,2]| within the threshold of 1. */
  predicate WristDegenerate(Q: Mat3)
  {
    !(1.0 - Abs(Q.m22) > DegenerateThreshold)
  }

  /** The regular-case q4 for the sign s of q5: atan2(-s Q[1,2], -s Q[0,2]). */
  function WristQ4(Q: Mat3, s: real, f: Primitives): real
  {
    f.atan2(-s * Q.m12, -s * Q.m02)
  }

  /** The regular-case q6 for the sign s of q5: atan2(s Q[2,1], -s Q[2,0]). */
  function WristQ6(Q: Mat3, s: real, f: Primitives): real
  {
    f.atan2(s * Q.m21, -s * Q.m20)
  }

  /**
   * solve_spherical_wrist: two (q4, q5, q6) solutions for the residual
   * rotation Q of a position branch. The second has the opposite q5 and the
   * atan2 arguments of q4 and q6 taken with the sign of its own q5; in the
   * singular case q4 is fixed to 0 and PI and q6 moves by -PI.
   */
  function SolveSphericalWrist(qi: Vec3, T: Pose, f: Primitives): (w: (Vec3, Vec3))
    ensures var Q := f.wristResidual(qi, T);
      w.0.y == f.arccos(Q.m22)
    ensures var Q := f.wristResidual(qi, T);
      WristDegenerate(Q) ==>
        && w.0.x == 0.0 && w.1.x == PI
        && w.1.y == w.0.y
        && w.0.z == f.atan2(Q.m01, -Q.m11) && w.1.z == w.0.z - PI
    ensures var Q := f.wristResidual(qi, T);
      !WristDegenerate(Q) ==>
        && w.1.y == -w.0.y
        && w.0.x == WristQ4(Q, Sign(w.0.y), f) && w.1.x == WristQ4(Q, Sign(w.1.y), f)
        && w.0.z == WristQ6(Q, Sign(w.0.y), f) && w.1.z == WristQ6(Q, Sign(w.1.y), f)
  {
    var Q := f.wristResidual(qi, T);
    if 1.0 - Abs(Q.m22) > DegenerateThreshold then
      var q5 := f.arccos(Q.m22);
      var q5' := -q5;
      var s5 := Sign(q5);
      var s5' := Sign(q5');
      var q4 := WristQ4(Q, s5, f);
      var q4' := WristQ4(Q, s5', f);
      var q6 := WristQ6(Q, s5, f);
      var q6' := WristQ6(Q, s5', f);
      (Vec3(q4, q5, q6), Vec3(q4', q5', q6'))
    else
      var q5 := f.arccos(Q.m22);
      var q6 := f.atan2(Q.m01, -Q.m11);
      (Vec3(0.0, q5, q6), Vec3(PI, q5, q6 - PI))
  }

  /**
   * Away from the singularity q5 = arccos(Q[2,2]) lies in (0, PI), so its sign
   * is +1: the two solutions are the branches s = +1 and s = -1 of
   * q4 = atan2(-s Q[1,2], -s Q[0,2]), q5 = s arccos(Q[2,2]),
   * q6 = atan2(s Q[2,1], -s Q[2,0]).
   */
  lemma WristRegularBranches(qi: Vec3, T: Pose, f: Primitives)
    requires ArccosInRange(f)
    requires !WristDegenerate(f.wristResidual(qi, T))
    ensures var Q := f.wristResidual(qi, T);
      var w := SolveSphericalWrist(qi, T, f);
      && 0.0 < w.0.y < PI && w.1.y == -w.0.y
      && w.0.x == f.atan2(-Q.m12, -Q.m02) && w.0.z == f.atan2(Q.m21, -Q.m20)
      && w.1.x == f.atan2(Q.m12, Q.m02) && w.1.z == f.atan2(-Q.m21, Q.m20)
  {
    var Q := f.wristResidual(qi, T);
    var w := SolveSphericalWrist(qi, T, f);
    assert -1.0 < Q.m22 < 1.0;
    assert 0.0 < f.arccos(Q.m22) < PI;
    assert Sign(w.0.y) == 1.0 && Sign(w.1.y) == -1.0;
    assert -1.0 * Q.m12 == -Q.m12 && -1.0 * Q.m02 == -Q.m02;
    assert WristQ4(Q, 1.0, f) == f.atan2(-Q.m12, -Q.m02);
    assert 1.0 * Q.m21 == Q.m21 && -1.0 * Q.m20 == -Q.m20;
    assert WristQ6(Q, 1.0, f) == f.atan2(Q.m21, -Q.m20);
    assert 1.0 * Q.m12 == Q.m12 && 1.0 * Q.m02 == Q.m02;
    assert WristQ4(Q, -1.0, f) == f.atan2(Q.m12, Q.m02);
    assert -1.0 * Q.m21 == -Q.m21 && 1.0 * Q.m20 == Q.m20;
    assert WristQ6(Q, -1.0, f) == f.atan2(-Q.m21, Q.m20);
  }

  /**
   * With atan2 in (-PI, PI], both wrist solutions keep q4 and q6 inside their
   * +-400 degree ranges, singular or not.
   */
  lemma WristWithinJointRanges(qi: Vec3, T: Pose, f: Primitives)
    requires Atan2InRange(f)
    ensures var w := SolveSphericalWrist(qi, T, f);
      && JointLower[3] <= w.0.x <= JointUpper[3] && JointLower[3] <= w.1.x <= JointUpper[3]
      && JointLower[5] <= w.0.z <= JointUpper[5] && JointLower[5] <= w.1.z <= JointUpper[5]
  {
    DHTable();
    var Q := f.wristResidual(qi, T);
    var w := SolveSphericalWrist(qi, T, f);
    assert JointLower[3] == JointLower[5] == Radians(-400.0) < -TwoPI;
    assert JointUpper[3] == JointUpper[5] == Radians(400.0) > TwoPI;
    if WristDegenerate(Q) {
      assert -PI < f.atan2(Q.m01, -Q.m11) <= PI;
    } else {
      var s, s' := Sign(w.0.y), Sign(w.1.y);
      assert -PI < WristQ4(Q, s, f) <= PI && -PI < WristQ4(Q, s', f) <= PI;
      assert -PI < WristQ6(Q, s, f) <= PI && -PI < WristQ6(Q, s', f) <= PI;
    }
  }

  /* ---------------------------------------------------------------------- */
  /* Extended solutions: +-2 PI windings of joints 4 and 6                   */
  /* ---------------------------------------------------------------------- */

  /** The offsets extend_solutions adds to (q4, q5, q6), in its order. */
  const Windings: seq<Vec3> := [
    Vec3(0.0, 0.0, 0.0),
    Vec3(TwoPI, 0.0, 0.0),
    Vec3(-TwoPI, 0.0, 0.0),
    Vec3(0.0, 0.0, TwoPI),
    Vec3(0.0, 0.0, -TwoPI),
    Vec3(TwoPI, 0.0, TwoPI),
    Vec3(-TwoPI, 0.0, -TwoPI),
    Vec3(TwoPI, 0.0, -TwoPI),
    Vec3(-TwoPI, 0.0, TwoPI)
  ]

  /** The offsets a single wrap-around joint can take. */
  const TurnOffsets: seq<real> := [-TwoPI, 0.0, TwoPI]

  /** One joint vector: the position branch followed by a wound wrist solution. */
  function Wound(qi: Vec3, qw: Vec3, winding: Vec3): seq<real>
  {
    qi.Seq() + Add(qw, winding).Seq()
  }

  /**
   * The nine windings of one wrist solution: each keeps q1..q3 and q5 and
   * moves q4 and q6 by -2 PI, 0 or 2 PI; the first is the wrist solution
   * itself.
   */
  function Extended(qi: Vec3, qw: Vec3): (r: seq<seq<real>>)
    ensures |r| == 9
    ensures r[0] == qi.Seq() + qw.Seq()
    ensures forall i :: 0 <= i < 9 ==>
      && |r[i]| == 6 && r[i][..3] == qi.Seq() && r[i][4] == qw.y
      && r[i][3] - qw.x in TurnOffsets && r[i][5] - qw.z in TurnOffsets
  {
    seq(9, i requires 0 <= i < 9 => Wound(qi, qw, Windings[i]))
  }

  /** The nine windings are all different and cover every pair of offsets. */
  lemma ExtendedCoversWindings(qi: Vec3, qw: Vec3)
    ensures forall i, j :: 0 <= i < j < 9 ==> Extended(qi, qw)[i] != Extended(qi, qw)[j]
    ensures forall a, b :: 0 <= a < 3 && 0 <= b < 3 ==>
      qi.Seq() + [qw.x + TurnOffsets[a], qw.y, qw.z + TurnOffsets[b]] in Extended(qi, qw)
  {
    var r := Extended(qi, qw);
    forall i, j | 0 <= i < j < 9 ensures r[i] != r[j] {
      assert Windings[i] != Windings[j];
      if Windings[i].x != Windings[j].x {
        assert r[i][3] != r[j][3];
      } else {
        assert r[i][5] != r[j][5];
      }
    }
    forall a, b | 0 <= a < 3 && 0 <= b < 3
      ensures qi.Seq() + [qw.x + TurnOffsets[a], qw.y, qw.z + TurnOffsets[b]] in r
    {
      var k := if a == 1 && b == 1 then 0
        else if a == 2 && b == 1 then 1
        else if a == 0 && b == 1 then 2
        else if a == 1 && b == 2 then 3
        else if a == 1 && b == 0 then 4
        else if a == 2 && b == 2 then 5
        else if a == 0 && b == 0 then 6
        else if a == 2 && b == 0 then 7
        else 8;
      assert r[k] == qi.Seq() + [qw.x + TurnOffsets[a], qw.y, qw.z + TurnOffsets[b]];
    }
  }

  /** extend_solutions: appends the nine windings in turn. */
  method ExtendSolutions(qi: Vec3, qw: Vec3) returns (qTotal: seq<seq<real>>)
    ensures qTotal == Extended(qi, qw)
  {
    qTotal := [];
    var combinations := Windings;
    for i := 0 to |combinations|
      invariant qTotal == Extended(qi, qw)[..i]
    {
      var qwi := Add(qw, combinations[i]);
      var qt := qi.Seq() + qwi.Seq();
      qTotal := qTotal + [qt];
    }
  }

  /* ---------------------------------------------------------------------- */
  /* Assembly                                                                */
  /* ---------------------------------------------------------------------- */

  /** The NaN test on q2 + q3: any of the four values infeasible. */
  predicate AnyNaN(q2: Elbows, q3: Elbows)
  {
    q2.up.None? || q2.down.None? || q3.up.None? || q3.down.None?
  }

  /**
   * The position branches of one q1: elbow up then elbow down, or none when
   * any of q2, q3 is NaN.
   */
  function BranchesFor(q1: real, pm: Vec3, f: Primitives): (v: seq<Vec3>)
    ensures var q2, q3 := SolveTheta23(q1, pm, f).0, SolveTheta23(q1, pm, f).1;
      && (|v| == 0 <==> AnyNaN(q2, q3))
      && (|v| != 0 ==> v == [Vec3(q1, q2.up.value, q3.up.value), Vec3(q1, q2.down.value, q3.down.value)])
  {
    var r := SolveTheta23(q1, pm, f);
    var q2, q3 := r.0, r.1;
    if AnyNaN(q2, q3) then []
    else [Vec3(q1, q2.up.value, q3.up.value), Vec3(q1, q2.down.value, q3.down.value)]
  }

  /** A q1 contributes position branches exactly when its triangle is reachable. */
  lemma BranchesForIffReachable(q1: real, pm: Vec3, f: Primitives)
    ensures |BranchesFor(q1, pm, f)| == if Reachable(PlanarRadius(q1, pm, f)) then 2 else 0
  {
    Theta23FeasibleIffReachable(q1, pm, f);
  }

  /** The number of candidates whose triangle is reachable. */
  function ReachableCount(q1s: seq<real>, pm: Vec3, f: Primitives): (n: nat)
    ensures n <= |q1s|
  {
    if |q1s| == 0 then 0
    else ReachableCount(q1s[..|q1s| - 1], pm, f)
         + (if Reachable(PlanarRadius(q1s[|q1s| - 1], pm, f)) then 1 else 0)
  }

  /** With two candidates, each reachable one counts once. */
  lemma ReachableCountOfTwo(a: real, b: real, pm: Vec3, f: Primitives)
    ensures ReachableCount([a, b], pm, f)
      == (if Reachable(PlanarRadius(a, pm, f)) then 1 else 0)
       + (if Reachable(PlanarRadius(b, pm, f)) then 1 else 0)
  {
    assert [a, b][..1] == [a];
    assert [a][..0] == [];
  }

  /** The position branches of all candidates, candidate by candidate. */
  function PositionBranches(q1s: seq<real>, pm: Vec3, f: Primitives): (q: seq<Vec3>)
    ensures |q| == 2 * ReachableCount(q1s, pm, f)
  {
    if |q1s| == 0 then []
    else
      var last := q1s[|q1s| - 1];
      BranchesForIffReachable(last, pm, f);
      PositionBranches(q1s[..|q1s| - 1], pm, f) + BranchesFor(last, pm, f)
  }

  /** Every position branch takes its q1 from the candidates. */
  lemma {:induction false} PositionBranchesFromCandidates(q1s: seq<real>, pm: Vec3, f: Primitives, j: nat)
    requires j < |PositionBranches(q1s, pm, f)|
    ensures PositionBranches(q1s, pm, f)[j].x in q1s
  {
    var prefix := q1s[..|q1s| - 1];
    var p := PositionBranches(prefix, pm, f);
    var b := BranchesFor(q1s[|q1s| - 1], pm, f);
    assert PositionBranches(q1s, pm, f) == p + b;
    if j < |p| {
      PositionBranchesFromCandidates(prefix, pm, f, j);
      assert p[j].x in prefix;
    } else {
      assert b[j - |p|].x == q1s[|q1s| - 1];
    }
  }

  /** With two candidates, the branches of the first come before those of the second. */
  lemma PositionBranchesOfTwo(a: real, b: real, pm: Vec3, f: Primitives)
    ensures PositionBranches([a, b], pm, f) == BranchesFor(a, pm, f) + BranchesFor(b, pm, f)
  {
    assert [a, b][..1] == [a];
    assert [a][..0] == [];
  }

  /**
   * Position branches come in pairs: pair k is the elbow-up and elbow-down
   * branch of one candidate q1.
   */
  lemma {:induction false} PositionBranchesPaired(q1s: seq<real>, pm: Vec3, f: Primitives, k: nat)
    requires 2 * k + 1 < |PositionBranches(q1s, pm, f)|
    ensures var q := PositionBranches(q1s, pm, f);
      q[2 * k].x == q[2 * k + 1].x && BranchesFor(q[2 * k].x, pm, f) == [q[2 * k], q[2 * k + 1]]
  {
    var q := PositionBranches(q1s, pm, f);
    var prefix := q1s[..|q1s| - 1];
    var p := PositionBranches(prefix, pm, f);
    var b := BranchesFor(q1s[|q1s| - 1], pm, f);
    assert q == p + b;
    if 2 * k + 1 < |p| {
      PositionBranchesPaired(prefix, pm, f, k);
      assert q[2 * k] == p[2 * k] && q[2 * k + 1] == p[2 * k + 1];
    } else {
      assert |p| == 2 * ReachableCount(prefix, pm, f);
      assert |b| == 2 && 2 * k == |p|;
      assert q[2 * k] == b[0] && q[2 * k + 1] == b[1];
    }
  }

  /** Number of joint vectors per position branch. */
  function Width(extended: bool): nat
  {
    if extended then 18 else 2
  }

  /**
   * The wrist solutions of one position branch: wrist a then wrist b, each
   * alone or as its nine windings.
   */
  function WristSolutions(qi: Vec3, T: Pose, extended: bool, f: Primitives): (r: seq<seq<real>>)
    ensures |r| == Width(extended)
    ensures forall k :: 0 <= k < |r| ==> |r[k]| == 6 && r[k][..3] == qi.Seq()
    ensures var w := SolveSphericalWrist(qi, T, f);
      r[0] == qi.Seq() + w.0.Seq() && r[|r| / 2] == qi.Seq() + w.1.Seq()
    ensures var w := SolveSphericalWrist(qi, T, f);
      !extended ==> r == [qi.Seq() + w.0.Seq(), qi.Seq() + w.1.Seq()]
    ensures var w := SolveSphericalWrist(qi, T, f);
      extended ==> r == Extended(qi, w.0) + Extended(qi, w.1)
  {
    var w := SolveSphericalWrist(qi, T, f);
    var wa, wb := w.0, w.1;
    if !extended then [qi.Seq() + wa.Seq(), qi.Seq() + wb.Seq()]
    else Extended(qi, wa) + Extended(qi, wb)
  }

  /** Joins every position branch with its wrist solutions, branch by branch. */
  function Assemble(q: seq<Vec3>, T: Pose, extended: bool, f: Primitives): (r: seq<seq<real>>)
    ensures |r| == |q| * Width(extended)
  {
    if |q| == 0 then []
    else
      var p := q[..|q| - 1];
      assert |q| * Width(extended) == |p| * Width(extended) + Width(extended);
      Assemble(p, T, extended, f) + WristSolutions(q[|q| - 1], T, extended, f)
  }

  /** Solution k * Width + m is wrist solution m of position branch k. */
  lemma {:induction false} AssembleAt(q: seq<Vec3>, T: Pose, extended: bool, f: Primitives, k: nat, m: nat)
    requires k < |q| && m < Width(extended)
    ensures k * Width(extended) + m < |Assemble(q, T, extended, f)|
    ensures Assemble(q, T, extended, f)[k * Width(extended) + m] == WristSolutions(q[k], T, extended, f)[m]
  {
    var w := Width(extended);
    var p := q[..|q| - 1];
    var a := Assemble(p, T, extended, f);
    var b := WristSolutions(q[|q| - 1], T, extended, f);
    assert Assemble(q, T, extended, f) == a + b;
    if k < |p| {
      AssembleAt(p, T, extended, f, k, m);
      assert p[k] == q[k];
    }
    BlockAt(a, b, |p|, w, k, m);
  }

  /**
   * In rows a of n blocks of width w followed by one more block b, entry m of
   * block k is entry m of a's block k, or of b when k = n.
   */
  lemma BlockAt<X>(a: seq<X>, b: seq<X>, n: nat, w: nat, k: nat, m: nat)
    requires |a| == n * w && |b| == w && k <= n && m < w
    ensures k * w + m < |a + b|
    ensures k < n ==> k * w + m < |a| && (a + b)[k * w + m] == a[k * w + m]
    ensures k == n ==> (a + b)[k * w + m] == b[m]
  {
    RowInRange(k, m, w, n + 1);
    assert (n + 1) * w == n * w + w;
    if k < n {
      RowInRange(k, m, w, n);
    }
  }

  /** Row k of n rows of width w, column m, is inside the n * w entries. */
  lemma RowInRange(k: nat, m: nat, w: nat, n: nat)
    requires k < n && m < w
    ensures k * w + m < n * w
  {
    var d := n - k;
    assert n * w == k * w + d * w;
    assert d * w >= w by {
      assert d * w == w + (d - 1) * w;
    }
  }

  /**
   * Every assembled joint vector has six joints and starts with the q1 of a
   * position branch; i is that branch.
   */
  lemma {:induction false} AssembleShape(q: seq<Vec3>, T: Pose, extended: bool, f: Primitives, j: nat)
    returns (i: nat)
    requires j < |Assemble(q, T, extended, f)|
    ensures i < |q|
    ensures |Assemble(q, T, extended, f)[j]| == 6 && Assemble(q, T, extended, f)[j][0] == q[i].x
  {
    var p := q[..|q| - 1];
    var a := Assemble(p, T, extended, f);
    var b := WristSolutions(q[|q| - 1], T, extended, f);
    assert Assemble(q, T, extended, f) == a + b;
    if j < |a| {
      i := AssembleShape(p, T, extended, f, j);
      assert q[i] == p[i];
    } else {
      var s := b[j - |a|];
      assert s[..3] == q[|q| - 1].Seq();
      assert s[0] == s[..3][0];
      i := |q| - 1;
    }
  }

  /** The position branches inversekinematics finds for end-effector pose T. */
  function BranchesOf(T: Pose, f: Primitives): (q: seq<Vec3>)
    ensures var pm := WristCenter(T);
      |q| == 2 * ReachableCount(Q1Candidates(f.atan2(pm.y, pm.x)), pm, f)
  {
    var pm := WristCenter(T);
    PositionBranches(Q1Candidates(f.atan2(pm.y, pm.x)), pm, f)
  }

  /** The complete solution set of inversekinematics for end-effector pose T. */
  function Solutions(T: Pose, extended: bool, f: Primitives): (r: seq<seq<real>>)
    ensures |r| == |BranchesOf(T, f)| * Width(extended)
  {
    var q := BranchesOf(T, f);
    if |q| == 0 then [] else Assemble(q, T, extended, f)
  }

  /**
   * The first loop of inversekinematics: for each joint-1 candidate, the
   * elbow-up and elbow-down branches, skipped when q2 + q3 holds a NaN.
   */
  method CollectPositionBranches(q1s: seq<real>, pm: Vec3, f: Primitives) returns (q: seq<Vec3>)
    ensures q == PositionBranches(q1s, pm, f)
  {
    q := [];
    for i := 0 to |q1s|
      invariant q == PositionBranches(q1s[..i], pm, f)
    {
      ghost var before := q;
      var r := SolveTheta23(q1s[i], pm, f);
      var q2, q3 := r.0, r.1;
      if !AnyNaN(q2, q3) {
        var v1 := Vec3(q1s[i], q2.up.value, q3.up.value);
        var v2 := Vec3(q1s[i], q2.down.value, q3.down.value);
        q := q + [v1, v2];
      }
      assert q == PositionBranches(q1s[..i + 1], pm, f) by {
        assert q == before + BranchesFor(q1s[i], pm, f);
        assert q1s[..i + 1][..i] == q1s[..i];
      }
    }
    assert q1s[..|q1s|] == q1s;
  }

  /**
   * The second loop of inversekinematics: for each position branch, its two
   * wrist solutions, or their windings when extended.
   */
  method AssembleSolutions(q: seq<Vec3>, T: Pose, extended: bool, f: Primitives) returns (qTotal: seq<seq<real>>)
    ensures qTotal == Assemble(q, T, extended, f)
  {
    qTotal := [];
    for i := 0 to |q|
      invariant qTotal == Assemble(q[..i], T, extended, f)
    {
      var qi := q[i];
      var w := SolveSphericalWrist(qi, T, f);
      var qwa, qwb := w.0, w.1;
      ghost var before := qTotal;
      if !extended {
        var sa := qi.Seq() + qwa.Seq();
        var sb := qi.Seq() + qwb.Seq();
        qTotal := qTotal + [sa];
        qTotal := qTotal + [sb];
        assert qTotal == before + WristSolutions(qi, T, extended, f) by {
          assert qTotal == before + [sa, sb];
        }
      } else {
        var sa := ExtendSolutions(qi, qwa);
        var sb := ExtendSolutions(qi, qwb);
        qTotal := qTotal + sa;
        qTotal := qTotal + sb;
        assert qTotal == before + WristSolutions(qi, T, extended, f) by {
          assert qTotal == before + (sa + sb);
        }
      }
      assert qTotal == Assemble(q[..i + 1], T, extended, f) by {
        assert q[..i + 1][..i] == q[..i];
      }
    }
    assert q[..|q|] == q;
  }

  /**
   * inversekinematics: the wrist centre, the joint-1 candidates, the position
   * branches and, unless there are none, the wrist solutions of each.
   */
  method InverseKinematics(T: Pose, extended: bool, f: Primitives) returns (qTotal: seq<seq<real>>)
    ensures qTotal == Solutions(T, extended, f)
  {
    var pm := WristCenter(T);
    var q1 := f.atan2(pm.y, pm.x);
    var q1s := Q1Candidates(q1);
    var q := CollectPositionBranches(q1s, pm, f);
    if |q| == 0 {
      return [];
    }
    qTotal := AssembleSolutions(q, T, extended, f);
  }

  /* ---------------------------------------------------------------------- */
  /* Properties of the solution set                                          */
  /* ---------------------------------------------------------------------- */

  /**
   * The layout of the solution set: Width joint vectors per position branch,
   * in branch order, wrist a before wrist b, each made of its position
   * branch followed by a wrist solution.
   */
  lemma SolutionsLayout(T: Pose, extended: bool, f: Primitives, k: nat, m: nat)
    requires k < |BranchesOf(T, f)| && m < Width(extended)
    ensures var q := BranchesOf(T, f);
      && |Solutions(T, extended, f)| == |q| * Width(extended)
      && Solutions(T, extended, f)[k * Width(extended) + m] == WristSolutions(q[k], T, extended, f)[m]
      && Solutions(T, extended, f)[k * Width(extended) + m][0] == q[k].x
  {
    var q := BranchesOf(T, f);
    AssembleAt(q, T, extended, f, k, m);
    var r := WristSolutions(q[k], T, extended, f)[m];
    assert r[0] == q[k].x by {
      assert r[..3] == q[k].Seq();
      assert r[0] == r[..3][0];
    }
  }

  /** Every position branch has one of the two joint-1 candidates as its q1. */
  lemma BranchesOfAzimuth(T: Pose, f: Primitives, i: nat)
    requires i < |BranchesOf(T, f)|
    ensures var pm := WristCenter(T);
      var q1 := f.atan2(pm.y, pm.x);
      BranchesOf(T, f)[i].x == Round7(q1) || BranchesOf(T, f)[i].x == Round7(Wrap(q1 + PI))
  {
    var pm := WristCenter(T);
    var q1 := f.atan2(pm.y, pm.x);
    Q1CandidatesExactly(q1);
    PositionBranchesFromCandidates(Q1Candidates(q1), pm, f, i);
  }

  /**
   * There are 4 joint vectors (36 extended) per reachable azimuth, so at most
   * 8 (72 extended); none at all when no azimuth is reachable.
   */
  lemma SolutionsCount(T: Pose, extended: bool, f: Primitives)
    ensures var pm := WristCenter(T);
      var n := ReachableCount(Q1Candidates(f.atan2(pm.y, pm.x)), pm, f);
      && n <= 2
      && |Solutions(T, extended, f)| == 2 * Width(extended) * n
      && (Solutions(T, extended, f) == [] <==> n == 0)
  {
    var pm := WristCenter(T);
    var q1 := f.atan2(pm.y, pm.x);
    Q1CandidatesExactly(q1);
    var q1s := Q1Candidates(q1);
    var n := ReachableCount(q1s, pm, f);
    var q := PositionBranches(q1s, pm, f);
    assert Solutions(T, extended, f) == if |q| == 0 then [] else Assemble(q, T, extended, f);
    var w := Width(extended);
    assert |q| == 2 * n;
    if |q| != 0 {
      assert |Solutions(T, extended, f)| == |q| * w;
    }
    if extended {
      assert w == 18;
      assert |q| * w == 2 * w * n;
    } else {
      assert w == 2;
      assert |q| * w == 2 * w * n;
    }
  }

  /** The two joint-1 candidates for pose T: the rounded azimuth and its opposite. */
  function Azimuths(T: Pose, f: Primitives): (a: seq<real>)
    ensures |a| == 2
  {
    var pm := WristCenter(T);
    var q1 := f.atan2(pm.y, pm.x);
    [Round7(q1), Round7(Wrap(q1 + PI))]
  }

  /**
   * The position branches of azimuth i start at First(T, f, i): at 0 for the
   * first azimuth, and for the second after the first's two when it is
   * reachable.
   */
  function First(T: Pose, f: Primitives, i: nat): nat
    requires i < 2
  {
    if i == 1 && Reachable(PlanarRadius(Azimuths(T, f)[0], WristCenter(T), f)) then 2 else 0
  }

  /** Each reachable azimuth contributes its own two position branches, in place. */
  lemma BranchesOfCandidate(T: Pose, f: Primitives, i: nat)
    requires i < 2
    requires Reachable(PlanarRadius(Azimuths(T, f)[i], WristCenter(T), f))
    ensures var s := First(T, f, i);
      && s + 2 <= |BranchesOf(T, f)|
      && BranchesOf(T, f)[s..s + 2] == BranchesFor(Azimuths(T, f)[i], WristCenter(T), f)
      && BranchesOf(T, f)[s].x == Azimuths(T, f)[i]
      && BranchesOf(T, f)[s + 1].x == Azimuths(T, f)[i]
  {
    var pm := WristCenter(T);
    var q1 := f.atan2(pm.y, pm.x);
    Q1CandidatesExactly(q1);
    var az := Azimuths(T, f);
    assert Q1Candidates(q1) == [az[0], az[1]];
    var b0, b1 := BranchesFor(az[0], pm, f), BranchesFor(az[1], pm, f);
    PositionBranchesOfTwo(az[0], az[1], pm, f);
    BranchesForIffReachable(az[0], pm, f);
    BranchesForIffReachable(az[1], pm, f);
    var q := BranchesOf(T, f);
    assert q == b0 + b1;
    var s := First(T, f, i);
    if i == 0 {
      assert q[0..2] == b0;
    } else {
      assert s == |b0|;
      assert q[s..s + 2] == b1;
    }
    assert q[s] == q[s..s + 2][0] && q[s + 1] == q[s..s + 2][1];
  }


  /**
   * Each reachable azimuth contributes its own 4 joint vectors (36 extended):
   * for each of its two position branches e and each wrist solution m, entry
   * j = k * Width + m, with k = First + e, is that wrist solution of branch k,
   * and starts with the azimuth.
   */
  lemma SolutionsOfAzimuth(T: Pose, extended: bool, f: Primitives, i: nat, e: nat, m: nat)
    returns (k: nat, j: nat)
    requires i < 2 && e < 2 && m < Width(extended)
    requires Reachable(PlanarRadius(Azimuths(T, f)[i], WristCenter(T), f))
    ensures k == First(T, f, i) + e && k < |BranchesOf(T, f)|
    ensures j == k * Width(extended) + m && j < |Solutions(T, extended, f)|
    ensures Solutions(T, extended, f)[j] == WristSolutions(BranchesOf(T, f)[k], T, extended, f)[m]
    ensures Solutions(T, extended, f)[j][0] == Azimuths(T, f)[i]
  {
    BranchesOfCandidate(T, f, i);
    var s := First(T, f, i);
    var q := BranchesOf(T, f);
    k := s + e;
    assert q[k].x == Azimuths(T, f)[i] by {
      assert q[k].x == [q[s].x, q[s + 1].x][e];
    }
    SolutionsLayout(T, extended, f, k, m);
    NatProduct(k, Width(extended));
    j := k * Width(extended) + m;
  }

  /** A product of naturals is a natural. */
  lemma NatProduct(a: nat, b: nat)
    ensures a * b >= 0
  {
  }

  /**
   * The solution set is empty exactly when neither azimuth's wrist centre
   * lies in the reachable annulus L3 - L2 < r < L2 + L3.
   */
  lemma SolutionsEmptyIffUnreachable(T: Pose, extended: bool, f: Primitives)
    ensures var pm := WristCenter(T);
      var q1 := f.atan2(pm.y, pm.x);
      Solutions(T, extended, f) == [] <==>
        (!Reachable(PlanarRadius(Round7(q1), pm, f))
         && !Reachable(PlanarRadius(Round7(Wrap(q1 + PI)), pm, f)))
  {
    var pm := WristCenter(T);
    var q1 := f.atan2(pm.y, pm.x);
    var a, b := Round7(q1), Round7(Wrap(q1 + PI));
    SolutionsCount(T, extended, f);
    Q1CandidatesExactly(q1);
    ReachableCountOfTwo(a, b, pm, f);
  }

  /**
   * Every joint vector in the solution set has six joints and starts with one
   * of the two joint-1 candidates.
   */
  lemma SolutionsShape(T: Pose, extended: bool, f: Primitives, j: nat)
    requires j < |Solutions(T, extended, f)|
    ensures var pm := WristCenter(T);
      var q1 := f.atan2(pm.y, pm.x);
      var s := Solutions(T, extended, f)[j];
      |s| == 6 && (s[0] == Round7(q1) || s[0] == Round7(Wrap(q1 + PI)))
  {
    var q := BranchesOf(T, f);
    assert Solutions(T, extended, f) == Assemble(q, T, extended, f);
    var i := AssembleShape(q, T, extended, f, j);
    BranchesOfAzimuth(T, f, i);
  }
}
