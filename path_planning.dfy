/**
 * Path-planning helpers (artelib/path_planning.py): a clamped repulsive
 * potential around a spherical obstacle, the number of control steps of a
 * straight move, linear interpolation of waypoints and the potential-field
 * sweep that pushes the waypoints of a path away from the obstacle.
 *
 * The Euclidean norm (numpy.linalg.norm) is a parameter; the lemmas that need
 * its properties assume them through Geometry.IsNorm and IsHomogeneous.
 */
module PathPlanning {
  import opened Angles
  import opened Geometry
  import opened RealArith

  /* ---------------------------------------------------------------------- */
  /* The repulsive potential                                                 */
  /* ---------------------------------------------------------------------- */

  /** The gain of the potential. */
  const K: real := 0.3
  /** The radius of the sphere: closer points all feel the full potential. */
  const SphereRadius: real := 0.1
  /** The radius of influence: farther points feel none. */
  const InfluenceRadius: real := 0.2
  /** K (1 / SphereRadius - 1 / InfluenceRadius), the potential inside the sphere. */
  const PotentialMax: real := 1.5

  /**
   * potential: K (1/r - 1/rmax) with r clamped below at the sphere radius and
   * the result clamped below at 0.
   */
  function Potential(r: real): (p: real)
    ensures 0.0 <= p <= PotentialMax
    ensures r >= InfluenceRadius ==> p == 0.0
    ensures r <= SphereRadius ==> p == PotentialMax
  {
    var rc := if r < SphereRadius then SphereRadius else r;
    ClampedReciprocal(rc);
    var p := K * (1.0 / rc - 1.0 / InfluenceRadius);
    if p < 0.0 then 0.0 else p
  }

  /** 1 / rc for a distance clamped at the sphere radius. */
  lemma ClampedReciprocal(rc: real)
    requires rc >= SphereRadius
    ensures 1.0 / rc <= 1.0 / SphereRadius
    ensures rc >= InfluenceRadius ==> 1.0 / rc <= 1.0 / InfluenceRadius
  {
    ReciprocalAntitone(SphereRadius, rc);
    if rc >= InfluenceRadius {
      ReciprocalAntitone(InfluenceRadius, rc);
    }
  }

  /** The potential never grows with the distance. */
  lemma PotentialNonIncreasing(r1: real, r2: real)
    requires r1 <= r2
    ensures Potential(r2) <= Potential(r1)
  {
    var c1 := if r1 < SphereRadius then SphereRadius else r1;
    var c2 := if r2 < SphereRadius then SphereRadius else r2;
    ReciprocalAntitone(c1, c2);
  }

  /* ---------------------------------------------------------------------- */
  /* Number of control steps                                                 */
  /* ---------------------------------------------------------------------- */

  /**
   * n_movements: the distance covered at speed vmax, in steps of delta_time,
   * rounded up to a whole number of steps.
   */
  function NMovements(pCurrent: Vec3, pTarget: Vec3, vmax: real, deltaTime: real, norm: Vec3 -> real): (n: int)
    requires vmax > 0.0 && deltaTime > 0.0
    ensures var steps := norm(Sub(pTarget, pCurrent)) / vmax / deltaTime;
      (n - 1) as real < steps <= n as real
  {
    var totalTime := norm(Sub(pTarget, pCurrent)) / vmax;
    Ceil(totalTime / deltaTime)
  }

  /** A norm makes the step count non-negative, and zero for a move to where the arm is. */
  lemma NMovementsNonNegative(pCurrent: Vec3, pTarget: Vec3, vmax: real, deltaTime: real, norm: Vec3 -> real)
    requires vmax > 0.0 && deltaTime > 0.0
    requires IsNorm(norm)
    ensures NMovements(pCurrent, pTarget, vmax, deltaTime, norm) >= 0
    ensures pCurrent == pTarget ==> NMovements(pCurrent, pTarget, vmax, deltaTime, norm) == 0
  {
    var d := norm(Sub(pTarget, pCurrent));
    assert d >= 0.0;
    var t := d / vmax;
    assert t * vmax == d;
    if t < 0.0 {
      MulPositive(-t, vmax);
    }
    var steps := t / deltaTime;
    assert steps * deltaTime == t;
    if steps < 0.0 {
      MulPositive(-steps, deltaTime);
    }
    if pCurrent == pTarget {
      assert Sub(pTarget, pCurrent) == Zero;
    }
  }

  /* ---------------------------------------------------------------------- */
  /* Interpolated waypoints                                                  */
  /* ---------------------------------------------------------------------- */

  /**
   * numpy's linspace(0, 1, n): n evenly spaced values t_k = k / (n - 1), the
   * single value 0 when n = 1.
   */
  function Linspace(n: nat): (tt: seq<real>)
    ensures |tt| == n
  {
    if n == 1 then [0.0]
    else seq(n, k requires 0 <= k < n => k as real / (n - 1) as real)
  }

  /** Every linspace value lies in [0, 1]. */
  lemma LinspaceInUnit(n: nat, k: nat)
    requires k < n
    ensures 0.0 <= Linspace(n)[k] <= 1.0
  {
    if n > 1 {
      var v := Linspace(n)[k];
      assert v == k as real / (n - 1) as real;
      assert v * (n - 1) as real == k as real;
    }
  }

  /** linspace starts at 0 and, with two values or more, ends at 1. */
  lemma LinspaceEndpoints(n: nat)
    ensures n >= 1 ==> Linspace(n)[0] == 0.0
    ensures n >= 2 ==> Linspace(n)[n - 1] == 1.0
  {
    if n >= 2 {
      var m := (n - 1) as real;
      assert Linspace(n)[n - 1] == m / m;
    }
  }

  /** linspace is strictly increasing. */
  lemma LinspaceIncreasing(n: nat, j: nat, k: nat)
    requires j < k < n
    ensures Linspace(n)[j] < Linspace(n)[k]
  {
    var m := (n - 1) as real;
    assert Linspace(n)[j] == j as real / m;
    assert Linspace(n)[k] == k as real / m;
    DivIncreasing(j as real, k as real, m);
  }

  /** The point at parameter t on the segment: t pTarget + (1 - t) pCurrent. */
  function Lerp(t: real, pCurrent: Vec3, pTarget: Vec3): (p: Vec3)
    ensures t == 0.0 ==> p == pCurrent
    ensures t == 1.0 ==> p == pTarget
  {
    Add(Scale(t, pTarget), Scale(1.0 - t, pCurrent))
  }

  /** The waypoints generate_target_positions returns. */
  function TargetPositions(pCurrent: Vec3, pTarget: Vec3, n: nat): (ps: seq<Vec3>)
    ensures |ps| == n
  {
    var tt := Linspace(n);
    seq(n, k requires 0 <= k < n => Lerp(tt[k], pCurrent, pTarget))
  }

  /** generate_target_positions: one waypoint per linspace value, in order. */
  method GenerateTargetPositions(pCurrent: Vec3, pTarget: Vec3, n: nat) returns (targetPositions: seq<Vec3>)
    ensures targetPositions == TargetPositions(pCurrent, pTarget, n)
  {
    var tt := Linspace(n);
    targetPositions := [];
    for k := 0 to |tt|
      invariant targetPositions == TargetPositions(pCurrent, pTarget, n)[..k]
    {
      var t := tt[k];
      var targetPos := Add(Scale(t, pTarget), Scale(1.0 - t, pCurrent));
      targetPositions := targetPositions + [targetPos];
    }
  }

  /**
   * The path starts at pCurrent and, with two points or more, ends at
   * pTarget; waypoint k is at parameter k / (n - 1).
   */
  lemma TargetPositionsEndpoints(pCurrent: Vec3, pTarget: Vec3, n: nat)
    ensures var ps := TargetPositions(pCurrent, pTarget, n);
      && (n >= 1 ==> ps[0] == pCurrent)
      && (n >= 2 ==> ps[n - 1] == pTarget)
      && (forall k :: 0 <= k < n && n >= 2 ==>
            ps[k] == Lerp(k as real / (n - 1) as real, pCurrent, pTarget))
  {
    var ps := TargetPositions(pCurrent, pTarget, n);
    LinspaceEndpoints(n);
    if n >= 1 {
      assert ps[0] == Lerp(0.0, pCurrent, pTarget);
    }
    if n >= 2 {
      assert ps[n - 1] == Lerp(1.0, pCurrent, pTarget);
    }
  }

  /** A point of the segment lies, coordinate by coordinate, between its endpoints. */
  lemma LerpBetween(t: real, pCurrent: Vec3, pTarget: Vec3)
    requires 0.0 <= t <= 1.0
    ensures var p := Lerp(t, pCurrent, pTarget);
      && Between(p.x, pCurrent.x, pTarget.x)
      && Between(p.y, pCurrent.y, pTarget.y)
      && Between(p.z, pCurrent.z, pTarget.z)
  {
    var p := Lerp(t, pCurrent, pTarget);
    BetweenEndpoints(t, pCurrent.x, pTarget.x, p.x);
    BetweenEndpoints(t, pCurrent.y, pTarget.y, p.y);
    BetweenEndpoints(t, pCurrent.z, pTarget.z, p.z);
  }

  /** Each waypoint lies, coordinate by coordinate, between the endpoints. */
  lemma TargetPositionsBetween(pCurrent: Vec3, pTarget: Vec3, n: nat, k: nat)
    requires k < n
    ensures var p := TargetPositions(pCurrent, pTarget, n)[k];
      && Between(p.x, pCurrent.x, pTarget.x)
      && Between(p.y, pCurrent.y, pTarget.y)
      && Between(p.z, pCurrent.z, pTarget.z)
  {
    var t := Linspace(n)[k];
    LinspaceInUnit(n, k);
    assert TargetPositions(pCurrent, pTarget, n)[k] == Lerp(t, pCurrent, pTarget);
    LerpBetween(t, pCurrent, pTarget);
  }

  /* ---------------------------------------------------------------------- */
  /* The potential-field sweep                                               */
  /* ---------------------------------------------------------------------- */

  /** The distance r from the sphere to p, as the sweep computes it: zero only at the centre. */
  function Distance(p: Vec3, sphere: Vec3, norm: Vec3 -> real): (r: real)
    ensures IsNorm(norm) ==> r >= 0.0 && (r == 0.0 <==> p == sphere)
  {
    assert Sub(sphere, p) == Zero <==> p == sphere;
    norm(Sub(sphere, p))
  }

  /**
   * The direction u the sweep pushes p along: p - sphere, divided by r when
   * r > 0. It is zero exactly at the centre.
   */
  function Direction(p: Vec3, sphere: Vec3, norm: Vec3 -> real): (u: Vec3)
    ensures p == sphere ==> u == Zero
    ensures IsNorm(norm) ==> (u == Zero <==> p == sphere)
  {
    var r := Distance(p, sphere, norm);
    var w := Sub(p, sphere);
    assert w == Zero <==> p == sphere;
    if r > 0.0 then
      ScaleNonZero(1.0 / r, w);
      Scale(1.0 / r, w)
    else w
  }

  /** Scaling by a non-zero factor keeps a vector zero or non-zero. */
  lemma ScaleNonZero(c: real, w: Vec3)
    requires c != 0.0
    ensures Scale(c, w) == Zero <==> w == Zero
  {
    if Scale(c, w) == Zero {
      assert c * w.x == 0.0 && c * w.y == 0.0 && c * w.z == 0.0;
    }
  }

  /**
   * One point's update: p moved by 0.01 times its potential along u. A point
   * outside the sphere's influence, or at its centre, stays where it is.
   */
  function Push(p: Vec3, sphere: Vec3, norm: Vec3 -> real): (q: Vec3)
    ensures Distance(p, sphere, norm) >= InfluenceRadius ==> q == p
    ensures p == sphere ==> q == sphere
  {
    Add(p, Scale(0.01 * Potential(Distance(p, sphere, norm)), Direction(p, sphere, norm)))
  }

  /** One sweep: every point pushed, each from its position before the sweep. */
  function Sweep(ps: seq<Vec3>, sphere: Vec3, norm: Vec3 -> real): (qs: seq<Vec3>)
    ensures |qs| == |ps|
  {
    seq(|ps|, i requires 0 <= i < |ps| => Push(ps[i], sphere, norm))
  }

  /** The total potential a sweep accumulates, point by point. */
  function TotalPotential(ps: seq<Vec3>, sphere: Vec3, norm: Vec3 -> real): (t: real)
    ensures 0.0 <= t <= PotentialMax * |ps| as real
  {
    if |ps| == 0 then 0.0
    else TotalPotential(ps[..|ps| - 1], sphere, norm) + Potential(Distance(ps[|ps| - 1], sphere, norm))
  }

  /** The threshold below which the sweep stops. */
  const Tolerance: real := 0.01

  /**
   * The outer loop, with at most fuel sweeps: the positions after the last
   * sweep and whether its total potential fell below the tolerance.
   */
  function Relax(ps: seq<Vec3>, sphere: Vec3, norm: Vec3 -> real, fuel: nat): (r: (seq<Vec3>, bool))
    ensures |r.0| == |ps|
    decreases fuel
  {
    if fuel == 0 then (ps, false)
    else if TotalPotential(ps, sphere, norm) < Tolerance then (Sweep(ps, sphere, norm), true)
    else Relax(Sweep(ps, sphere, norm), sphere, norm, fuel - 1)
  }

  /**
   * The body of the outer loop: every point pushed in place, each computed
   * from its own position before the sweep, and the potentials summed.
   */
  method SweepInPlace(ps: array<Vec3>, sphere: Vec3, norm: Vec3 -> real) returns (totalPotential: real)
    modifies ps
    ensures ps[..] == Sweep(old(ps[..]), sphere, norm)
    ensures totalPotential == TotalPotential(old(ps[..]), sphere, norm)
  {
    ghost var start := ps[..];
    totalPotential := 0.0;
    for i := 0 to ps.Length
      invariant forall k :: 0 <= k < i ==> ps[k] == Push(start[k], sphere, norm)
      invariant forall k :: i <= k < ps.Length ==> ps[k] == start[k]
      invariant totalPotential == TotalPotential(start[..i], sphere, norm)
    {
      var r := norm(Sub(sphere, ps[i]));
      var u := Sub(ps[i], sphere);
      if r > 0.0 {
        u := Scale(1.0 / r, u);
      }
      var pot := Potential(r);
      var moved := Add(ps[i], Scale(0.01 * pot, u));
      assert moved == Push(start[i], sphere, norm) by {
        assert u == Direction(start[i], sphere, norm);
      }
      ps[i] := moved;
      totalPotential := totalPotential + pot;
      assert start[..i + 1][..i] == start[..i];
    }
    assert ps[..] == Sweep(start, sphere, norm);
    assert start[..ps.Length] == start;
  }

  /**
   * move_target_positions_obstacles: sweeps until a sweep's total potential
   * is below 0.01, updating the caller's array in place (the result is that
   * same array). fuel bounds the number of sweeps; converged is false when
   * it ran out.
   */
  method MoveTargetPositionsObstacles(targetPositions: array<Vec3>, spherePosition: Vec3,
                                     norm: Vec3 -> real, fuel: nat)
    returns (finalPositions: array<Vec3>, converged: bool)
    modifies targetPositions
    ensures finalPositions == targetPositions
    ensures (finalPositions[..], converged) == Relax(old(targetPositions[..]), spherePosition, norm, fuel)
  {
    finalPositions := targetPositions;
    converged := false;
    var remaining := fuel;
    while remaining > 0
      invariant finalPositions == targetPositions
      invariant Relax(old(targetPositions[..]), spherePosition, norm, fuel)
        == Relax(finalPositions[..], spherePosition, norm, remaining)
      invariant !converged
      decreases remaining
    {
      var totalPotential := SweepInPlace(finalPositions, spherePosition, norm);
      remaining := remaining - 1;
      if totalPotential < Tolerance {
        converged := true;
        break;
      }
    }
  }

  /* ---------------------------------------------------------------------- */
  /* Properties of one sweep and of the loop                                 */
  /* ---------------------------------------------------------------------- */

  /** Away from the centre the distance is positive and the direction is a unit vector. */
  lemma UnitDirection(p: Vec3, sphere: Vec3, norm: Vec3 -> real)
    requires IsNorm(norm) && IsHomogeneous(norm)
    requires p != sphere
    ensures var r := Distance(p, sphere, norm);
      && r > 0.0
      && Direction(p, sphere, norm) == Scale(1.0 / r, Sub(p, sphere))
      && norm(Direction(p, sphere, norm)) == 1.0
  {
    var v := Sub(sphere, p);
    var r := Distance(p, sphere, norm);
    assert r > 0.0;
    var w := Sub(p, sphere);
    assert w == Scale(-1.0, v);
    NormScaled(norm, -1.0, v);
    var c := 1.0 / r;
    NormScaled(norm, c, w);
    assert c * r == 1.0;
  }

  /** Homogeneity at one factor and one vector. */
  lemma NormScaled(norm: Vec3 -> real, c: real, v: Vec3)
    requires IsHomogeneous(norm)
    ensures norm(Scale(c, v)) == Abs(c) * norm(v)
  {
  }

  /**
   * Any other point moves away from the centre, along the unit vector from the
   * centre through it, by 0.01 times its potential.
   */
  lemma PushOutward(p: Vec3, sphere: Vec3, norm: Vec3 -> real)
    requires IsNorm(norm) && IsHomogeneous(norm)
    requires p != sphere
    ensures var r := Distance(p, sphere, norm);
      var u := Direction(p, sphere, norm);
      && r > 0.0
      && u == Scale(1.0 / r, Sub(p, sphere)) && norm(u) == 1.0
      && Sub(Push(p, sphere, norm), p) == Scale(0.01 * Potential(r), u)
      && norm(Sub(Push(p, sphere, norm), p)) == 0.01 * Potential(r)
  {
    UnitDirection(p, sphere, norm);
    var u := Direction(p, sphere, norm);
    var c := 0.01 * Potential(Distance(p, sphere, norm));
    var d := Sub(Push(p, sphere, norm), p);
    assert d == Scale(c, u);
    assert norm(d) == Abs(c) * 1.0;
  }

  /** Each point contributes its own potential to a sweep's total. */
  lemma {:induction false} TotalPotentialAtLeast(ps: seq<Vec3>, sphere: Vec3, norm: Vec3 -> real, i: nat)
    requires i < |ps|
    ensures Potential(Distance(ps[i], sphere, norm)) <= TotalPotential(ps, sphere, norm)
  {
    var prefix := ps[..|ps| - 1];
    if i < |ps| - 1 {
      TotalPotentialAtLeast(prefix, sphere, norm, i);
      assert prefix[i] == ps[i];
    }
  }

  /** With no point within 0.2 of the sphere the total potential is zero. */
  lemma {:induction false} TotalPotentialAllFar(ps: seq<Vec3>, sphere: Vec3, norm: Vec3 -> real)
    requires forall i :: 0 <= i < |ps| ==> Distance(ps[i], sphere, norm) >= InfluenceRadius
    ensures TotalPotential(ps, sphere, norm) == 0.0
  {
    if |ps| > 0 {
      var prefix := ps[..|ps| - 1];
      assert forall i :: 0 <= i < |prefix| ==> prefix[i] == ps[i];
      TotalPotentialAllFar(prefix, sphere, norm);
    }
  }

  /** A path that keeps clear of the sphere's influence is returned after one sweep, unchanged. */
  lemma RelaxAllFar(ps: seq<Vec3>, sphere: Vec3, norm: Vec3 -> real, fuel: nat)
    requires fuel >= 1
    requires forall i :: 0 <= i < |ps| ==> Distance(ps[i], sphere, norm) >= InfluenceRadius
    ensures Relax(ps, sphere, norm, fuel) == (ps, true)
  {
    TotalPotentialAllFar(ps, sphere, norm);
    assert Sweep(ps, sphere, norm) == ps;
  }

  /**
   * A waypoint at the centre of the sphere stays there and contributes the
   * full potential 1.5 to every sweep, so the loop never stops.
   */
  lemma {:induction false} RelaxCentreNeverConverges(ps: seq<Vec3>, sphere: Vec3, norm: Vec3 -> real, fuel: nat, i: nat)
    requires IsNorm(norm)
    requires i < |ps| && ps[i] == sphere
    ensures !Relax(ps, sphere, norm, fuel).1
    decreases fuel
  {
    if fuel > 0 {
      assert Sub(sphere, sphere) == Zero;
      TotalPotentialAtLeast(ps, sphere, norm, i);
      var next := Sweep(ps, sphere, norm);
      assert next[i] == sphere;
      RelaxCentreNeverConverges(next, sphere, norm, fuel - 1, i);
    }
  }
}
