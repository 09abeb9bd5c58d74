# IRB140 closed-form inverse kinematics and potential-field path planning

This project is a Dafny model of two parts of the coppelia_simulations robotics code.

1. **The inverse kinematics of the ABB IRB140** (`robots/abbirb140.py`). The six-joint
   arm has a spherical wrist, so the solver is decoupled:
   - The wrist centre fixes joint 1, as an azimuth and its opposite.
   - A planar two-link triangle, solved by the law of cosines, gives joints 2 and 3,
     elbow up and elbow down. An unreachable triangle makes them NaN, and the branch
     is skipped.
   - A spherical-wrist solve gives joints 4 to 6: two solutions, with a separate
     branch for the singular wrist.
   - An assembler joins each position branch with its wrist solutions. Optionally
     it adds the nine ±2π windings of joints 4 and 6.
2. **The path-planning helpers** (`artelib/path_planning.py`):
   - the clamped repulsive potential of a spherical obstacle;
   - the number of control steps of a straight move;
   - linearly interpolated waypoints;
   - the sweep that pushes the waypoints of a path away from the obstacle until
     their total potential falls below 0.01.

Files:

| file | module | contents |
|---|---|---|
| `wrappers.dfy` | `Wrappers` | `Option`, which stands for NaN and for numpy errors |
| `angles.dfy` | `Angles` | `PI`; `Wrap`, the exact meaning of `atan2(sin x, cos x)`; numpy's `round(·, 7)` and `sign` |
| `geometry.dfy` | `Geometry` | points, 3×3 matrices, poses, and the laws of a Euclidean norm |
| `arith.dfy` | `RealArith` | small facts about real multiplication and division |
| `unique.dfy` | `Unique` | numpy's `unique` (sorted distinct values), the solver's re-indexing `q1s[idx]`, and first-occurrence de-duplication |
| `irb140.dfy` | `AbbIrb140` | DH table, joint ranges, the solver and its properties |
| `path_planning.dfy` | `PathPlanning` | potential, step count, waypoints, the sweep |

The numerical routines the solver calls are not modelled. These are `atan2`,
`arccos`, the planar norm, the change of the wrist centre into link 1's frame
(`A01(q1)⁻¹ Pm`) and the wrist residual `(A01 A12 A23)⁻¹ T`. They are the fields of
a `Primitives` value that the caller supplies. Where a property depends on their
ranges, the property takes the range as a hypothesis: `Atan2InRange` or
`ArccosInRange`. The Euclidean norm of the path planner is a parameter in the same way
(`IsNorm`, `IsHomogeneous`). Arithmetic is exact real arithmetic:
- `atan2(sin x, cos x)` is `Wrap`, the reduction of `x` by whole turns into (−π, π];
- `round(x, decimals=7)` is round-half-even of `x · 10⁷`, divided by `10⁷`.

The main results:
- in exact arithmetic there are exactly two joint-1 candidates;
- each candidate yields position branches exactly when its wrist centre lies in the
  reachable annulus L3 − L2 < r < L2 + L3;
- the solution set is therefore empty exactly when neither azimuth is reachable.
  Otherwise each reachable azimuth contributes its own 4 joint vectors, or 36 in
  extended mode, each starting with that azimuth;
- the regular wrist solutions are the s = ±1 branches of the closed-form formulas;
- the waypoints run from the start to the target and stay between the two;
- the sweep leaves a path that keeps clear of the obstacle unchanged, and never
  stops when a waypoint sits exactly at the obstacle's centre.

## Model

| member | source | states |
|---|---|---|
| AbbIrb140.DHTable | robots/abbirb140.py:32-53 | six revolute links; the solver's lengths L6 = 0.065, L2 = 0.36, L3 = 0.38 as read from the DH table; every joint range has lower < upper |
| AbbIrb140.WristCenter | robots/abbirb140.py:95-103 | the wrist centre plus L6 along the end effector's z axis is the end-effector position |
| AbbIrb140.Q1Tried | robots/abbirb140.py:106-111 | three rounded azimuths: q1, then wrap(q1 + π) twice, since wrap(q1 − π) is the same angle; the first differs from the other two |
| AbbIrb140.Q1Candidates | robots/abbirb140.py:105-114 | at most three candidates, pairwise distinct, and exactly the values of the rounded tried azimuths q1, wrap(q1 + π), wrap(q1 − π) |
| AbbIrb140.Q1CandidatesExactly | robots/abbirb140.py:105-114 | in exact arithmetic the candidates are exactly [round(q1), round(wrap(q1 + π))], and the two differ |
| AbbIrb140.Q1CandidatesAsWritten | robots/abbirb140.py:112-114 | the solver's own `np.unique` plus `q1s[idx]` is defined on these inputs and gives the same candidates as first-occurrence de-duplication |
| AbbIrb140.AngleFromCos | robots/abbirb140.py:170-180 | arccos is taken exactly when the cosine is defined and strictly inside (−1, 1); otherwise NaN |
| AbbIrb140.ShoulderAngles | robots/abbirb140.py:181-184 | the elbow-down q2 exceeds the elbow-up q2 by 2γ, and their sum is π − 2β |
| AbbIrb140.ElbowAngles | robots/abbirb140.py:185-188 | the two q3 values sum to −π and differ by 2π − 2η |
| AbbIrb140.FitToRange | robots/abbirb140.py:189-197 | a value inside its joint range is kept; one outside is replaced by the same angle in (−π, π] |
| AbbIrb140.FitJoint | robots/abbirb140.py:189-197 | range fitting maps NaN to NaN and fits a number with its joint's range |
| AbbIrb140.SolveTheta23 | robots/abbirb140.py:156-198 | q2 is NaN exactly when the shoulder cosine a is undefined or \|a\| ≥ 1, and q3 is NaN exactly when \|b\| ≥ 1; each joint is NaN in both branches or in neither |
| AbbIrb140.Theta23Branches | robots/abbirb140.py:181-198 | on a closed triangle each returned q2 and q3 is its unfitted value fitted to range, and the unfitted values are π/2 − β ∓ γ and π/2 − η, η − 3π/2 |
| AbbIrb140.RatioBelowOne | robots/abbirb140.py:167-170 | \|n / d\| < 1 exactly when \|n\| < \|d\| |
| AbbIrb140.ScaleBelowOne | robots/abbirb140.py:167-170 | for e > 0, a < 1 exactly when a·e < e |
| AbbIrb140.PlanarRadius | robots/abbirb140.py:163-164 | with a non-negative planar norm, r ≥ 0, and the triangle is reachable exactly when L3 − L2 < r < L2 + L3 |
| AbbIrb140.CosShoulder | robots/abbirb140.py:167 | undefined (numpy's division by zero) exactly at r = 0; the cosine is 1 at full stretch r = L2 + L3 and −1 at r = L3 − L2 |
| AbbIrb140.CosElbow | robots/abbirb140.py:168 | the cosine is −1 at full stretch \|r\| = L2 + L3 and 1 at full fold \|r\| = L3 − L2 |
| AbbIrb140.ElbowFeasibleIffReachable | robots/abbirb140.py:168-180 | \|b\| < 1 exactly when the planar distance lies in the reachable annulus (0.02, 0.74) |
| AbbIrb140.ShoulderBound | robots/abbirb140.py:167-174 | for m > 0, \|m² − 0.0148\| < 0.72 m exactly when 0.02 < m < 0.74 |
| AbbIrb140.ShoulderFeasibleIffReachable | robots/abbirb140.py:167-174 | a is defined and \|a\| < 1 exactly when the planar distance lies in the reachable annulus |
| AbbIrb140.Theta23FeasibleIffReachable | robots/abbirb140.py:156-198 | both q2 and q3 are numbers exactly when the wrist centre is reachable, so a NaN in one always comes with a NaN in the other |
| AbbIrb140.SolveSphericalWrist | robots/abbirb140.py:200-245 | q5 = arccos(Q[2,2]). In the singular case q4 = 0 and π, q5 is shared, and the second q6 is the first minus π. Otherwise the second q5 is the negated first, and q4 and q6 follow the atan2 formulas with the sign of each solution's own q5 |
| AbbIrb140.WristRegularBranches | robots/abbirb140.py:223-232 | away from the singularity, with arccos in (0, π), the two solutions are the s = +1 and s = −1 branches of q4 = atan2(−s Q12, −s Q02) and q6 = atan2(s Q21, −s Q20), with q5 in (0, π) and its negation |
| AbbIrb140.WristWithinJointRanges | robots/abbirb140.py:32-34 | with atan2 in (−π, π], both wrist solutions keep q4 and q6 inside their ±400° ranges, singular or not |
| AbbIrb140.Extended | robots/abbirb140.py:295-313 | nine joint vectors, the first the wrist solution itself; each keeps q1 to q3 and q5 and moves q4 and q6 by −2π, 0 or 2π |
| AbbIrb140.ExtendedCoversWindings | robots/abbirb140.py:300-308 | the nine windings are pairwise different and cover all nine pairs of offsets of q4 and q6 |
| AbbIrb140.ExtendSolutions | robots/abbirb140.py:295-313 | the loop builds exactly `Extended` |
| AbbIrb140.BranchesFor | robots/abbirb140.py:116-124 | a candidate contributes nothing exactly when q2 or q3 holds a NaN; otherwise elbow up, then elbow down |
| AbbIrb140.BranchesForIffReachable | robots/abbirb140.py:116-124 | a candidate contributes two branches if its wrist centre is reachable and none otherwise |
| AbbIrb140.ReachableCount | robots/abbirb140.py:116-124 | the number of reachable candidates is at most the number of candidates |
| AbbIrb140.ReachableCountOfTwo | robots/abbirb140.py:116-124 | of two candidates, each reachable one counts once |
| AbbIrb140.PositionBranches | robots/abbirb140.py:116-124 | two position branches per reachable candidate, in total |
| AbbIrb140.PositionBranchesOfTwo | robots/abbirb140.py:116-124 | with two candidates, the first loop yields the first candidate's own branches, then the second's |
| AbbIrb140.PositionBranchesFromCandidates | robots/abbirb140.py:116-124 | every position branch takes its q1 from the candidates |
| AbbIrb140.PositionBranchesPaired | robots/abbirb140.py:116-124 | branches 2k and 2k + 1 are the elbow-up and elbow-down branches of one candidate |
| AbbIrb140.WristSolutions | robots/abbirb140.py:133-150 | 2 joint vectors (18 extended); each has six joints and starts with q1 to q3; wrist a comes first and wrist b starts the second half; not extended, exactly q1..q3 joined with wrist a, then with wrist b; extended, the nine windings of wrist a followed by those of wrist b |
| AbbIrb140.Assemble | robots/abbirb140.py:131-150 | Width joint vectors per position branch |
| AbbIrb140.AssembleAt | robots/abbirb140.py:131-150 | solution k · Width + m is wrist solution m of position branch k |
| AbbIrb140.AssembleShape | robots/abbirb140.py:131-150 | every assembled joint vector has six joints and starts with the q1 of some position branch |
| AbbIrb140.CollectPositionBranches | robots/abbirb140.py:115-124 | the first loop of inversekinematics builds exactly the position branches |
| AbbIrb140.AssembleSolutions | robots/abbirb140.py:131-150 | the second loop builds exactly the assembled solution set |
| AbbIrb140.BranchesOf | robots/abbirb140.py:103-124 | two position branches per candidate azimuth whose triangle is reachable |
| AbbIrb140.Solutions | robots/abbirb140.py:103-154 | Width joint vectors per position branch, so none when no branch exists |
| AbbIrb140.InverseKinematics | robots/abbirb140.py:76-154 | the solver returns exactly `Solutions`: empty when no position branch exists, otherwise the assembled set |
| AbbIrb140.SolutionsLayout | robots/abbirb140.py:126-154 | Width joint vectors per position branch, in branch order, each made of its position branch and the matching wrist solution, so starting with that branch's q1 |
| AbbIrb140.BranchesOfCandidate | robots/abbirb140.py:105-124 | each reachable azimuth, round(q1) or round(wrap(q1 + π)), contributes its own elbow-up and elbow-down branch, both with that azimuth as joint 1 |
| AbbIrb140.SolutionsOfAzimuth | robots/abbirb140.py:105-154 | each reachable azimuth has its own 4 joint vectors (36 extended), at distinct positions fixed by branch and wrist solution, each starting with that azimuth |
| AbbIrb140.BranchesOfAzimuth | robots/abbirb140.py:105-124 | every position branch has round(q1) or round(wrap(q1 + π)) as its joint 1 |
| AbbIrb140.SolutionsCount | robots/abbirb140.py:76-154 | at most two reachable azimuths; in total 4 joint vectors (36 extended) per reachable azimuth; empty exactly when none is reachable |
| AbbIrb140.SolutionsEmptyIffUnreachable | robots/abbirb140.py:76-154 | the solver returns no solution exactly when neither azimuth's wrist centre is in the reachable annulus |
| AbbIrb140.SolutionsShape | robots/abbirb140.py:105-154 | every returned joint vector has six joints and starts with one of the two joint-1 candidates |
| Unique.Insert | robots/abbirb140.py:113 | the inserted value is in the result |
| Unique.InsertMembers | robots/abbirb140.py:113 | sorted insertion adds exactly the inserted value |
| Unique.InsertLength | robots/abbirb140.py:113 | sorted insertion grows the sequence by one exactly when the value is new |
| Unique.InsertSorted | robots/abbirb140.py:113 | sorted insertion keeps the sequence strictly increasing |
| Unique.SortedUnique | robots/abbirb140.py:113 | numpy's unique gives strictly increasing values, the same set as its input, no longer than the input |
| Unique.FirstIndex | robots/abbirb140.py:113 | the index numpy returns is the first occurrence of the value |
| Unique.UniqueReindexed | robots/abbirb140.py:113-114 | when `q1s[idx]` raises no IndexError, it has as many entries as unique finds, each one of the unique values |
| Unique.UniqueReindexedDistinct | robots/abbirb140.py:113-114 | when defined, `q1s[idx]` lists distinct values of the input, as many as unique finds |
| Unique.Dedup | robots/abbirb140.py:112-114 | first-occurrence de-duplication is duplicate-free, has the same values as its input and is no longer |
| Unique.DedupFirstOccurrenceOrder | robots/abbirb140.py:112-114 | de-duplication keeps the order in which values first occur |
| Unique.FirstIndexPrefix | robots/abbirb140.py:113 | a value of a prefix first occurs at the same index in the whole sequence |
| Unique.SortedUniqueOfThree | robots/abbirb140.py:113 | unique of three values is the sorted insertion of the three |
| Unique.ReindexedOfValueAndRepeat | robots/abbirb140.py:113-114 | on a value followed twice by another (the exact joint-1 input) the re-indexing keeps input order and agrees with de-duplication |
| Unique.DedupOfThree | robots/abbirb140.py:112-114 | de-duplication of three values, case by case |
| Unique.DedupOfDistinctThree | robots/abbirb140.py:112-114 | three distinct values are kept in input order |
| Unique.ReindexedDefinedOnThree | robots/abbirb140.py:113-114 | on three values `q1s[idx]` raises IndexError exactly when the first two are equal and the third differs |
| Unique.SortedUniqueOfMixedSigns | robots/abbirb140.py:113 | unique sorts [0, R, −R] into [−R, 0, R] |
| Unique.ReindexedReordersThree | robots/abbirb140.py:113-114 | `q1s[idx]` turns [0, R, −R] into [R, −R, 0], neither input order nor sorted order |
| Angles.Ceil | artelib/path_planning.py:30 | the least integer not below x |
| Angles.Wrap | robots/abbirb140.py:109-110 | atan2(sin x, cos x) lies in (−π, π] |
| Angles.WrapUnique | robots/abbirb140.py:109-110 | the wrap is the only value in (−π, π] that is x plus whole turns |
| Angles.WrapSameAngle | robots/abbirb140.py:109-110 | wrapping changes an angle by whole turns only |
| Angles.WrapIdentity | robots/abbirb140.py:190-197 | a value already in (−π, π] is unchanged |
| Angles.WrapPeriodic | robots/abbirb140.py:107-110 | adding a whole turn does not change the wrapped value, so wrap(q1 + π) = wrap(q1 − π) |
| Angles.WrapHalfTurnApart | robots/abbirb140.py:107-110 | wrap(q1 + π) is never q1: it is at least π away |
| Angles.RoundHalfEven | robots/abbirb140.py:113 | the nearest integer, with ties to the even one |
| Angles.Round7 | robots/abbirb140.py:113 | rounding to 7 decimals moves a value by at most 0.5·10⁻⁷ and yields a whole multiple of 10⁻⁷; a tie goes to the even multiple |
| Angles.Sign | robots/abbirb140.py:227-228 | sign(x) · x = \|x\|; sign is −1, 0 or 1, and 0 exactly at 0 |
| PathPlanning.Potential | artelib/path_planning.py:15-24 | the potential lies in [0, 1.5]; it is 0 at distance 0.2 or more and 1.5 within the sphere radius 0.1 |
| PathPlanning.ClampedReciprocal | artelib/path_planning.py:19-21 | for a distance clamped at 0.1, 1/r ≤ 10, and 1/r ≤ 5 from 0.2 on |
| PathPlanning.PotentialNonIncreasing | artelib/path_planning.py:15-24 | the potential never grows with the distance |
| PathPlanning.NMovements | artelib/path_planning.py:27-31 | the step count is ⌈‖pT − pC‖ / vmax / Δt⌉ |
| PathPlanning.NMovementsNonNegative | artelib/path_planning.py:27-31 | with a norm, the step count is non-negative, and 0 for a move to the current position |
| PathPlanning.Linspace | artelib/path_planning.py:35 | n values |
| PathPlanning.LinspaceInUnit | artelib/path_planning.py:35 | every value lies in [0, 1] |
| PathPlanning.LinspaceEndpoints | artelib/path_planning.py:35 | the first value is 0 and, with two values or more, the last is 1 |
| PathPlanning.LinspaceIncreasing | artelib/path_planning.py:35 | the values are strictly increasing |
| PathPlanning.Lerp | artelib/path_planning.py:40 | t = 0 gives p_current and t = 1 gives p_target |
| PathPlanning.TargetPositions | artelib/path_planning.py:34-42 | one waypoint per linspace value |
| PathPlanning.GenerateTargetPositions | artelib/path_planning.py:34-42 | the loop builds exactly `TargetPositions` |
| PathPlanning.TargetPositionsEndpoints | artelib/path_planning.py:34-42 | the path starts at p_current, ends at p_target when n ≥ 2, and waypoint k is at parameter k / (n − 1) |
| PathPlanning.LerpBetween | artelib/path_planning.py:40 | for t in [0, 1], t·pT + (1 − t)·pC lies between the endpoints in every coordinate |
| PathPlanning.TargetPositionsBetween | artelib/path_planning.py:34-42 | every waypoint lies between the endpoints in every coordinate |
| PathPlanning.Sweep | artelib/path_planning.py:87-95 | one sweep keeps the number of waypoints |
| PathPlanning.TotalPotential | artelib/path_planning.py:86-95 | a sweep's total potential lies between 0 and 1.5 per waypoint |
| PathPlanning.Relax | artelib/path_planning.py:85-97 | the outer loop keeps the number of waypoints |
| PathPlanning.MoveTargetPositionsObstacles | artelib/path_planning.py:79-98 | the caller's array is updated in place and returned; its final contents and the convergence flag are those of `Relax` on the initial contents |
| PathPlanning.Distance | artelib/path_planning.py:88 | with a norm, r ≥ 0, and r = 0 exactly at the sphere's centre |
| PathPlanning.Direction | artelib/path_planning.py:89-91 | u is zero at the centre and, with a norm, only there |
| PathPlanning.Push | artelib/path_planning.py:88-94 | a waypoint at distance 0.2 or more does not move, and neither does a waypoint at the sphere's centre |
| PathPlanning.SweepInPlace | artelib/path_planning.py:86-95 | the inner loop updates the array to exactly `Sweep` of its contents before the loop, and sums exactly `TotalPotential` of those contents |
| PathPlanning.UnitDirection | artelib/path_planning.py:88-91 | away from the centre, r > 0 and the direction is a unit vector |
| PathPlanning.PushOutward | artelib/path_planning.py:88-94 | any other waypoint moves along the unit vector from the centre through it, by exactly 0.01 times its potential |
| PathPlanning.TotalPotentialAtLeast | artelib/path_planning.py:86-95 | each waypoint's potential is at most the sweep's total |
| PathPlanning.TotalPotentialAllFar | artelib/path_planning.py:86-95 | with every waypoint 0.2 or more from the centre the total is 0 |
| PathPlanning.RelaxAllFar | artelib/path_planning.py:85-97 | a path clear of the sphere's influence is returned unchanged after one sweep, converged |
| PathPlanning.RelaxCentreNeverConverges | artelib/path_planning.py:85-97 | a waypoint exactly at the centre stays there and adds 1.5 to every sweep, so the loop never stops, however many sweeps it is allowed |
| RealArith.ReciprocalAntitone | artelib/path_planning.py:21 | for 0 < a ≤ b, 1/b ≤ 1/a |
| RealArith.DivIncreasing | artelib/path_planning.py:35 | dividing by a positive real keeps a strict order |
| RealArith.BetweenEndpoints | artelib/path_planning.py:40 | t·b + (1 − t)·a lies between a and b for t in [0, 1] |

## Left out

- Simulator I/O is not modelled: `start`, the object handles, and the `sim` calls behind the robot class.
- Removal of the tool offset (`Ttarget * Ttcp⁻¹`, robots/abbirb140.py:91-93) is not modelled. The model takes the end-effector pose T after that step.
- The `HomogeneousMatrix` class and the DH transforms are not part of this model. Their numeric meaning enters only through `Primitives.inFrame1` and `Primitives.wristResidual`.
- `atan2`, `arccos` and the planar norm are not modelled numerically. Properties that need their ranges assume them (`Atan2InRange`, `ArccosInRange`).
- Floating point is not modelled. In exact arithmetic wrap(q1 + π) = wrap(q1 − π), so the model has exactly two joint-1 candidates. In floating point, q1 = 0 yields π and −π, three candidates and up to 12 joint vectors. `Unique.ReindexedReordersThree` exhibits that case.
- The warning prints and the "Degenerate" banner are left out: they are output only.
- The unused argument `q0` of `inversekinematics` is left out.
- The commented-out `inversekinematics_line` methods are left out.
- `generate_target_orientations` and `generate_target_orientations_Q` are left out: they rely on slerp and Euler conversions from artelib/tools.py, which is not part of this model.
- artelib/euler.py is not part of this model.
- The final transposition of the solution array (robots/abbirb140.py:151-153) is not modelled. The model returns a sequence of joint vectors, where numpy returns the same vectors as columns.
- NaN inside the singular wrist branch is not modelled. `np.real(np.arccos(Q[2,2]))` is `Primitives.arccos` of the same value.
- `inversekinematics` applies no joint-range filter: the joint ranges are part of the model (`AbbIrb140.DHTable`), but no solution is checked against them.
- In exact arithmetic the model yields at most 8 joint vectors (72 extended, `AbbIrb140.SolutionsCount`). In floating point the code can yield 12 (108 extended), from the three candidates at q1 = 0 described above.
- The singular-wrist test is 1 − |Q[2,2]| > 10⁻⁶ (robots/abbirb140.py:221-223), with no outer absolute value; the model tests exactly that.
- The default arguments `vmax = 1.0` and `delta_time = 0.05` of `n_movements` (artelib/path_planning.py:27) and `extended = False` of `inversekinematics` (robots/abbirb140.py:76) are not modelled as defaults: they are ordinary parameters the caller always supplies.
- AbbIrb140.InverseKinematics: its two loops are the helper methods `CollectPositionBranches` and `AssembleSolutions`; the source writes them inline in one function.
- PathPlanning.MoveTargetPositionsObstacles: the source's `while True` is bounded by a `fuel` number of sweeps, and `converged` reports whether the loop ended by itself. `RelaxCentreNeverConverges` shows that the source can loop forever.
- PathPlanning.NMovements: requires vmax > 0 and delta_time > 0. With a zero divisor numpy yields an infinite or NaN step count, and `int` then raises; that error path is not modelled. With a negative vmax or delta_time the source still returns an integer, the ceiling of a quotient with a negative divisor (non-positive when exactly one is negative). The requires excludes those inputs too, so the model states nothing about them.
- PathPlanning.GenerateTargetPositions: takes n as a natural number. The source's `int(n)` truncation of a float and linspace's rejection of a negative n are not modelled.

## Findings

| source | as written | input that shows it | evidently intended | confidence | as-written member | corrected member |
|---|---|---|---|---|---|---|
| robots/abbirb140.py:113-114 | `q1s, idx = np.unique(...)` then `q1s[idx]` indexes the SORTED unique values with first-occurrence indices into the UNSORTED input | rounded candidates [0, π, −π], the floating-point case q1 = 0, become [π, −π, 0]; on [x, x, y] the index 2 would be past the end | the distinct rounded candidates in the order they were tried, [0, π, −π] | not executed | Unique.ReindexedReordersThree | Unique.DedupOfDistinctThree |

The corrected de-duplication is `Unique.Dedup`, which `AbbIrb140.Q1Candidates` uses. On the
exact-arithmetic inputs the as-written re-indexing gives the same result
(`AbbIrb140.Q1CandidatesAsWritten`). The two only part in floating point.
