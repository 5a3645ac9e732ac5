/**
  The trapezoidal profile generator (motion/MotionProfileGenerator.c): from
  a previous state, a goal and the limits, a profile that brakes if needed,
  accelerates to a cruise velocity, cruises, and decelerates to the goal
  velocity, with the unavoidable-overshoot cases dispatched on the goal's
  completion behaviour. Problems with a negative displacement are solved in
  the mirrored axis.
 */
module Generator {
  import opened Utils
  import opened States
  import opened Segments
  import opened Goals
  import opened Profiles

  /** Limits the generator can divide by. */
  predicate WellFormedConstraints(c: Constraints)
  {
    c.maxAbsVel > 0.0 && c.maxAbsAcc > 0.0
  }

  /**
    Goal fields the generator relies on: a non-negative goal speed and
    tolerance, and a positive position tolerance (the acceleration needed to
    meet the goal is a quotient by a displacement at least that large).
   */
  predicate WellFormedGoal(g: Goal)
  {
    g.maxAbsVel >= 0.0 && g.posTolerance > 0.0 && g.velTolerance >= 0.0
  }

  /** The goal lies behind, or at the start while moving backwards. */
  predicate NeedsFlip(g: Goal, prev: MotionState)
  {
    var d := g.pos - prev.pos;
    d < 0.0 || (d == 0.0 && prev.vel < 0.0)
  }

  /** Mirroring a problem that needs flipping gives one that does not. */
  lemma FlippedProblemDoesNotFlip(g: Goal, prev: MotionState)
    requires NeedsFlip(g, prev)
    ensures !NeedsFlip(FlippedGoal(g), FlippedState(prev))
  {
  }

  /** `x` with its magnitude limited to `limit` and its sign kept. */
  function ClampMagnitude(x: real, limit: real): (r: real)
    requires limit >= 0.0
    ensures Abs(r) == Min(Abs(x), limit)
    ensures x >= 0.0 ==> r >= 0.0
    ensures x <= 0.0 ==> r <= 0.0
  {
    SignNum(x) * Min(Abs(x), limit)
  }

  lemma ClampMagnitudeOfNegation(x: real, limit: real)
    requires limit >= 0.0
    ensures ClampMagnitude(-x, limit) == -ClampMagnitude(x, limit)
  {
    if x != 0.0 {
      SignNumOfNegation(x);
    }
  }

  /** The clamp of a stored acceleration; an infinity clamps to the limit with its sign. */
  function ClampAccel(a: Accel, limit: real): (r: real)
    requires limit >= 0.0
    ensures Abs(r) <= limit
    ensures a.Finite? ==> Abs(r) == Min(Abs(a.value), limit)
    ensures a == PosInf ==> r == limit
    ensures a == NegInf ==> r == -limit
  {
    match a
    case Finite(x) => ClampMagnitude(x, limit)
    case PosInf => limit
    case NegInf => -limit
  }

  /** The previous state with its velocity and acceleration clamped to the limits. */
  function ClampStart(c: Constraints, prev: MotionState): (r: MotionState)
    requires WellFormedConstraints(c)
    ensures r.t == prev.t && r.pos == prev.pos
    ensures Abs(r.vel) == Min(Abs(prev.vel), c.maxAbsVel)
    ensures r.vel < 0.0 <==> prev.vel < 0.0
    ensures r.acc.Finite? && Abs(r.acc.value) <= c.maxAbsAcc
    ensures prev.acc.Finite? ==>
      Abs(r.acc.value) == Min(Abs(prev.acc.value), c.maxAbsAcc) && (r.acc.value < 0.0 <==> prev.acc.value < 0.0)
    ensures prev.acc == PosInf ==> r.acc.value == c.maxAbsAcc
    ensures prev.acc == NegInf ==> r.acc.value == -c.maxAbsAcc
  {
    MotionState(prev.t, prev.pos, ClampMagnitude(prev.vel, c.maxAbsVel), Finite(ClampAccel(prev.acc, c.maxAbsAcc)))
  }

  /** A state within the limits is its own clamp. */
  lemma ClampStartWithinLimits(c: Constraints, prev: MotionState)
    requires WellFormedConstraints(c) && Abs(prev.vel) <= c.maxAbsVel
    requires prev.acc.Finite? && Abs(prev.acc.value) <= c.maxAbsAcc
    ensures ClampStart(c, prev) == prev
  {
    assert ClampMagnitude(prev.acc.value, c.maxAbsAcc) == prev.acc.value;
  }

  /** Clamping commutes with mirroring. */
  lemma ClampStartFlipped(c: Constraints, prev: MotionState)
    requires WellFormedConstraints(c)
    ensures FlippedState(ClampStart(c, FlippedState(prev))) == ClampStart(c, prev)
  {
    ClampMagnitudeOfNegation(prev.vel, c.maxAbsVel);
    if prev.acc.Finite? {
      ClampMagnitudeOfNegation(prev.acc.value, c.maxAbsAcc);
    }
  }

  /** A state at rest has rank 0: the overshoot recursion always restarts from rest. */
  function Rank(s: MotionState): nat
  {
    if s.vel == 0.0 then 0 else 1
  }

  /** Time to bring `vel` to rest at deceleration `acc`. */
  function StoppingTime(vel: real, acc: real): (r: real)
    requires acc > 0.0
    ensures r >= 0.0 && r * acc == Abs(vel)
    ensures vel != 0.0 ==> r > 0.0
  {
    Abs(vel / acc)
  }

  /**
    When the velocity points away from a goal ahead, first brake to rest
    at the acceleration limit.
   */
  function Brake(c: Constraints, g: Goal, p: Profile): (r: Profile)
    requires WellFormedConstraints(c) && |p| > 0
    ensures var s := Last(p).end;
      if s.vel < 0.0 && g.pos - s.pos > 0.0 then
        && |r| == |p| + 1 && r[..|p|] == p && IsSegmentValid(Last(r))
        && Last(r).end.vel == 0.0 && Last(r).end.pos < s.pos
      else r == p
  {
    var s := Last(p).end;
    if s.vel < 0.0 && g.pos - s.pos > 0.0 then
      var dt := StoppingTime(s.vel, c.maxAbsAcc);
      var r := AppendControl(p, c.maxAbsAcc, dt);
      ControlSegmentValid(s, c.maxAbsAcc, dt);
      assert Last(r).end.pos - s.pos == s.vel / 2.0 * dt;
      assert s.vel / 2.0 * dt < 0.0 by {
        assert (-s.vel / 2.0) * dt > 0.0;
      }
      r
    else p
  }

  /** Square of the lowest speed at which the goal can be reached decelerating at the limit. */
  function MinAbsVelAtGoalSqr(c: Constraints, s: MotionState, d: real): real
  {
    s.vel * s.vel - 2.0 * c.maxAbsAcc * d
  }

  /** Even full deceleration arrives too fast: the goal is overshot. */
  predicate Overshoots(c: Constraints, g: Goal, s: MotionState, sqrt: real -> real)
  {
    var sqr := MinAbsVelAtGoalSqr(c, s, g.pos - s.pos);
    sqr > 0.0 && sqrt(Abs(sqr)) > g.maxAbsVel + g.velTolerance
  }

  /** A state at rest short of the goal never overshoots. */
  lemma OvershootNeedsMotion(c: Constraints, g: Goal, s: MotionState, sqrt: real -> real)
    requires WellFormedConstraints(c) && g.pos - s.pos >= 0.0
    requires Overshoots(c, g, s, sqrt)
    ensures s.vel != 0.0
  {
    NonNegativeProduct(c.maxAbsAcc, g.pos - s.pos);
  }

  /**
    The acceleration that brings the speed from `vel` to `goalVel` over
    the displacement `d`, used when the goal admits violating the limit.
   */
  function AccelToMeetGoal(vel: real, goalVel: real, d: real): real
    requires d != 0.0
  {
    Abs(goalVel * goalVel - vel * vel) / (2.0 * d)
  }

  /** In an unavoidable overshoot outside the position tolerance, the needed acceleration is positive. */
  lemma OvershootAccelPositive(c: Constraints, g: Goal, s: MotionState, sqrt: real -> real)
    requires WellFormedConstraints(c) && WellFormedGoal(g) && IsSqrt(sqrt)
    requires Overshoots(c, g, s, sqrt) && g.pos - s.pos >= g.posTolerance
    ensures AccelToMeetGoal(s.vel, g.maxAbsVel, g.pos - s.pos) > 0.0
  {
    var d := g.pos - s.pos;
    var sqr := MinAbsVelAtGoalSqr(c, s, d);
    var m := sqrt(Abs(sqr));
    SquareStrictlyMonotonic(g.maxAbsVel, m);
    assert c.maxAbsAcc * d > 0.0;
    assert s.vel * s.vel > g.maxAbsVel * g.maxAbsVel;
  }

  /** The highest speed reachable at the goal accelerating at the limit. */
  function MaxAbsVelAtGoal(c: Constraints, s: MotionState, d: real, sqrt: real -> real): (r: real)
    requires WellFormedConstraints(c) && IsSqrt(sqrt) && d >= 0.0
    ensures r >= 0.0 && r * r == s.vel * s.vel + 2.0 * c.maxAbsAcc * d
  {
    SquareNonNegative(s.vel);
    NonNegativeProduct(c.maxAbsAcc, d);
    sqrt(s.vel * s.vel + 2.0 * c.maxAbsAcc * d)
  }

  /** The goal speed, lowered to what accelerating at the limit can reach at the goal. */
  function GoalVelocity(c: Constraints, g: Goal, s: MotionState, goalVelLimit: real, sqrt: real -> real): (r: real)
    requires WellFormedConstraints(c) && IsSqrt(sqrt) && g.pos - s.pos >= 0.0 && goalVelLimit >= 0.0
    ensures 0.0 <= r <= goalVelLimit
    ensures r * r <= s.vel * s.vel + 2.0 * c.maxAbsAcc * (g.pos - s.pos)
  {
    var m := MaxAbsVelAtGoal(c, s, g.pos - s.pos, sqrt);
    SquareMonotonic(Min(goalVelLimit, m), m);
    Min(goalVelLimit, m)
  }

  /**
    The cruise velocity: where accelerating from `s` and decelerating into
    the goal at `maxAcc` meet, limited to the velocity limit.
   */
  function CruiseVelocity(c: Constraints, s: MotionState, goalVel: real, maxAcc: real, d: real, sqrt: real -> real): (r: real)
    requires WellFormedConstraints(c) && IsSqrt(sqrt) && maxAcc > 0.0 && d >= 0.0
    ensures 0.0 <= r <= c.maxAbsVel
    ensures r < c.maxAbsVel ==> r * r == (s.vel * s.vel + goalVel * goalVel) / 2.0 + d * maxAcc
    ensures r * r <= (s.vel * s.vel + goalVel * goalVel) / 2.0 + d * maxAcc
    ensures d > 0.0 ==> r > 0.0
  {
    var x := (s.vel * s.vel + goalVel * goalVel) / 2.0 + d * maxAcc;
    SquareNonNegative(s.vel);
    SquareNonNegative(goalVel);
    NonNegativeProduct(d, maxAcc);
    assert d > 0.0 ==> x > 0.0 by {
      if d > 0.0 {
        assert d * maxAcc > 0.0;
      }
    }
    assert sqrt(x) * sqrt(x) == x;
    SquareMonotonic(Min(c.maxAbsVel, sqrt(x)), sqrt(x));
    Min(c.maxAbsVel, sqrt(x))
  }

  /** Distance covered while the speed changes from `v0` to `v1` at acceleration magnitude `acc`. */
  function SpeedChangeDistance(v0: real, v1: real, acc: real): real
    requires acc != 0.0
  {
    (v1 * v1 - v0 * v0) / (2.0 * acc)
  }

  /** The mean-velocity law over the time the speed change takes: v1² = v0² + 2·acc·distance. */
  lemma SpeedChangeDistanceIsTravel(v0: real, v1: real, acc: real, dt: real)
    requires acc != 0.0 && dt == (v1 - v0) / acc
    ensures (v0 + v1) / 2.0 * dt == SpeedChangeDistance(v0, v1, acc)
    ensures (v1 + v0) / 2.0 * dt == SpeedChangeDistance(v0, v1, acc)
  {
    assert dt * acc == v1 - v0;
    assert (v0 + v1) / 2.0 * dt * (2.0 * acc) == (v0 + v1) * (v1 - v0);
  }

  /** Accelerate at `maxAcc` up to `vMax` when below it. */
  function AccelerateTo(p: Profile, vMax: real, maxAcc: real): (r: Profile)
    requires |p| > 0 && maxAcc > 0.0 && Last(p).end.vel >= 0.0
    ensures |r| >= |p| && r[..|p|] == p
    ensures vMax > Last(p).end.vel ==>
      && |r| == |p| + 1 && IsSegmentValid(Last(r)) && Last(r).end.vel == vMax
      && Last(r).end.pos == Last(p).end.pos + SpeedChangeDistance(Last(p).end.vel, vMax, maxAcc)
    ensures vMax <= Last(p).end.vel ==> r == p
  {
    var s := Last(p).end;
    if vMax > s.vel then
      var dt := (vMax - s.vel) / maxAcc;
      NonNegativeProduct(s.vel, vMax);
      ControlSegmentValid(s, maxAcc, dt);
      SpeedChangeDistanceIsTravel(s.vel, vMax, maxAcc, dt);
      AppendControl(p, maxAcc, dt)
    else p
  }

  /** Cruise over `distance` at the current (positive) velocity. */
  function Cruise(p: Profile, distance: real): (r: Profile)
    requires |p| > 0 && Last(p).end.vel >= 0.0
    requires distance > 0.0 ==> Last(p).end.vel > 0.0
    ensures |r| >= |p| && r[..|p|] == p
    ensures distance > 0.0 ==>
      && |r| == |p| + 1 && IsSegmentValid(Last(r))
      && Last(r).end.vel == Last(p).end.vel && Last(r).end.pos == Last(p).end.pos + distance
    ensures distance <= 0.0 ==> r == p
  {
    var s := Last(p).end;
    if distance > 0.0 then
      var dt := distance / s.vel;
      SquareNonNegative(s.vel);
      ControlSegmentValid(s, 0.0, dt);
      assert (s.vel + s.vel) / 2.0 * dt == distance;
      AppendControl(p, 0.0, dt)
    else p
  }

  /** Decelerate at `maxAcc` to `goalVel` when a deceleration distance remains. */
  function Decelerate(p: Profile, goalVel: real, maxAcc: real, distance: real): (r: Profile)
    requires |p| > 0 && maxAcc > 0.0 && Last(p).end.vel >= 0.0 && goalVel >= 0.0
    ensures |r| >= |p| && r[..|p|] == p
    ensures distance > 0.0 ==>
      && |r| == |p| + 1 && IsSegmentValid(Last(r)) && Last(r).end.vel == goalVel
      && Last(r).end.pos == Last(p).end.pos + SpeedChangeDistance(goalVel, Last(p).end.vel, maxAcc)
    ensures distance <= 0.0 ==> r == p
  {
    var s := Last(p).end;
    if distance > 0.0 then
      var dt := (s.vel - goalVel) / maxAcc;
      NonNegativeProduct(s.vel, goalVel);
      ControlSegmentValid(s, -maxAcc, dt);
      SpeedChangeDistanceIsTravel(goalVel, s.vel, maxAcc, dt);
      AppendControl(p, -maxAcc, dt)
    else p
  }

  /**
    Accelerate, cruise and decelerate from the tail of `p` (at or below the
    goal, not moving backwards) to the goal, whose speed is limited to
    `goalVelLimit`, accelerating at `maxAcc`.
   */
  function PlanForward(c: Constraints, g: Goal, p: Profile, goalVelLimit: real, maxAcc: real, sqrt: real -> real): (r: Profile)
    requires WellFormedConstraints(c) && IsSqrt(sqrt) && |p| > 0
    requires Last(p).end.vel >= 0.0 && g.pos - Last(p).end.pos >= 0.0
    requires maxAcc > 0.0 && goalVelLimit >= 0.0
    ensures |p| <= |r| <= |p| + 3 && r[..|p|] == p
    ensures forall i :: |p| <= i < |r| ==> IsSegmentValid(r[i])
  {
    var s := Last(p).end;
    var d := g.pos - s.pos;
    var goalVel := GoalVelocity(c, g, s, goalVelLimit, sqrt);
    Trapezoid(c, g, p, goalVel, CruiseVelocity(c, s, goalVel, maxAcc, d, sqrt), maxAcc)
  }

  /**
    The trapezoid through the cruise velocity `vMax` to the goal speed
    `goalVel`: accelerate at `maxAcc` up to `vMax`, cruise, and decelerate.
    The deceleration distance is computed with the constraint's acceleration
    limit, as in the C code.
   */
  function Trapezoid(c: Constraints, g: Goal, p: Profile, goalVel: real, vMax: real, maxAcc: real): (r: Profile)
    requires WellFormedConstraints(c) && |p| > 0 && maxAcc > 0.0 && goalVel >= 0.0
    requires Last(p).end.vel >= 0.0 && (g.pos - Last(p).end.pos > 0.0 ==> vMax > 0.0)
    ensures |p| <= |r| <= |p| + 3 && r[..|p|] == p
    ensures forall i :: |p| <= i < |r| ==> IsSegmentValid(r[i])
  {
    var p1 := AccelerateTo(p, vMax, maxAcc);
    var r := CruiseAndDecelerate(c, g, p1, goalVel, maxAcc);
    assert r[..|p|] == p by {
      assert r[..|p1|][..|p|] == r[..|p|];
    }
    r
  }

  /**
    From the end of the acceleration phase: cruise until the deceleration
    distance (computed at the constraint's acceleration limit) remains, then
    decelerate at `maxAcc` to `goalVel`.
   */
  function CruiseAndDecelerate(c: Constraints, g: Goal, p: Profile, goalVel: real, maxAcc: real): (r: Profile)
    requires WellFormedConstraints(c) && |p| > 0 && maxAcc > 0.0 && goalVel >= 0.0
    requires Last(p).end.vel >= 0.0 && (g.pos - Last(p).end.pos > 0.0 ==> Last(p).end.vel > 0.0)
    ensures |p| <= |r| <= |p| + 2 && r[..|p|] == p
    ensures forall i :: |p| <= i < |r| ==> IsSegmentValid(r[i])
  {
    var s := Last(p).end;
    var distanceDecel := Max(0.0, SpeedChangeDistance(goalVel, s.vel, c.maxAbsAcc));
    var distanceCruise := Max(0.0, g.pos - s.pos - distanceDecel);
    var p1 := Cruise(p, distanceCruise);
    var r := Decelerate(p1, goalVel, maxAcc, distanceDecel);
    assert r[..|p|] == p by {
      assert r[..|p1|][..|p|] == r[..|p|];
    }
    r
  }

  /** The two phases of `CruiseAndDecelerate` with their distances named. */
  lemma CruiseAndDecelerateSteps(c: Constraints, g: Goal, p: Profile, goalVel: real, maxAcc: real,
                                 distanceCruise: real, distanceDecel: real)
    requires WellFormedConstraints(c) && |p| > 0 && maxAcc > 0.0 && goalVel >= 0.0
    requires Last(p).end.vel >= 0.0 && (g.pos - Last(p).end.pos > 0.0 ==> Last(p).end.vel > 0.0)
    requires distanceDecel == Max(0.0, SpeedChangeDistance(goalVel, Last(p).end.vel, c.maxAbsAcc))
    requires distanceCruise == Max(0.0, g.pos - Last(p).end.pos - distanceDecel)
    ensures CruiseAndDecelerate(c, g, p, goalVel, maxAcc) == Decelerate(Cruise(p, distanceCruise), goalVel, maxAcc, distanceDecel)
  {
  }

  /**
    The trapezoid's distances fit the displacement: with the cruise velocity
    at or below the intersection of the acceleration and deceleration
    parabolas, accelerating to it and decelerating from it to the goal
    speed covers no more than `d`.
   */
  lemma TrapezoidFits(v: real, vMax: real, goalVel: real, acc: real, d: real)
    requires acc > 0.0 && 0.0 <= v <= vMax && 0.0 <= goalVel
    requires vMax * vMax <= (v * v + goalVel * goalVel) / 2.0 + d * acc
    requires goalVel * goalVel <= v * v + 2.0 * acc * d
    ensures SpeedChangeDistance(v, vMax, acc) <= d
    ensures goalVel <= vMax ==> SpeedChangeDistance(v, vMax, acc) + SpeedChangeDistance(goalVel, vMax, acc) <= d
  {
    assert vMax * vMax - v * v <= 2.0 * acc * d;
    assert (vMax * vMax - v * v) / (2.0 * acc) <= d;
    assert 2.0 * vMax * vMax - v * v - goalVel * goalVel <= 2.0 * acc * d;
    assert SpeedChangeDistance(v, vMax, acc) + SpeedChangeDistance(goalVel, vMax, acc)
      == (2.0 * vMax * vMax - v * v - goalVel * goalVel) / (2.0 * acc);
  }

  /**
    Cruising and decelerating at the constraint's acceleration limit end
    exactly at the goal position when the deceleration distance fits, at
    the goal speed when it is not above the current speed.
   */
  lemma CruiseAndDecelerateArrives(c: Constraints, g: Goal, p: Profile, goalVel: real)
    requires WellFormedConstraints(c) && |p| > 0 && goalVel >= 0.0
    requires Last(p).end.vel >= 0.0 && (g.pos - Last(p).end.pos > 0.0 ==> Last(p).end.vel > 0.0)
    requires g.pos - Last(p).end.pos >= 0.0
    requires goalVel <= Last(p).end.vel ==> SpeedChangeDistance(goalVel, Last(p).end.vel, c.maxAbsAcc) <= g.pos - Last(p).end.pos
    ensures var r := CruiseAndDecelerate(c, g, p, goalVel, c.maxAbsAcc);
      Last(r).end.pos == g.pos && Last(r).end.vel == Min(goalVel, Last(p).end.vel)
  {
    var a := c.maxAbsAcc;
    var s := Last(p).end;
    var distanceDecel := Max(0.0, SpeedChangeDistance(goalVel, s.vel, a));
    if goalVel < s.vel {
      SquareStrictlyMonotonic(goalVel, s.vel);
      assert SpeedChangeDistance(goalVel, s.vel, a) > 0.0;
    } else if goalVel > s.vel {
      SquareStrictlyMonotonic(s.vel, goalVel);
      assert SpeedChangeDistance(goalVel, s.vel, a) < 0.0;
    }
  }

  /**
    Planning at the constraint's acceleration limit from a velocity at or
    below the cruise velocity arrives exactly at the goal position, at the
    goal speed or, when that is above the cruise velocity, at the cruise
    velocity.
   */
  lemma PlanForwardArrives(c: Constraints, g: Goal, p: Profile, goalVelLimit: real, sqrt: real -> real)
    requires WellFormedConstraints(c) && IsSqrt(sqrt) && |p| > 0
    requires Last(p).end.vel >= 0.0 && g.pos - Last(p).end.pos >= 0.0 && goalVelLimit >= 0.0
    requires var s := Last(p).end;
      CruiseVelocity(c, s, GoalVelocity(c, g, s, goalVelLimit, sqrt), c.maxAbsAcc, g.pos - s.pos, sqrt) >= s.vel
    ensures var s := Last(p).end;
      var goalVel := GoalVelocity(c, g, s, goalVelLimit, sqrt);
      var vMax := CruiseVelocity(c, s, goalVel, c.maxAbsAcc, g.pos - s.pos, sqrt);
      var r := PlanForward(c, g, p, goalVelLimit, c.maxAbsAcc, sqrt);
      Last(r).end.pos == g.pos && Last(r).end.vel == Min(goalVel, vMax)
  {
    var a := c.maxAbsAcc;
    var s := Last(p).end;
    var d := g.pos - s.pos;
    var goalVel := GoalVelocity(c, g, s, goalVelLimit, sqrt);
    var vMax := CruiseVelocity(c, s, goalVel, a, d, sqrt);
    TrapezoidFits(s.vel, vMax, goalVel, a, d);
    var p1 := AccelerateTo(p, vMax, a);
    var s1 := Last(p1).end;
    assert s1.vel == vMax && s1.pos == s.pos + SpeedChangeDistance(s.vel, vMax, a);
    CruiseAndDecelerateArrives(c, g, p1, goalVel);
  }

  /**
    The degenerate segment at the clamped start state, followed by the
    braking segment when the velocity points away from a goal ahead.
   */
  function StartProfile(c: Constraints, g: Goal, prev: MotionState): (r: Profile)
    requires WellFormedConstraints(c)
    ensures |r| >= 1 && r[0] == MotionSegment(ClampStart(c, prev), ClampStart(c, prev))
    ensures forall i :: 0 <= i < |r| ==> IsSegmentValid(r[i])
    ensures !NeedsFlip(g, prev) ==> Last(r).end.vel >= 0.0 && g.pos - Last(r).end.pos >= 0.0
    ensures Last(r).end.vel != 0.0 ==> prev.vel != 0.0
  {
    var start := ClampStart(c, prev);
    DegenerateSegmentValid(start);
    Brake(c, g, ResetProfile(start))
  }

  /**
    A start within the limits that does not move away from the goal ahead
    is the profile holding just that state.
   */
  lemma StartWithoutBraking(c: Constraints, g: Goal, prev: MotionState)
    requires WellFormedConstraints(c) && ClampStart(c, prev) == prev
    requires !(prev.vel < 0.0 && g.pos - prev.pos > 0.0)
    ensures StartProfile(c, g, prev) == ResetProfile(prev)
  {
  }

  /** The C code's last branch of the overshoot dispatch: stop, then come back. */
  predicate StopsAndReturns(c: Constraints, g: Goal, s: MotionState, sqrt: real -> real)
  {
    Overshoots(c, g, s, sqrt) && (g.completionBehavior == Overshoot || g.completionBehavior == Invalid)
  }

  /**
    Every outcome of the overshoot dispatch except stopping and coming back:
    the plan towards the goal with the goal speed raised, with the
    acceleration raised, or the instantaneous jump at the goal; and the plan
    within the limits when there is no overshoot.
   */
  function Dispatch(c: Constraints, g: Goal, p: Profile, sqrt: real -> real): (r: Profile)
    requires WellFormedConstraints(c) && WellFormedGoal(g) && IsSqrt(sqrt) && |p| > 0
    requires Last(p).end.vel >= 0.0 && g.pos - Last(p).end.pos >= 0.0
    requires !StopsAndReturns(c, g, Last(p).end, sqrt)
    ensures |r| >= |p| && r[..|p|] == p
    ensures forall i :: |p| <= i < |r| ==> IsSegmentValid(r[i])
  {
    var s := Last(p).end;
    var d := g.pos - s.pos;
    if !Overshoots(c, g, s, sqrt) then PlanForward(c, g, p, g.maxAbsVel, c.maxAbsAcc, sqrt)
    else if g.completionBehavior == ViolateMaxAbsVel then
      var minAbsVelAtGoal := sqrt(Abs(MinAbsVelAtGoalSqr(c, s, d)));
      PlanForward(c, g, p, minAbsVelAtGoal, c.maxAbsAcc, sqrt)
    else if Abs(d) < g.posTolerance then
      JumpSegmentValid(s, g.maxAbsVel);
      AppendSegment(p, MotionSegment(s.(acc := NegInf), s.(vel := g.maxAbsVel, acc := NegInf)))
    else
      OvershootAccelPositive(c, g, s, sqrt);
      PlanForward(c, g, p, g.maxAbsVel, AccelToMeetGoal(s.vel, g.maxAbsVel, d), sqrt)
  }

  /**
    The profile from `prev` to `g` within `c`. It always starts with the
    degenerate segment at the clamped start state, and every segment in it
    is valid.
   */
  function GenerateProfile(c: Constraints, g: Goal, prev: MotionState, sqrt: real -> real): (r: Profile)
    requires WellFormedConstraints(c) && WellFormedGoal(g) && IsSqrt(sqrt)
    ensures |r| >= 1 && r[0] == MotionSegment(ClampStart(c, prev), ClampStart(c, prev))
    ensures forall i :: 0 <= i < |r| ==> IsSegmentValid(r[i])
    decreases Rank(prev), if NeedsFlip(g, prev) then 4 else 2
  {
    if NeedsFlip(g, prev) then
      FlippedProblemDoesNotFlip(g, prev);
      GenerateFlippedProfile(c, g, prev, sqrt)
    else
      var p := StartProfile(c, g, prev);
      var s := Last(p).end;
      if StopsAndReturns(c, g, s, sqrt) then
        OvershootNeedsMotion(c, g, s, sqrt);
        StopAndReturn(c, g, p, sqrt)
      else
        Generated(p, Dispatch(c, g, p, sqrt))
  }

  /**
    From a state within the limits, not moving backwards and with the goal
    ahead, nothing is clamped, braked or mirrored: unless the goal forces
    stopping and coming back, the profile is the dispatched plan from that
    state, consolidated.
   */
  lemma GenerateForward(c: Constraints, g: Goal, prev: MotionState, sqrt: real -> real)
    requires WellFormedConstraints(c) && WellFormedGoal(g) && IsSqrt(sqrt)
    requires 0.0 <= prev.vel <= c.maxAbsVel && prev.acc.Finite? && Abs(prev.acc.value) <= c.maxAbsAcc
    requires g.pos - prev.pos >= 0.0 && !StopsAndReturns(c, g, prev, sqrt)
    ensures GenerateProfile(c, g, prev, sqrt) == Consolidate(Dispatch(c, g, ResetProfile(prev), sqrt))
  {
    ClampStartWithinLimits(c, prev);
    StartWithoutBraking(c, g, prev);
  }

  /** Decelerate at the acceleration limit to rest from a forward velocity. */
  function Stop(c: Constraints, p: Profile): (r: Profile)
    requires WellFormedConstraints(c) && |p| > 0 && Last(p).end.vel >= 0.0
    requires forall i :: 0 <= i < |p| ==> IsSegmentValid(p[i])
    ensures |r| == |p| + 1 && r[..|p|] == p && r[0] == p[0]
    ensures forall i :: 0 <= i < |r| ==> IsSegmentValid(r[i])
    ensures Last(r).end.vel == 0.0 && Last(r).end.pos >= Last(p).end.pos
  {
    var s := Last(p).end;
    var dt := StoppingTime(s.vel, c.maxAbsAcc);
    ControlSegmentValid(s, -c.maxAbsAcc, dt);
    var r := AppendControl(p, -c.maxAbsAcc, dt);
    assert forall i :: 0 <= i < |p| ==> r[i] == p[i];
    NonNegativeProduct(s.vel / 2.0, dt);
    r
  }

  /**
    The unavoidable overshoot the goal lets happen: stop at the
    acceleration limit beyond the goal, then append the profile that comes
    back from there, generated in the mirrored axis.
   */
  function StopAndReturn(c: Constraints, g: Goal, p: Profile, sqrt: real -> real): (r: Profile)
    requires WellFormedConstraints(c) && WellFormedGoal(g) && IsSqrt(sqrt) && |p| > 0
    requires forall i :: 0 <= i < |p| ==> IsSegmentValid(p[i])
    requires Last(p).end.vel >= 0.0 && g.pos - Last(p).end.pos >= 0.0
    requires StopsAndReturns(c, g, Last(p).end, sqrt)
    ensures |r| >= 1 && r[0] == p[0]
    ensures forall i :: 0 <= i < |r| ==> IsSegmentValid(r[i])
    decreases Rank(Last(p).end), 1
  {
    OvershootNeedsMotion(c, g, Last(p).end, sqrt);
    var stopped := Stop(c, p);
    var back := GenerateFlippedProfile(c, g, Last(stopped).end, sqrt);
    AppendProfileKeepsSegments(stopped, back);
    Generated(stopped, AppendProfile(stopped, back))
  }

  /**
    The final consolidation of a profile extending the valid profile `p`
    with valid segments.
   */
  function Generated(p: Profile, q: Profile): (r: Profile)
    requires 0 < |p| <= |q| && q[..|p|] == p
    requires forall i :: 0 <= i < |p| ==> IsSegmentValid(p[i])
    requires forall i :: |p| <= i < |q| ==> IsSegmentValid(q[i])
    ensures |r| >= 1 && r[0] == p[0]
    ensures forall i :: 0 <= i < |r| ==> IsSegmentValid(r[i])
  {
    assert forall i :: 0 <= i < |p| ==> q[i] == p[i];
    ConsolidateKeepsValidity(q);
    Consolidate(q)
  }

  /** The profile for the mirrored problem, mirrored back. */
  function GenerateFlippedProfile(c: Constraints, g: Goal, prev: MotionState, sqrt: real -> real): (r: Profile)
    requires WellFormedConstraints(c) && WellFormedGoal(g) && IsSqrt(sqrt)
    ensures |r| >= 1 && r[0] == MotionSegment(ClampStart(c, prev), ClampStart(c, prev))
    ensures forall i :: 0 <= i < |r| ==> IsSegmentValid(r[i])
    decreases Rank(prev), if NeedsFlip(FlippedGoal(g), FlippedState(prev)) then 5 else 3
  {
    var mirrored := GenerateProfile(c, FlippedGoal(g), FlippedState(prev), sqrt);
    ClampStartFlipped(c, prev);
    FlipProfileValid(mirrored);
    FlipProfile(mirrored)
  }

  /**
    A problem that needs flipping is solved in the mirrored axis: the
    mirrored problem runs forward, and the profile is, segment by segment,
    the mirror image of the profile generated for it.
   */
  lemma GenerateFlipped(c: Constraints, g: Goal, prev: MotionState, sqrt: real -> real)
    requires WellFormedConstraints(c) && WellFormedGoal(g) && IsSqrt(sqrt) && NeedsFlip(g, prev)
    ensures !NeedsFlip(FlippedGoal(g), FlippedState(prev))
    ensures var r := GenerateProfile(c, g, prev, sqrt);
      var m := GenerateProfile(c, FlippedGoal(g), FlippedState(prev), sqrt);
      && r == FlipProfile(m)
      && |r| == |m| && forall i :: 0 <= i < |r| ==> r[i].start == FlippedState(m[i].start) && r[i].end == FlippedState(m[i].end)
  {
    FlippedProblemDoesNotFlip(g, prev);
  }

  /**
    When even full deceleration reaches the goal too fast and the goal lets
    the velocity limit be violated, the goal speed is raised to the lowest
    speed reachable at the goal: the plan arrives exactly at the goal
    position, at that speed.
   */
  lemma ViolateMaxAbsVelArrives(c: Constraints, g: Goal, p: Profile, sqrt: real -> real)
    requires WellFormedConstraints(c) && WellFormedGoal(g) && IsSqrt(sqrt) && |p| > 0
    requires 0.0 <= Last(p).end.vel <= c.maxAbsVel && g.pos - Last(p).end.pos >= 0.0
    requires Overshoots(c, g, Last(p).end, sqrt) && g.completionBehavior == ViolateMaxAbsVel
    ensures var s := Last(p).end; var r := Dispatch(c, g, p, sqrt);
      Last(r).end.pos == g.pos && Last(r).end.vel == sqrt(Abs(MinAbsVelAtGoalSqr(c, s, g.pos - s.pos)))
  {
    var s := Last(p).end;
    var d := g.pos - s.pos;
    var a := c.maxAbsAcc;
    var m := sqrt(Abs(MinAbsVelAtGoalSqr(c, s, d)));
    var top := MaxAbsVelAtGoal(c, s, d, sqrt);
    LowestSpeedBounds(s.vel, m, top, a, d);
    assert GoalVelocity(c, g, s, m, sqrt) == m;
    CruiseAtCurrentSpeed(c, s, m, a, d, sqrt);
    PlanForwardArrives(c, g, p, m, sqrt);
  }

  /**
    At the goal (within its position tolerance) but too fast, a goal that
    lets the acceleration limit be violated gets one instantaneous segment
    of infinite deceleration from the current speed to the goal speed.
   */
  lemma ViolateMaxAccelJumps(c: Constraints, g: Goal, p: Profile, sqrt: real -> real)
    requires WellFormedConstraints(c) && WellFormedGoal(g) && IsSqrt(sqrt) && |p| > 0
    requires Last(p).end.vel >= 0.0 && 0.0 <= g.pos - Last(p).end.pos < g.posTolerance
    requires Overshoots(c, g, Last(p).end, sqrt) && g.completionBehavior == ViolateMaxAccel
    ensures var s := Last(p).end; var r := Dispatch(c, g, p, sqrt); var jump := Last(r);
      && |r| == |p| + 1 && r[..|p|] == p
      && jump.start.t == s.t && jump.end.t == s.t
      && jump.start.pos == s.pos && jump.end.pos == s.pos
      && jump.start.vel == s.vel && jump.end.vel == g.maxAbsVel
      && jump.start.acc == NegInf && jump.end.acc == NegInf
      && jump.start.vel - jump.end.vel > g.velTolerance
  {
    var s := Last(p).end;
    var d := g.pos - s.pos;
    var m := sqrt(Abs(MinAbsVelAtGoalSqr(c, s, d)));
    NonNegativeProduct(c.maxAbsAcc, d);
    assert m <= s.vel by {
      if s.vel < m {
        SquareStrictlyMonotonic(s.vel, m);
      }
    }
  }

  /**
    The same case seen from the generator: when the jump changes the speed
    by more than kEpsilon (so consolidation keeps it), the generated profile
    ends with it.
   */
  lemma ViolateMaxAccelEndsWithJump(c: Constraints, g: Goal, prev: MotionState, sqrt: real -> real)
    requires WellFormedConstraints(c) && WellFormedGoal(g) && IsSqrt(sqrt) && !NeedsFlip(g, prev)
    requires var s := Last(StartProfile(c, g, prev)).end;
      && Overshoots(c, g, s, sqrt) && g.completionBehavior == ViolateMaxAccel
      && g.pos - s.pos < g.posTolerance && g.velTolerance >= kEpsilon
    ensures var s := Last(StartProfile(c, g, prev)).end;
      Last(GenerateProfile(c, g, prev, sqrt)) == MotionSegment(s.(acc := NegInf), s.(vel := g.maxAbsVel, acc := NegInf))
  {
    var p := StartProfile(c, g, prev);
    var r := Dispatch(c, g, p, sqrt);
    ViolateMaxAccelJumps(c, g, p, sqrt);
    assert r == p + [Last(r)];
    assert !IsDegenerate(Last(r));
    ConsolidateSnoc(p, Last(r));
  }

  /**
    In an unavoidable overshoot that the goal does not let violate a limit,
    the profile first stops at the acceleration limit, which leaves it at
    rest beyond the goal, and then continues with the profile generated from
    that stopped state back to the goal.
   */
  lemma OvershootStopsThenReturns(c: Constraints, g: Goal, p: Profile, sqrt: real -> real)
    requires WellFormedConstraints(c) && WellFormedGoal(g) && IsSqrt(sqrt) && |p| > 0
    requires forall i :: 0 <= i < |p| ==> IsSegmentValid(p[i])
    requires Last(p).end.vel >= 0.0 && g.pos - Last(p).end.pos >= 0.0
    requires StopsAndReturns(c, g, Last(p).end, sqrt)
    ensures var s := Last(p).end; var stopped := Stop(c, p); var stop := Last(stopped);
      && |stopped| == |p| + 1 && stopped[..|p|] == p
      && stop.start.t == s.t && stop.start.pos == s.pos && stop.start.vel == s.vel
      && stop.start.acc == Finite(-c.maxAbsAcc) && stop.end.vel == 0.0 && stop.end.pos > g.pos
      && StopAndReturn(c, g, p, sqrt) == Consolidate(stopped + GenerateProfile(c, g, stop.end, sqrt))
  {
    StopPassesGoal(c, g, p, sqrt);
    StopAndReturnJoins(c, g, p, sqrt);
  }

  /** The stop of an unavoidable overshoot brakes at the limit to rest beyond the goal. */
  lemma StopPassesGoal(c: Constraints, g: Goal, p: Profile, sqrt: real -> real)
    requires WellFormedConstraints(c) && WellFormedGoal(g) && IsSqrt(sqrt) && |p| > 0
    requires forall i :: 0 <= i < |p| ==> IsSegmentValid(p[i])
    requires Last(p).end.vel >= 0.0 && g.pos - Last(p).end.pos >= 0.0
    requires StopsAndReturns(c, g, Last(p).end, sqrt)
    ensures var s := Last(p).end; var stop := Last(Stop(c, p));
      && stop.start.t == s.t && stop.start.pos == s.pos && stop.start.vel == s.vel
      && stop.start.acc == Finite(-c.maxAbsAcc) && stop.end.vel == 0.0 && stop.end.pos > g.pos
  {
    var s := Last(p).end;
    var a := c.maxAbsAcc;
    OvershootNeedsMotion(c, g, s, sqrt);
    var stop := Last(Stop(c, p));
    var dt := StoppingTime(s.vel, a);
    assert stop.end.pos - s.pos == s.vel / 2.0 * dt;
    StopBeyondGoal(s.vel, dt, a, g.pos - s.pos);
  }

  /** Stopping and coming back is the consolidation of the stop followed by the profile from rest. */
  lemma StopAndReturnJoins(c: Constraints, g: Goal, p: Profile, sqrt: real -> real)
    requires WellFormedConstraints(c) && WellFormedGoal(g) && IsSqrt(sqrt) && |p| > 0
    requires forall i :: 0 <= i < |p| ==> IsSegmentValid(p[i])
    requires Last(p).end.vel >= 0.0 && g.pos - Last(p).end.pos >= 0.0
    requires StopsAndReturns(c, g, Last(p).end, sqrt)
    requires Last(Stop(c, p)).end.pos > g.pos
    ensures var stopped := Stop(c, p);
      StopAndReturn(c, g, p, sqrt) == Consolidate(stopped + GenerateProfile(c, g, Last(stopped).end, sqrt))
  {
    OvershootNeedsMotion(c, g, Last(p).end, sqrt);
    var stopped := Stop(c, p);
    var back := GenerateFlippedProfile(c, g, Last(stopped).end, sqrt);
    assert AppendProfile(stopped, back) == stopped + back;
  }

  /**
    The lowest speed `m` at the goal lies between 0 and both the current
    speed `v` and the highest speed `top`, and the parabolas through `v`
    and `m` meet at `v`.
   */
  lemma LowestSpeedBounds(v: real, m: real, top: real, a: real, d: real)
    requires a > 0.0 && d >= 0.0 && v >= 0.0 && m >= 0.0 && top >= 0.0
    requires m * m == v * v - 2.0 * a * d && top * top == v * v + 2.0 * a * d
    ensures m <= top && m <= v
    ensures (v * v + m * m) / 2.0 + d * a == v * v
  {
    NonNegativeProduct(a, d);
    if top < m {
      SquareStrictlyMonotonic(top, m);
    }
    if v < m {
      SquareStrictlyMonotonic(v, m);
    }
  }

  /** When the parabolas meet at the current speed, the cruise velocity is the current speed. */
  lemma CruiseAtCurrentSpeed(c: Constraints, s: MotionState, goalVel: real, maxAcc: real, d: real, sqrt: real -> real)
    requires WellFormedConstraints(c) && IsSqrt(sqrt) && maxAcc > 0.0 && d >= 0.0
    requires 0.0 <= s.vel <= c.maxAbsVel
    requires (s.vel * s.vel + goalVel * goalVel) / 2.0 + d * maxAcc == s.vel * s.vel
    ensures CruiseVelocity(c, s, goalVel, maxAcc, d, sqrt) == s.vel
  {
    var r := CruiseVelocity(c, s, goalVel, maxAcc, d, sqrt);
    if r < s.vel {
      SquareStrictlyMonotonic(r, s.vel);
    } else if s.vel < r {
      SquareStrictlyMonotonic(s.vel, r);
    }
  }

  /** Braking from `v` at `a` for `dt = v / a` covers `v²/(2a)`, which exceeds `d` when `v² > 2ad`. */
  lemma StopBeyondGoal(v: real, dt: real, a: real, d: real)
    requires a > 0.0 && dt * a == v && v * v - 2.0 * a * d > 0.0
    ensures v / 2.0 * dt > d
  {
    assert (v / 2.0 * dt - d) * (2.0 * a) == v * (dt * a) - 2.0 * a * d;
    if v / 2.0 * dt - d <= 0.0 {
      NonPositiveProduct(v / 2.0 * dt - d, 2.0 * a);
    }
  }

  /** The problem of the setpoint tests: from rest at 0 to 6.3 within 5.0 and 10.0. */
  predicate IsExampleProblem(c: Constraints, g: Goal, prev: MotionState)
  {
    c == Constraints(5.0, 10.0) && g == Goal(6.3, 0.0, Overshoot, 0.05, 0.1)
    && prev == MotionState(0.0, 0.0, 0.0, Finite(0.0))
  }

  /**
    The velocities of the example: the goal speed 0 is reachable, and the
    parabolas meet at sqrt(63), above the velocity limit 5.
   */
  lemma ExampleVelocities(c: Constraints, g: Goal, prev: MotionState, sqrt: real -> real)
    requires IsExampleProblem(c, g, prev) && IsSqrt(sqrt)
    ensures PlanForward(c, g, ExamplePrefix(1), g.maxAbsVel, c.maxAbsAcc, sqrt)
        == Trapezoid(c, g, ExamplePrefix(1), 0.0, 5.0, 10.0)
  {
    SqrtUnique(sqrt, 25.0, 5.0);
    SqrtMonotonic(sqrt, 25.0, 63.0);
    assert GoalVelocity(c, g, prev, g.maxAbsVel, sqrt) == 0.0;
    assert CruiseVelocity(c, prev, 0.0, c.maxAbsAcc, g.pos - prev.pos, sqrt) == 5.0;
  }

  /** The first `n` segments of the example trapezoid. */
  function ExamplePrefix(n: nat): Profile
    requires n <= 4
  {
    ExampleTrapezoid()[..n]
  }

  lemma ExampleAccelerate()
    ensures AccelerateTo(ExamplePrefix(1), 5.0, 10.0) == ExamplePrefix(2)
  {
    var s := MotionState(0.0, 0.0, 0.0, Finite(10.0));
    assert Extrapolate(s, 0.5, 10.0) == MotionState(0.5, 1.25, 5.0, Finite(10.0));
    assert ExamplePrefix(2) == ExamplePrefix(1) + [ExampleTrapezoid()[1]];
  }

  lemma ExampleCruise()
    ensures Cruise(ExamplePrefix(2), 3.8) == ExamplePrefix(3)
  {
    var s := MotionState(0.5, 1.25, 5.0, Finite(0.0));
    assert Extrapolate(s, 1.26, 0.0) == MotionState(1.26, 5.05, 5.0, Finite(0.0));
    assert ExamplePrefix(3) == ExamplePrefix(2) + [ExampleTrapezoid()[2]];
  }

  lemma ExampleDecelerate()
    ensures Decelerate(ExamplePrefix(3), 0.0, 10.0, 1.25) == ExamplePrefix(4)
  {
    var s := MotionState(1.26, 5.05, 5.0, Finite(-10.0));
    assert Extrapolate(s, 1.76, -10.0) == MotionState(1.76, 6.3, 0.0, Finite(-10.0));
    assert ExamplePrefix(4) == ExamplePrefix(3) + [ExampleTrapezoid()[3]];
  }

  /** The segments after the head are not degenerate, so consolidating keeps all four. */
  lemma ExampleConsolidate(q: Profile)
    requires |q| == 4 && q[1..] == [q[1], q[2], q[3]]
    requires !IsDegenerate(q[1]) && !IsDegenerate(q[2]) && !IsDegenerate(q[3])
    ensures Consolidate(q) == q
  {
    assert q[1..] == [q[1]] + [q[2]] + [q[3]];
    KeepMovingAppend([q[1]] + [q[2]], [q[3]]);
    KeepMovingAppend([q[1]], [q[2]]);
    assert [q[3]][1..] == [];
  }

  /** The four segments of the example trapezoid: rest, acceleration, cruise, deceleration. */
  function ExampleTrapezoid(): Profile
  {
    [MotionSegment(MotionState(0.0, 0.0, 0.0, Finite(0.0)), MotionState(0.0, 0.0, 0.0, Finite(0.0))),
     MotionSegment(MotionState(0.0, 0.0, 0.0, Finite(10.0)), MotionState(0.5, 1.25, 5.0, Finite(10.0))),
     MotionSegment(MotionState(0.5, 1.25, 5.0, Finite(0.0)), MotionState(1.26, 5.05, 5.0, Finite(0.0))),
     MotionSegment(MotionState(1.26, 5.05, 5.0, Finite(-10.0)), MotionState(1.76, 6.3, 0.0, Finite(-10.0)))]
  }

  lemma ExamplePlan()
    ensures Trapezoid(Constraints(5.0, 10.0), Goal(6.3, 0.0, Overshoot, 0.05, 0.1), ExamplePrefix(1), 0.0, 5.0, 10.0)
        == ExampleTrapezoid()
  {
    ExampleAccelerate();
    ExampleCruiseAndDecelerate();
    ExampleWhole();
  }

  lemma ExampleCruiseAndDecelerate()
    ensures CruiseAndDecelerate(Constraints(5.0, 10.0), Goal(6.3, 0.0, Overshoot, 0.05, 0.1), ExamplePrefix(2), 0.0, 10.0)
        == ExamplePrefix(4)
  {
    var p := ExamplePrefix(2);
    assert Last(p).end.vel == 5.0 && Last(p).end.pos == 1.25;
    assert SpeedChangeDistance(0.0, 5.0, 10.0) == 1.25;
    CruiseAndDecelerateSteps(Constraints(5.0, 10.0), Goal(6.3, 0.0, Overshoot, 0.05, 0.1), p, 0.0, 10.0, 3.8, 1.25);
    ExampleCruise();
    ExampleDecelerate();
  }

  lemma ExampleWhole()
    ensures ExamplePrefix(4) == ExampleTrapezoid()
  {
  }

  /**
    The full trapezoid of the setpoint tests: accelerate for 0.5, cruise for
    0.76, decelerate for 0.5.
   */
  lemma GenerateProfileExample(c: Constraints, g: Goal, prev: MotionState, sqrt: real -> real)
    requires IsExampleProblem(c, g, prev) && IsSqrt(sqrt)
    ensures GenerateProfile(c, g, prev, sqrt) == ExampleTrapezoid()
  {
    ExampleNoOvershoot(c, g, prev, sqrt);
    GenerateForward(c, g, prev, sqrt);
    ExampleDispatch(c, g, prev, sqrt);
    ExampleConsolidated();
  }

  lemma ExampleConsolidated()
    ensures Consolidate(ExampleTrapezoid()) == ExampleTrapezoid()
  {
    ExampleConsolidate(ExampleTrapezoid());
  }

  lemma ExampleHead()
    ensures ExamplePrefix(1) == ResetProfile(MotionState(0.0, 0.0, 0.0, Finite(0.0)))
  {
  }

  /** Starting from rest, the example cannot overshoot. */
  lemma ExampleNoOvershoot(c: Constraints, g: Goal, prev: MotionState, sqrt: real -> real)
    requires IsExampleProblem(c, g, prev) && IsSqrt(sqrt)
    ensures !Overshoots(c, g, prev, sqrt) && !StopsAndReturns(c, g, prev, sqrt)
  {
    assert MinAbsVelAtGoalSqr(c, prev, g.pos - prev.pos) < 0.0;
  }

  /** Without overshoot, the plan is the trapezoid. */
  lemma ExampleDispatch(c: Constraints, g: Goal, prev: MotionState, sqrt: real -> real)
    requires IsExampleProblem(c, g, prev) && IsSqrt(sqrt)
    ensures Dispatch(c, g, ResetProfile(prev), sqrt) == ExampleTrapezoid()
  {
    ExampleHead();
    ExampleNoOvershoot(c, g, prev, sqrt);
    ExampleVelocities(c, g, prev, sqrt);
    ExamplePlan();
  }
}
