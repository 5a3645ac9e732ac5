/**
  The profile follower (motion/ProfileFollower.c): it keeps a goal, the
  constraints, a setpoint generator and the latest setpoint, and turns each
  measured state into a clamped actuator output from proportional, velocity,
  feedforward and integral terms, with integral anti-windup.
 */
module Follower {
  import opened Utils
  import opened States
  import opened Goals
  import opened Generator
  import opened Setpoints

  /**
    The follower. Absent states and errors are the NaN values of the C
    record; absent goal, constraints and setpoint are its null pointers.
   */
  datatype ProfileFollower = ProfileFollower(
    kP: real, kI: real, kV: real, kFFV: real, kFFA: real,
    minOutput: real, maxOutput: real,
    latestActualState: Option<MotionState>,
    initialState: Option<MotionState>,
    latestPosError: Option<real>,
    latestVelError: Option<real>,
    totalError: real,
    goal: Option<Goal>,
    constraints: Option<Constraints>,
    generator: SetpointGenerator,
    latestSetpoint: Option<Setpoint>)

  /** The follower after an update and the output it returned. */
  datatype Update = Update(follower: ProfileFollower, output: real)

  /** Store the five gains; nothing else changes. */
  function SetProfileFollowerGains(f: ProfileFollower, kp: real, ki: real, kv: real, kffv: real, kffa: real): (r: ProfileFollower)
    ensures r.kP == kp && r.kI == ki && r.kV == kv && r.kFFV == kffv && r.kFFA == kffa
    ensures r.(kP := f.kP, kI := f.kI, kV := f.kV, kFFV := f.kFFV, kFFA := f.kFFA) == f
  {
    f.(kP := kp, kI := ki, kV := kv, kFFV := kffv, kFFA := kffa)
  }

  /**
    Store the goal and the constraints. A latest setpoint loses its final
    mark when a different goal replaces an existing one, since the old goal
    was what it finished. The C code writes through the goal and constraints
    pointers, which `ClearProfileFollower` leaves null
    (motion/ProfileFollower.c:38-39); storing them is what is meant.
   */
  function SetProfileFollowerGoalAndConstraints(f: ProfileFollower, g: Goal, c: Constraints): (r: ProfileFollower)
    ensures r.goal == Some(g) && r.constraints == Some(c)
    ensures r.latestSetpoint.Some? <==> f.latestSetpoint.Some?
    ensures r.latestSetpoint.Some? ==>
      r.latestSetpoint.value.state == f.latestSetpoint.value.state
      && (r.latestSetpoint.value.final <==> f.latestSetpoint.value.final && (f.goal.None? || f.goal.value == g))
    ensures r.(goal := f.goal, constraints := f.constraints, latestSetpoint := f.latestSetpoint) == f
  {
    var setpoint :=
      if f.goal.Some? && !GoalsAreEqual(f.goal.value, g) && f.latestSetpoint.Some?
      then Some(f.latestSetpoint.value.(final := false))
      else f.latestSetpoint;
    f.(goal := Some(g), constraints := Some(c), latestSetpoint := setpoint)
  }

  /**
    Forget everything about the current profile; the gains and the output
    limits stay. The C code clears the generator through a misspelt field
    (motion/ProfileFollower.c:63 and :91 against motion/Motion.h:89); the
    follower's generator is meant.
   */
  function ClearProfileFollower(f: ProfileFollower): (r: ProfileFollower)
    ensures r.totalError == 0.0
    ensures r.initialState.None? && r.latestActualState.None?
    ensures r.latestPosError.None? && r.latestVelError.None?
    ensures r.goal.None? && r.constraints.None? && r.latestSetpoint.None?
    ensures r.generator.profile.None? && r.generator.goal.None? && r.generator.constraints.None?
    ensures r.kP == f.kP && r.kI == f.kI && r.kV == f.kV && r.kFFV == f.kFFV && r.kFFA == f.kFFA
    ensures r.minOutput == f.minOutput && r.maxOutput == f.maxOutput
  {
    f.(totalError := 0.0, initialState := None, latestActualState := None,
       latestPosError := None, latestVelError := None,
       constraints := None, goal := None,
       generator := ClearSetpointGenerator(f.generator), latestSetpoint := None)
  }

  /**
    The time over which the position error is integrated: the time since
    the previous setpoint, never negative. The C code takes the previous
    setpoint's own time instead (motion/ProfileFollower.c:90), see
    `IntegralDtAsWritten`.
   */
  function IntegralDt(prev: MotionState, t: real): (r: real)
    ensures r >= 0.0
    ensures t >= prev.t ==> r == t - prev.t
    ensures t <= prev.t ==> r == 0.0
  {
    Max(0.0, t - prev.t)
  }

  /** The integration time exactly as motion/ProfileFollower.c:90 writes it. */
  function IntegralDtAsWritten(prev: MotionState, t: real): (r: real)
    ensures r >= 0.0
    ensures prev.t >= 0.0 ==> r == prev.t
  {
    Max(0.0, prev.t)
  }

  /**
    `kFFA * acc` as a double: infinite for an infinite acceleration and a
    non-zero gain, NaN for a zero gain (zero times infinity).
   */
  function FeedForwardAccel(kFFA: real, acc: Accel): (r: Ext)
    ensures r.Num? <==> acc.Finite?
    ensures acc.Finite? ==> r == Num(kFFA * acc.value)
    ensures acc.IsInfinite() ==> (r.NotANumber? <==> kFFA == 0.0)
  {
    match acc
    case Finite(a) => Num(kFFA * a)
    case PosInf => if kFFA > 0.0 then PlusInfinity else if kFFA < 0.0 then MinusInfinity else NotANumber
    case NegInf => if kFFA > 0.0 then MinusInfinity else if kFFA < 0.0 then PlusInfinity else NotANumber
  }

  /** A finite double plus an extended one. */
  function AddExt(x: real, e: Ext): (r: Ext)
    ensures r.Num? <==> e.Num?
    ensures e.Num? ==> r.value == x + e.value
    ensures !e.Num? ==> r == e
  {
    match e
    case Num(y) => Num(x + y)
    case _ => e
  }

  /**
    The proportional, velocity and feedforward terms for the setpoint state
    `s` against the measured state (motion/ProfileFollower.c:94-98). The
    acceleration term is dropped only for a NaN acceleration, which comes
    with an absent state, and then the other terms are NaN anyway.
   */
  function RawOutput(f: ProfileFollower, s: Option<MotionState>, actual: MotionState): (r: Ext)
    ensures r.Num? <==> s.Some? && s.value.acc.Finite?
    ensures s.None? ==> r == NotANumber
    ensures r.Num? ==> r.value == f.kP * (s.value.pos - actual.pos) + f.kV * (s.value.vel - actual.vel)
                                  + f.kFFV * s.value.vel + f.kFFA * s.value.acc.value
  {
    if s.None? then NotANumber
    else
      var sp := s.value;
      AddExt(f.kP * (sp.pos - actual.pos) + f.kV * (sp.vel - actual.vel) + f.kFFV * sp.vel,
             FeedForwardAccel(f.kFFA, sp.acc))
  }

  /** The integral after a step and the clamped output. */
  datatype Control = Control(totalError: real, output: real)

  /**
    The output for the setpoint state `s` against the measured state, with
    anti-windup (motion/ProfileFollower.c:99-109): while the output before
    the integral term is within the limits, the position error over `dt` is
    added to the integral and the integral term to the output; otherwise the
    integral is reset. The result is clamped to the limits.
   */
  function ControlOutput(f: ProfileFollower, s: Option<MotionState>, actual: MotionState, dt: real): (r: Control)
    ensures f.minOutput <= f.maxOutput ==> f.minOutput <= r.output <= f.maxOutput
    ensures var raw := RawOutput(f, s, actual);
      if InRange(raw, f.minOutput, f.maxOutput) then
        && r.totalError == f.totalError + (s.value.pos - actual.pos) * dt
        && r.output == Clamp(f.minOutput, f.maxOutput, Num(raw.value + f.kI * r.totalError))
      else
        r.totalError == 0.0 && r.output == Clamp(f.minOutput, f.maxOutput, raw)
  {
    var raw := RawOutput(f, s, actual);
    if InRange(raw, f.minOutput, f.maxOutput) then
      var total := f.totalError + (s.value.pos - actual.pos) * dt;
      Control(total, Clamp(f.minOutput, f.maxOutput, Num(raw.value + f.kI * total)))
    else
      Control(0.0, Clamp(f.minOutput, f.maxOutput, raw))
  }

  /**
    With no integral gain, or a zero integral, an output that is within the
    limits before the integral term is returned unchanged.
   */
  lemma ControlOutputWithoutIntegral(f: ProfileFollower, s: Option<MotionState>, actual: MotionState, dt: real)
    requires InRange(RawOutput(f, s, actual), f.minOutput, f.maxOutput)
    requires f.kI == 0.0
    ensures ControlOutput(f, s, actual, dt).output == RawOutput(f, s, actual).value
  {
  }

  /** The state whose successor the generator is asked for: the latest setpoint's, or the measured one at the start. */
  function FedState(f: ProfileFollower, actual: MotionState): (r: MotionState)
    requires f.latestSetpoint.Some? ==> f.latestSetpoint.value.state.Some?
    ensures f.latestSetpoint.None? ==> r == actual
    ensures f.latestSetpoint.Some? ==> Some(r) == f.latestSetpoint.value.state
  {
    if f.latestSetpoint.Some? then f.latestSetpoint.value.state.value else actual
  }

  /**
    One control step at time `t` with the measured state `actual`: without
    a latest setpoint the measured state starts the move and is recorded as
    the initial state, otherwise the latest setpoint's state is fed forward;
    the generator gives the new setpoint; the errors are taken against it
    and the output follows `ControlOutput`. The C code writes the new
    setpoint through a pointer `ClearProfileFollower` leaves null
    (motion/ProfileFollower.c:91); storing it is what is meant.
   */
  function ProfileFollowerUpdate(f: ProfileFollower, actual: MotionState, t: real, sqrt: real -> real): (r: Update)
    requires f.goal.Some? && f.constraints.Some?
    requires WellFormedConstraints(f.constraints.value) && WellFormedGoal(f.goal.value) && IsSqrt(sqrt)
    requires f.latestSetpoint.Some? ==> f.latestSetpoint.value.state.Some?
    ensures f.minOutput <= f.maxOutput ==> f.minOutput <= r.output <= f.maxOutput
    ensures r.follower.latestActualState == Some(actual)
    ensures f.latestSetpoint.None? ==> r.follower.initialState == Some(actual)
    ensures f.latestSetpoint.Some? ==> r.follower.initialState == f.initialState
    ensures var prev := FedState(f, actual);
      var step := GetSetpoint(f.generator, f.constraints.value, f.goal.value, prev, t, sqrt);
      var s := step.setpoint.state;
      && r.follower.generator == step.generator
      && r.follower.latestSetpoint == Some(step.setpoint)
      && (r.follower.latestPosError.Some? <==> s.Some?)
      && (s.Some? ==> r.follower.latestPosError.value == s.value.pos - actual.pos
                      && r.follower.latestVelError == Some(s.value.vel - actual.vel))
      && Control(r.follower.totalError, r.output) == ControlOutput(f, s, actual, IntegralDt(prev, t))
    ensures r.follower.(latestActualState := f.latestActualState, initialState := f.initialState,
                        latestPosError := f.latestPosError, latestVelError := f.latestVelError,
                        totalError := f.totalError, generator := f.generator,
                        latestSetpoint := f.latestSetpoint) == f
  {
    var prev := FedState(f, actual);
    var initial := if f.latestSetpoint.Some? then f.initialState else Some(actual);
    var step := GetSetpoint(f.generator, f.constraints.value, f.goal.value, prev, t, sqrt);
    var s := step.setpoint.state;
    var posError := if s.Some? then Some(s.value.pos - actual.pos) else None;
    var velError := if s.Some? then Some(s.value.vel - actual.vel) else None;
    var control := ControlOutput(f, s, actual, IntegralDt(prev, t));
    var g := f.(latestActualState := Some(actual), initialState := initial,
                latestPosError := posError, latestVelError := velError, totalError := control.totalError,
                generator := step.generator, latestSetpoint := Some(step.setpoint));
    Update(g, control.output)
  }

  /**
    The final setpoint has been handed out for the current goal; this says
    nothing about how close the mechanism is to it.
   */
  predicate IsProfileFinished(f: ProfileFollower)
  {
    f.goal.Some? && f.latestSetpoint.Some? && f.latestSetpoint.value.final
  }

  /**
    `SignNum` of the distance from a possibly NaN state to the goal
    position: a NaN distance is not negative, so its sign is 1.
   */
  function SideOfGoal(goalPos: real, s: Option<MotionState>): (r: real)
    ensures r == -1.0 <==> s.Some? && s.value.pos > goalPos
    ensures r == 1.0 || r == -1.0
  {
    if s.Some? then SignNum(goalPos - s.value.pos) else 1.0
  }

  /**
    The mechanism is at the goal state, or, unless the goal asks to
    overshoot, it has passed the goal: the measured position lies on the
    other side of the goal from the initial one.
   */
  predicate IsProfileOnTarget(f: ProfileFollower)
  {
    if f.goal.None? || f.latestSetpoint.None? then false
    else
      var g := f.goal.value;
      var pastGoalState := SideOfGoal(g.pos, f.initialState) * SideOfGoal(g.pos, f.latestActualState) < 0.0;
      (f.latestActualState.Some? && AtGoalState(g, f.latestActualState.value))
      || (g.completionBehavior != Overshoot && pastGoalState)
  }

  /** The state of the latest setpoint, absent without one. */
  function GetProfileSetpoint(f: ProfileFollower): (r: Option<MotionState>)
    ensures f.latestSetpoint.None? ==> r.None?
    ensures r.Some? ==> f.latestSetpoint.Some? && Some(r.value) == f.latestSetpoint.value.state
    ensures f.latestSetpoint.Some? ==> r == f.latestSetpoint.value.state
  {
    if f.latestSetpoint.None? then None else f.latestSetpoint.value.state
  }

  /** Clearing twice is clearing once. */
  lemma ClearIdempotent(f: ProfileFollower)
    ensures ClearProfileFollower(ClearProfileFollower(f)) == ClearProfileFollower(f)
  {
  }

  /** After clearing, the follower is neither finished nor on target and has no setpoint. */
  lemma ClearedFollowerIsIdle(f: ProfileFollower)
    ensures var r := ClearProfileFollower(f);
      !IsProfileFinished(r) && !IsProfileOnTarget(r) && GetProfileSetpoint(r).None?
  {
  }

  /** Setting the same goal and constraints again changes nothing. */
  lemma SetGoalAndConstraintsIdempotent(f: ProfileFollower, g: Goal, c: Constraints)
    ensures var r := SetProfileFollowerGoalAndConstraints(f, g, c);
      SetProfileFollowerGoalAndConstraints(r, g, c) == r
  {
  }

  /**
    Replacing the goal by a different one un-finishes the profile; setting
    the same goal keeps whatever finished state there was.
   */
  lemma GoalChangeUnfinishes(f: ProfileFollower, g: Goal, c: Constraints)
    ensures f.goal.Some? && f.goal.value != g ==> !IsProfileFinished(SetProfileFollowerGoalAndConstraints(f, g, c))
    ensures f.goal == Some(g) ==> (IsProfileFinished(SetProfileFollowerGoalAndConstraints(f, g, c)) <==> IsProfileFinished(f))
  {
  }

  /**
    When the generator was set for the follower's goal, the update after a
    change of goal regenerates the profile.
   */
  lemma GoalChangeRegenerates(f: ProfileFollower, g: Goal, c: Constraints, prev: MotionState)
    requires f.generator.goal == f.goal && f.goal.Some? && f.goal.value != g
    ensures var r := SetProfileFollowerGoalAndConstraints(f, g, c);
      NeedsRegeneration(r.generator, r.constraints.value, r.goal.value, prev)
  {
    ChangedInputsRegenerate(f.generator, c, g, prev);
  }

  /**
    After an update the profile is finished exactly when the generator
    called its setpoint final, and the setpoint reported is the one it
    handed out.
   */
  lemma UpdateFinishes(f: ProfileFollower, actual: MotionState, t: real, sqrt: real -> real)
    requires f.goal.Some? && f.constraints.Some?
    requires WellFormedConstraints(f.constraints.value) && WellFormedGoal(f.goal.value) && IsSqrt(sqrt)
    requires f.latestSetpoint.Some? ==> f.latestSetpoint.value.state.Some?
    ensures var r := ProfileFollowerUpdate(f, actual, t, sqrt).follower;
      (IsProfileFinished(r) <==> r.latestSetpoint.value.final)
      && GetProfileSetpoint(r) == r.latestSetpoint.value.state
  {
  }

  /**
    A final setpoint state is the goal position at rest acceleration, so the
    position error after an update that finished is the distance from the
    measured position to the goal.
   */
  lemma FinishedUpdateError(f: ProfileFollower, actual: MotionState, t: real, sqrt: real -> real)
    requires f.goal.Some? && f.constraints.Some?
    requires WellFormedConstraints(f.constraints.value) && WellFormedGoal(f.goal.value) && IsSqrt(sqrt)
    requires f.latestSetpoint.Some? ==> f.latestSetpoint.value.state.Some?
    requires var r := ProfileFollowerUpdate(f, actual, t, sqrt).follower;
      IsProfileFinished(r) && r.latestSetpoint.value.state.Some?
    ensures ProfileFollowerUpdate(f, actual, t, sqrt).follower.latestPosError == Some(f.goal.value.pos - actual.pos)
  {
  }

  /**
    The integral term does not depend on where the clock starts: shifting
    the previous setpoint and the current time together leaves the
    integration time unchanged.
   */
  lemma IntegralDtShiftInvariant(prev: MotionState, t: real, d: real)
    ensures IntegralDt(prev.(t := prev.t + d), t + d) == IntegralDt(prev, t)
  {
  }

  /**
    The integration time as written depends on the clock's origin: a step of
    0.01 s after the previous setpoint at 100 s integrates over 100 s, and
    the same step with the clock started 100 s later integrates over 0.
   */
  lemma IntegralDtAsWrittenExample(prev: MotionState)
    requires prev.t == 100.0
    ensures IntegralDt(prev, 100.01) == 0.01
    ensures IntegralDtAsWritten(prev, 100.01) == 100.0
    ensures IntegralDtAsWritten(prev.(t := prev.t - 100.0), 100.01 - 100.0) == 0.0
  {
  }

  /**
    Being past the goal means the measured position lies strictly beyond
    the goal on the far side from the initial position, counting a position
    exactly at the goal as short of it from either side.
   */
  lemma PastGoalIsCrossing(g: Goal, initial: MotionState, actual: MotionState)
    ensures SideOfGoal(g.pos, Some(initial)) * SideOfGoal(g.pos, Some(actual)) < 0.0
        <==> (initial.pos > g.pos) != (actual.pos > g.pos)
  {
  }

  /**
    With a goal and a setpoint and both states known, on target means at the
    goal state, or crossed over the goal when overshooting is not the
    completion behaviour.
   */
  lemma OnTargetCharacterised(f: ProfileFollower)
    requires f.goal.Some? && f.latestSetpoint.Some? && f.initialState.Some? && f.latestActualState.Some?
    ensures var g := f.goal.value;
      var initial := f.initialState.value;
      var actual := f.latestActualState.value;
      IsProfileOnTarget(f) <==>
        AtGoalState(g, actual) || (g.completionBehavior != Overshoot && ((initial.pos > g.pos) != (actual.pos > g.pos)))
  {
    PastGoalIsCrossing(f.goal.value, f.initialState.value, f.latestActualState.value);
  }

  /**
    The on-target test: toward 10.0 from 9.0 with 0.25 position and 0.1
    speed tolerance and goal speed 5.0, the state at 9.99 moving at 0.5 is
    on target, moving at 9.5 it is not.
   */
  lemma OnTargetExample(f: ProfileFollower)
    requires f.goal == Some(Goal(10.0, 5.0, Overshoot, 0.25, 0.1)) && f.latestSetpoint.Some?
    requires f.initialState.Some? && f.initialState.value.pos == 9.0
    requires f.latestActualState.Some? && f.latestActualState.value.pos == 9.99
    ensures f.latestActualState.value.vel == 0.5 ==> IsProfileOnTarget(f)
    ensures f.latestActualState.value.vel == 9.5 ==> !IsProfileOnTarget(f)
  {
  }

  /**
    The finished test: a follower with a goal is finished exactly when its
    latest setpoint is marked final.
   */
  lemma FinishedExample(f: ProfileFollower, s: Setpoint)
    requires f.goal.Some?
    ensures !IsProfileFinished(f.(latestSetpoint := Some(s.(final := false))))
    ensures IsProfileFinished(f.(latestSetpoint := Some(s.(final := true))))
  {
  }
}
