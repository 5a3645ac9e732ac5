/**
  The setpoint generator (motion/SetpointGenerator.c): a cache of the goal,
  the constraints and the profile generated for them, sampled at increasing
  times. The cached profile is regenerated when the inputs change or the
  previous state has left it, and is trimmed up to each sampled time.
 */
module Setpoints {
  import opened Utils
  import opened States
  import opened Segments
  import opened Goals
  import opened Profiles
  import opened Generator

  /** The cache; each part is absent until the generator is set. */
  datatype SetpointGenerator = SetpointGenerator(profile: Option<Profile>, goal: Option<Goal>, constraints: Option<Constraints>)

  /**
    A sampled state and whether it is the last one. An absent state is a
    sample the profile could not give (a NaN state in the C code).
   */
  datatype Setpoint = Setpoint(state: Option<MotionState>, final: bool)

  /** The generator after a call: the updated cache and the setpoint handed out. */
  datatype Step = Step(generator: SetpointGenerator, setpoint: Setpoint)

  /** Forget the goal, the constraints and the profile. */
  function ClearSetpointGenerator(gen: SetpointGenerator): (r: SetpointGenerator)
    ensures r.profile.None? && r.goal.None? && r.constraints.None?
  {
    SetpointGenerator(None, None, None)
  }

  /**
    Store the constraints and the goal and the profile generated for them
    from `prev`: it starts at rest at the clamped `prev`, with every segment
    valid.
   */
  function SetSetpointGenerator(c: Constraints, g: Goal, prev: MotionState, sqrt: real -> real): (r: SetpointGenerator)
    requires WellFormedConstraints(c) && WellFormedGoal(g) && IsSqrt(sqrt)
    ensures r.goal == Some(g) && r.constraints == Some(c) && r.profile.Some?
    ensures var p := r.profile.value;
      |p| >= 1 && p[0] == MotionSegment(ClampStart(c, prev), ClampStart(c, prev))
      && forall i :: 0 <= i < |p| ==> IsSegmentValid(p[i])
  {
    SetpointGenerator(Some(GenerateProfile(c, g, prev, sqrt)), Some(g), Some(c))
  }

  /**
    The cached profile no longer serves: an input is missing or differs, or
    the cached profile at `prev`'s time is absent or is not `prev`. The C
    code inverts both equality tests (motion/SetpointGenerator.c:64), and its
    NaN test (:68) is always false; the comparison that follows it already
    finds a NaN state unequal, so only line 64 changes the outcome.
   */
  predicate NeedsRegeneration(gen: SetpointGenerator, c: Constraints, g: Goal, prev: MotionState)
  {
    if gen.constraints != Some(c) || gen.goal != Some(g) || gen.profile.None? then true
    else if |gen.profile.value| == 0 then false
    else
      var expected := StateByTime(gen.profile.value, prev.t);
      expected.None? || !MotionStatesAreEqual(expected.value, prev)
  }

  /**
    The regeneration test as motion/SetpointGenerator.c:64-69 write it, with
    the lookup as written as well (motion/MotionProfile.c:231 returns the
    head's end just after the profile's end).
   */
  predicate RegenerateAsWritten(gen: SetpointGenerator, c: Constraints, g: Goal, prev: MotionState)
  {
    if gen.constraints.None? || ConstraintsAreEqual(gen.constraints.value, c)
       || gen.goal.None? || GoalsAreEqual(gen.goal.value, g) || gen.profile.None? then true
    else if |gen.profile.value| == 0 then false
    else
      var expected := StateByTimeAsWritten(gen.profile.value, prev.t);
      expected.None? || !MotionStatesAreEqual(expected.value, prev)
  }

  /** The cache after the regeneration step: the inputs, and the profile to sample. */
  function Refreshed(gen: SetpointGenerator, c: Constraints, g: Goal, prev: MotionState, sqrt: real -> real): (r: SetpointGenerator)
    requires WellFormedConstraints(c) && WellFormedGoal(g) && IsSqrt(sqrt)
    ensures r.goal == Some(g) && r.constraints == Some(c) && r.profile.Some?
    ensures NeedsRegeneration(gen, c, g, prev) ==> r == SetSetpointGenerator(c, g, prev, sqrt)
    ensures !NeedsRegeneration(gen, c, g, prev) ==> r == gen
  {
    if NeedsRegeneration(gen, c, g, prev) then SetSetpointGenerator(c, g, prev, sqrt)
    else gen
  }

  /**
    The state of a valid, non-empty profile at `t`: its end after it, its
    start before it, the state at `t` within it. The C code compares with
    the tail's start and returns it (motion/SetpointGenerator.c:81-82); the
    head's start is meant.
   */
  function Sample(p: Profile, t: real): (r: Option<MotionState>)
    requires |p| > 0
    ensures t > Last(p).end.t ==> r == Some(Last(p).end)
    ensures t <= Last(p).end.t && t < p[0].start.t ==> r == Some(p[0].start)
    ensures p[0].start.t <= t <= Last(p).end.t ==> r == SampleContaining(p, t)
    ensures p[0].start.t <= t <= Last(p).end.t ==>
      forall i :: 0 <= i < |p| && ContainsTime(p[i], t) && (forall j :: 0 <= j < i ==> !ContainsTime(p[j], t)) ==>
        r == ExtrapolateWith(p[i].start, t, p[i].start.acc)
  {
    if t > Last(p).end.t then Some(Last(p).end)
    else if t < p[0].start.t then Some(p[0].start)
    else StateByTime(p, t)
  }

  /** The sampling as motion/SetpointGenerator.c:79-85 write it, with the lookup as written. */
  function SampleAsWritten(p: Profile, t: real): (r: Option<MotionState>)
    requires |p| > 0
    ensures t > Last(p).end.t ==> r == Some(Last(p).end)
    ensures t <= Last(p).end.t && t < Last(p).start.t ==> r == Some(Last(p).start)
    ensures Last(p).start.t <= t <= Last(p).end.t ==> r == StateByTime(p, t)
  {
    if t > Last(p).end.t then Some(Last(p).end)
    else if t < Last(p).start.t then Some(Last(p).start)
    else StateByTimeAsWritten(p, t)
  }

  /**
    The final setpoint matches the goal exactly: the goal position, no
    acceleration, and at least the goal speed in the direction of travel.
   */
  function Snap(g: Goal, s: MotionState): (r: MotionState)
    ensures r.t == s.t && r.pos == g.pos && r.acc == Finite(0.0)
    ensures Abs(r.vel) == Max(g.maxAbsVel, Abs(s.vel)) && Abs(r.vel) >= Abs(s.vel)
    ensures r.vel < 0.0 <==> s.vel < 0.0
  {
    s.(pos := g.pos, vel := SignNum(s.vel) * Max(g.maxAbsVel, Abs(s.vel)), acc := Finite(0.0))
  }

  /** A final setpoint is snapped to the goal; an absent state stays absent. */
  function Finish(g: Goal, s: Option<MotionState>, final: bool): (r: Setpoint)
    ensures r.final == final
    ensures r.state.Some? <==> s.Some?
    ensures final && s.Some? ==> r.state == Some(Snap(g, s.value))
    ensures !final ==> r.state == s
  {
    if final && s.Some? then Setpoint(Some(Snap(g, s.value)), true)
    else Setpoint(s, final)
  }

  /**
    The setpoint at time `t` for a move from `prev` to `g` within `c`:
    regenerate the cached profile if needed; if it is valid and not empty,
    sample it at `t`, trim it up to `t`, and call the sample final when
    nothing is left or it is at the goal; otherwise hand back `prev` as the
    final setpoint. A final setpoint is snapped to the goal. "Nothing is
    left" is what motion/SetpointGenerator.c:88 evidently means by
    `!profile->length`; the C counter is not decremented by the trim, so
    there the flag is the goal test alone.
   */
  function GetSetpoint(gen: SetpointGenerator, c: Constraints, g: Goal, prev: MotionState, t: real,
                       sqrt: real -> real): (r: Step)
    requires WellFormedConstraints(c) && WellFormedGoal(g) && IsSqrt(sqrt)
    ensures r.generator.goal == Some(g) && r.generator.constraints == Some(c) && r.generator.profile.Some?
    ensures r.setpoint.final && r.setpoint.state.Some? ==>
      r.setpoint.state.value.pos == g.pos && r.setpoint.state.value.acc == Finite(0.0)
    ensures !r.setpoint.final ==> |r.generator.profile.value| > 0 && r.generator.profile.value[0].end.t > t
    ensures var p := Refreshed(gen, c, g, prev, sqrt).profile.value;
      if |p| > 0 && IsProfileValid(p) then
        var s := Sample(p, t);
        && r.generator.profile == Some(TrimBeforeTime(p, t))
        && (r.setpoint.final <==> |TrimBeforeTime(p, t)| == 0 || (s.Some? && AtGoalState(g, s.value)))
        && r.setpoint == Finish(g, s, r.setpoint.final)
      else
        && r.generator.profile == Some(p)
        && r.setpoint == Setpoint(Some(Snap(g, prev)), true)
  {
    var cache := Refreshed(gen, c, g, prev, sqrt);
    var p := cache.profile.value;
    if |p| > 0 && IsProfileValid(p) then
      var s := Sample(p, t);
      var trimmed := TrimBeforeTime(p, t);
      var final := |trimmed| == 0 || (s.Some? && AtGoalState(g, s.value));
      Step(cache.(profile := Some(trimmed)), Finish(g, s, final))
    else
      Step(cache, Finish(g, Some(prev), true))
  }

  /** After clearing, the next call regenerates whatever its inputs. */
  lemma ClearForcesRegeneration(gen: SetpointGenerator, c: Constraints, g: Goal, prev: MotionState)
    ensures NeedsRegeneration(ClearSetpointGenerator(gen), c, g, prev)
  {
  }

  /** A change of goal or of constraints always regenerates. */
  lemma ChangedInputsRegenerate(gen: SetpointGenerator, c: Constraints, g: Goal, prev: MotionState)
    requires gen.goal != Some(g) || gen.constraints != Some(c)
    ensures NeedsRegeneration(gen, c, g, prev)
  {
  }

  /**
    The promise of the C comment: right after setting the generator from a
    state within the limits, asking again with the same goal, constraints
    and state does not regenerate (provided the profile does not end before
    that state's time).
   */
  lemma {:induction false} NoRegenerationAfterSet(c: Constraints, g: Goal, prev: MotionState, sqrt: real -> real)
    requires WellFormedConstraints(c) && WellFormedGoal(g) && IsSqrt(sqrt)
    requires Abs(prev.vel) <= c.maxAbsVel && prev.acc.Finite? && Abs(prev.acc.value) <= c.maxAbsAcc
    requires Last(SetSetpointGenerator(c, g, prev, sqrt).profile.value).end.t >= prev.t
    ensures !NeedsRegeneration(SetSetpointGenerator(c, g, prev, sqrt), c, g, prev)
  {
    var p := SetSetpointGenerator(c, g, prev, sqrt).profile.value;
    ClampStartWithinLimits(c, prev);
    assert ContainsTime(p[0], prev.t);
    ExtrapolateToOwnTime(prev, prev.acc.value);
    assert SampleContaining(p, prev.t) == Some(prev);
  }

  /**
    A sample lies at `t` moved into the profile's time span: the tail's end
    time after the end, the head's start time before the start, `t` itself
    within.
   */
  lemma SampleTime(p: Profile, t: real)
    requires |p| > 0 && Sample(p, t).Some?
    ensures Sample(p, t).value.t == if t > Last(p).end.t then Last(p).end.t else if t < p[0].start.t then p[0].start.t else t
  {
  }

  /**
    When the cached profile holds the previous state at its time, the
    intended test regenerates exactly when an input changed, and the test as
    written exactly when one did not (or is missing).
   */
  lemma RegenerationOnProfile(gen: SetpointGenerator, c: Constraints, g: Goal, prev: MotionState)
    requires gen.profile.Some? && |gen.profile.value| > 0 && StateByTime(gen.profile.value, prev.t) == Some(prev)
    ensures NeedsRegeneration(gen, c, g, prev) <==> gen.constraints != Some(c) || gen.goal != Some(g)
    ensures RegenerateAsWritten(gen, c, g, prev) <==>
      gen.constraints.None? || gen.constraints == Some(c) || gen.goal.None? || gen.goal == Some(g)
  {
    MotionStatesAreEqualReflexive(prev);
  }

  /** The state of the example trapezoid at 0.1, on its acceleration segment. */
  lemma ExampleSampleAt(p: Profile)
    requires p == ExampleTrapezoid()
    ensures Sample(p, 0.1) == Some(MotionState(0.1, 0.05, 1.0, Finite(10.0)))
  {
    assert !ContainsTime(p[0], 0.1) && ContainsTime(p[1], 0.1);
    assert FirstIndex(p, seg => ContainsTime(seg, 0.1), 1) == Some(1);
  }

  /**
    Sampling as written returns the tail's start for any time before it: at
    0.1 the state at 1.26 instead of the state at 0.1.
   */
  lemma SampleAsWrittenExample(p: Profile)
    requires p == ExampleTrapezoid()
    ensures SampleAsWritten(p, 0.1) == Some(MotionState(1.26, 5.05, 5.0, Finite(-10.0)))
    ensures Sample(p, 0.1) != SampleAsWritten(p, 0.1)
  {
    ExampleSampleAt(p);
  }

  /** The example trapezoid at its start time is the state at rest it starts from. */
  lemma ExampleStateAtStart(p: Profile)
    requires p == ExampleTrapezoid()
    ensures StateByTime(p, 0.0) == Some(MotionState(0.0, 0.0, 0.0, Finite(0.0)))
  {
    assert ContainsTime(p[0], 0.0);
  }

  /**
    The regeneration test as written keeps a stale profile: with the cache
    set for the move to 6.3 within 5.0 and 10.0 (the example trapezoid is
    such a profile, by `ExampleStateAtStart`), asking for the move to 2.0
    within 4.0 and 10.0 does not regenerate.
   */
  lemma RegenerateAsWrittenExample(p: Profile, prev: MotionState)
    requires |p| > 0 && StateByTime(p, prev.t) == Some(prev)
    ensures var gen := SetpointGenerator(Some(p), Some(Goal(6.3, 0.0, Overshoot, 0.05, 0.1)), Some(Constraints(5.0, 10.0)));
      var c := Constraints(4.0, 10.0);
      var g := Goal(2.0, 0.0, Overshoot, 0.05, 0.1);
      !RegenerateAsWritten(gen, c, g, prev) && NeedsRegeneration(gen, c, g, prev)
  {
    var gen := SetpointGenerator(Some(p), Some(Goal(6.3, 0.0, Overshoot, 0.05, 0.1)), Some(Constraints(5.0, 10.0)));
    RegenerationOnProfile(gen, Constraints(4.0, 10.0), Goal(2.0, 0.0, Overshoot, 0.05, 0.1), prev);
  }

  /**
    With the goal and the constraints unchanged and the previous state on
    the profile, the test as written regenerates anyway; the intended one
    keeps the profile.
   */
  lemma RegenerateAsWrittenUnchangedExample(p: Profile, prev: MotionState)
    requires |p| > 0 && StateByTime(p, prev.t) == Some(prev)
    ensures var gen := SetpointGenerator(Some(p), Some(Goal(6.3, 0.0, Overshoot, 0.05, 0.1)), Some(Constraints(5.0, 10.0)));
      var c := Constraints(5.0, 10.0);
      var g := Goal(6.3, 0.0, Overshoot, 0.05, 0.1);
      RegenerateAsWritten(gen, c, g, prev) && !NeedsRegeneration(gen, c, g, prev)
  {
    var gen := SetpointGenerator(Some(p), Some(Goal(6.3, 0.0, Overshoot, 0.05, 0.1)), Some(Constraints(5.0, 10.0)));
    RegenerationOnProfile(gen, Constraints(5.0, 10.0), Goal(6.3, 0.0, Overshoot, 0.05, 0.1), prev);
  }

  /**
    The setpoint test: set for the move from rest at 0 to 6.3, the setpoint
    at 0.1 is the state on the acceleration segment, not final.
   */
  lemma GetSetpointExample(c: Constraints, g: Goal, prev: MotionState, sqrt: real -> real)
    requires IsExampleProblem(c, g, prev) && IsSqrt(sqrt)
    ensures var gen := SetSetpointGenerator(c, g, prev, sqrt);
      GetSetpoint(gen, c, g, prev, 0.1, sqrt).setpoint == Setpoint(Some(MotionState(0.1, 0.05, 1.0, Finite(10.0))), false)
  {
    ExampleSetFacts(c, g, prev, sqrt);
    SetThenGet(c, g, prev, 0.1, sqrt, MotionState(0.1, 0.05, 1.0, Finite(10.0)));
  }

  /** Setting the generator for the example move caches the example trapezoid, with the facts `SetThenGet` needs. */
  lemma ExampleSetFacts(c: Constraints, g: Goal, prev: MotionState, sqrt: real -> real)
    requires IsExampleProblem(c, g, prev) && IsSqrt(sqrt)
    ensures KeepsFreshProfile(c, g, prev, 0.1, sqrt, MotionState(0.1, 0.05, 1.0, Finite(10.0)))
  {
    ExampleFreshProfile(c, g, prev, sqrt);
    ExampleNotAtGoal(g);
  }

  /** The example trapezoid is what setting for the example move caches, and it keeps. */
  lemma ExampleFreshProfile(c: Constraints, g: Goal, prev: MotionState, sqrt: real -> real)
    requires IsExampleProblem(c, g, prev) && IsSqrt(sqrt)
    ensures var p := SetSetpointGenerator(c, g, prev, sqrt).profile.value;
      && |p| > 0 && StateByTime(p, prev.t) == Some(prev) && IsProfileValid(p)
      && Sample(p, 0.1) == Some(MotionState(0.1, 0.05, 1.0, Finite(10.0))) && |TrimBeforeTime(p, 0.1)| > 0
  {
    GenerateProfileExample(c, g, prev, sqrt);
    var p := ExampleTrapezoid();
    ExampleStateAtStart(p);
    ExampleProfileValid(p);
    ExampleSampleAt(p);
    ExampleTrimAt(p);
  }

  /**
    The fresh profile set for `g` from `prev` holds `prev` at its time, is
    valid, samples to `s` at `t`, lasts past `t`, and `s` is not at the goal.
   */
  ghost predicate KeepsFreshProfile(c: Constraints, g: Goal, prev: MotionState, t: real, sqrt: real -> real, s: MotionState)
  {
    && WellFormedConstraints(c) && WellFormedGoal(g) && IsSqrt(sqrt)
    && var p := SetSetpointGenerator(c, g, prev, sqrt).profile.value;
    && |p| > 0 && StateByTime(p, prev.t) == Some(prev) && IsProfileValid(p)
    && Sample(p, t) == Some(s) && |TrimBeforeTime(p, t)| > 0 && !AtGoalState(g, s)
  }

  /**
    Right after setting, a setpoint at `t` is the sample `s` of the fresh
    profile when that profile keeps, as `KeepsFreshProfile` says.
   */
  lemma SetThenGet(c: Constraints, g: Goal, prev: MotionState, t: real, sqrt: real -> real, s: MotionState)
    requires KeepsFreshProfile(c, g, prev, t, sqrt, s)
    ensures GetSetpoint(SetSetpointGenerator(c, g, prev, sqrt), c, g, prev, t, sqrt).setpoint == Setpoint(Some(s), false)
  {
    var gen := SetSetpointGenerator(c, g, prev, sqrt);
    RegenerationOnProfile(gen, c, g, prev);
    KeptProfileSetpoint(gen, c, g, prev, t, sqrt);
  }

  /**
    A setpoint from a kept, valid profile that is not yet used up is its
    sample, not final unless the sample is at the goal.
   */
  lemma KeptProfileSetpoint(gen: SetpointGenerator, c: Constraints, g: Goal, prev: MotionState, t: real, sqrt: real -> real)
    requires WellFormedConstraints(c) && WellFormedGoal(g) && IsSqrt(sqrt)
    requires !NeedsRegeneration(gen, c, g, prev) && gen.profile.Some?
    requires |gen.profile.value| > 0 && IsProfileValid(gen.profile.value) && |TrimBeforeTime(gen.profile.value, t)| > 0
    requires Sample(gen.profile.value, t).Some? && !AtGoalState(g, Sample(gen.profile.value, t).value)
    ensures GetSetpoint(gen, c, g, prev, t, sqrt) == Step(gen.(profile := Some(TrimBeforeTime(gen.profile.value, t))),
                                                        Setpoint(Sample(gen.profile.value, t), false))
  {
  }

  lemma ExampleNotAtGoal(g: Goal)
    requires g == Goal(6.3, 0.0, Overshoot, 0.05, 0.1)
    ensures !AtGoalState(g, MotionState(0.1, 0.05, 1.0, Finite(10.0)))
  {
  }

  /** The example trapezoid is a valid profile. */
  lemma ExampleProfileValid(p: Profile)
    requires p == ExampleTrapezoid()
    ensures IsProfileValid(p)
  {
    forall i | 0 <= i < |ExampleTrapezoid()|
      ensures IsSegmentValid(ExampleTrapezoid()[i])
    {
      ExampleSegmentValid(i);
    }
    forall i | 0 <= i < |ExampleTrapezoid()| - 1
      ensures Coincident(ExampleTrapezoid()[i].end, ExampleTrapezoid()[i + 1].start)
    {
      ExampleJoint(i);
    }
  }

  lemma ExampleJoint(i: nat)
    requires i < |ExampleTrapezoid()| - 1
    ensures Coincident(ExampleTrapezoid()[i].end, ExampleTrapezoid()[i + 1].start)
  {
  }

  lemma ExampleSegmentValid(i: nat)
    requires i < |ExampleTrapezoid()|
    ensures IsSegmentValid(ExampleTrapezoid()[i])
  {
    var q := ExampleTrapezoid();
    var dt := [0.0, 0.5, 0.76, 0.5][i];
    var acc := [0.0, 10.0, 0.0, -10.0][i];
    var s := q[i].start.(acc := Finite(0.0));
    ControlSegmentValid(s, acc, dt);
    assert q[i] == ControlSegment(s, acc, dt);
  }

  /** Trimming the example at 0.1 keeps the last three segments, so the setpoint is not final. */
  lemma ExampleTrimAt(p: Profile)
    requires p == ExampleTrapezoid()
    ensures |TrimBeforeTime(p, 0.1)| == 3
  {
  }
}
