# Adaptive pure pursuit: motion profiles and path following in Dafny

This project models the core of the AdaptivePurePursuitController, a C
library that drives a robot along a planned path. There are two layers.

- **The motion layer.** It covers:
  - motion states and how they are extrapolated under constant acceleration;
  - motion segments and their validity;
  - profile goals with their completion behaviours, and the constraints;
  - motion profiles, which are lists of segments that are appended, consolidated, trimmed and sampled by time or by position;
  - the trapezoidal profile generator;
  - the setpoint generator, which caches a profile and regenerates it when its inputs change;
  - the profile follower, a PID-plus-feed-forward controller with integral anti-windup and output clamping.
- **The path layer.** It covers:
  - the speed-dependent lookahead distance;
  - path segments, which are straight lines or arcs with their own speed profiles;
  - the path: the closest point, the remaining distance, the walk that places the lookahead point, and dropping a finished head segment.

## How the model is built

Each C file becomes one module:

| module | C file |
|---|---|
| `Utils` | Utils.c |
| `States` | MotionState.c |
| `Segments` | MotionSegment.c |
| `Goals` | MotionProfileGoal.c |
| `Profiles` | MotionProfile.c |
| `Generator` | MotionProfileGenerator.c |
| `Setpoints` | SetpointGenerator.c |
| `Follower` | ProfileFollower.c |
| `Lookaheads` | Lookahead.c |
| `PathSegments` | PathSegment.c |
| `Paths` | Path.c |

`Geometry` holds the rational part of the planar vector helpers.

How the C data and arithmetic are represented:

- **Lists.** Linked lists are immutable sequences. Operations that update in place return the new value.
- **Doubles.** They are exact reals.
  - A NaN result is `Option.None`.
  - The infinite accelerations the generator writes are `Accel.PosInf` and `Accel.NegInf`.
  - Where the C code passes a value through `fmin`/`fmax`, the value is an extended real (`Utils.Ext`), so the clamps treat NaN and infinities as the C library does.
- **Square root and arc geometry.** These are parameters:
  - `sqrt` is a `real -> real` function, required to satisfy `IsSqrt`;
  - arc length, arc remaining distance, arc closest point and arc point-by-distance come from a `PathSegments.Measures` record that is only required to give non-negative lengths.

## Model

| member | source | states |
|---|---|---|
| `Utils.SignNum` | utils/Utils.c:3-5 | the sign is -1 exactly for negative numbers and +1 otherwise (zero counts as positive) |
| `Utils.SignNumTimesAbs` | utils/Utils.c:3-5 | sign times magnitude gives the number back, and the sign squares to one |
| `Utils.EpsilonEqualsIsDistance` | utils/Utils.c:7-9 | two numbers are epsilon-equal iff their distance is at most epsilon |
| `Utils.EpsilonEqualsSymmetric` | utils/Utils.c:7-9 | epsilon-equality does not depend on the order of its arguments |
| `Utils.Clamp` | motion/ProfileFollower.c:109 | fmax(lo, fmin(hi, x)): within [lo, hi] when lo <= hi; NaN and +inf give the larger bound, -inf gives lo |
| `Utils.ClampIdempotent` | path/Lookahead.c:16 | clamping a clamped value changes nothing |
| `Utils.ClampMonotonic` | path/Lookahead.c:16 | clamping keeps the order of its inputs |
| `States.Extrapolate` | motion/MotionState.c:23-34 | the new velocity differs by acceleration times elapsed time; the distance covered is the mean velocity times elapsed time |
| `States.ExtrapolateRoundTrip` | motion/MotionState.c:10-22 | extrapolating forward and back to the original time restores time, position and velocity |
| `States.ExtrapolateCompose` | motion/MotionState.c:23-34 | extrapolating in two steps with the same acceleration equals one step |
| `States.ExtrapolateExample` | tests/test_MotionState.h:6-23 | the test's extrapolation of (1.02, 11.2, 3.5) to 1.025 with acceleration 2 gives position 11.217525 and velocity 3.51 |
| `States.FlippedState` | motion/MotionState.c:110-119 | mirrors position, velocity and acceleration through zero (a finite acceleration is negated, +inf and -inf swap) and keeps the time |
| `States.FlippedStateInvolution` | motion/MotionState.c:110-119 | flipping twice is the identity |
| `States.FlippedStateCommutesWithExtrapolate` | motion/MotionState.c:110-119 | flipping then extrapolating with the negated acceleration equals extrapolating then flipping |
| `States.CoincidentIsDistance` | motion/MotionState.c:135-141 | `Coincident` holds iff time, position and velocity are each within kEpsilon; acceleration is ignored |
| `States.CoincidentSymmetric` | motion/MotionState.c:135-141 | coincidence is symmetric |
| `States.MotionStatesAreEqualImpliesCoincident` | motion/MotionState.c:156-161 | equal states are coincident; coincident states with equal acceleration are equal |
| `States.MotionStatesAreEqualFlipped` | motion/MotionState.c:156-161 | equality is preserved by flipping both states |
| `States.MotionStatesAreEqualIsDistance` | motion/MotionState.c:156-161 | `MotionStatesAreEqual` holds iff the states coincide and their finite accelerations are within kEpsilon, or both carry the same infinite acceleration |
| `States.NextTimeAtPos` | motion/MotionState.c:52-97 | at the position now gives the current time; infinite acceleration gives no time; with no acceleration a time exists iff moving towards the position, and then it reaches it; any time found is not in the past |
| `States.NextTimeAtPosIsFirstRoot` | motion/MotionState.c:52-97 | with non-zero acceleration the time returned is the earliest future time at which the extrapolated position equals the target, and none is returned iff the position is never reached |
| `States.NextTimeAtPosExamples` | tests/test_MotionState.h:26-57 | the test's five cases: at the position, reached at constant speed, behind, never reached under braking, reached at 1.9 under acceleration |
| `Segments.ValidFiniteSegmentIsConsistent` | motion/MotionSegment.c:19-45 | a valid segment with finite acceleration ends where extrapolating its start leads |
| `Segments.ContainsPosition` | motion/MotionSegment.c:72-78 | a position is contained iff it lies between the start and end positions in either order |
| `Segments.ContainsTimeIsInterval` | motion/MotionSegment.c:56-62 | `ContainsTime` holds for the start time iff for the end time iff they are ordered; the contained times are exactly those between start and end, a convex interval |
| `Segments.ControlSegmentValid` | motion/MotionProfile.c:82-98 | a constant-acceleration segment that does not reverse direction is valid |
| `Segments.FlippedSegmentValid` | motion/MotionProfileGenerator.c:26-31 | flipping a segment preserves validity in both directions |
| `Segments.FlippedSegmentContains` | motion/MotionSegment.c:56-78 | a flipped segment contains the same times and the mirrored positions |
| `Segments.SegmentExamples` | tests/test_MotionSegment.h:6-82 | the tests' valid segment, its three invalid variants, and its contained and excluded times and positions |
| `Goals.FlippedGoal` | motion/MotionProfileGoal.c:13-20 | mirrors the goal position and keeps every other field |
| `Goals.FlippedGoalInvolution` | motion/MotionProfileGoal.c:13-20 | flipping a goal twice gives it back |
| `Goals.AtGoalPositionIsDistance` | motion/MotionProfileGoal.c:48-54 | `AtGoalPosition` holds iff the position is within the position tolerance |
| `Goals.AtGoalStateIsDistance` | motion/MotionProfileGoal.c:31-37 | `AtGoalState` holds iff the position is within tolerance and the speed is below the goal speed plus its tolerance, unless the goal lets the velocity limit be violated |
| `Goals.AtGoalStateFlipped` | motion/MotionProfileGoal.c:31-37 | being at the goal state is preserved by flipping goal and state together |
| `Goals.SanityCheck` | motion/MotionProfileGoal.c:65-73 | the behaviour becomes violate-max-accel exactly when it already is, or when it is overshoot with a goal speed above the velocity tolerance; otherwise it is unchanged |
| `Goals.SanityCheckIdempotent` | motion/MotionProfileGoal.c:65-73 | sanity-checking a checked goal changes nothing |
| `Goals.GoalsAreEqual` | motion/MotionProfileGoal.c:84-89 | true iff all five goal fields agree |
| `Goals.ConstraintsAreEqual` | motion/MotionProfileGoal.c:99-104 | true iff both limits agree |
| `Goals.GoalExamples` | tests/test_MotionProfileGoal.h:6-118 | the goal tests: flipping, at-goal state and position, equality of goals and of constraints |
| `Profiles.ClearProfile` | motion/MotionProfile.c:16-28 | a cleared profile is empty |
| `Profiles.ResetProfile` | motion/MotionProfile.c:38-50 | a reset profile is the single stationary segment at the initial state |
| `Profiles.AppendSegment` | motion/MotionProfile.c:62-71 | one segment longer, earlier segments unchanged, the new one last |
| `Profiles.AppendControl` | motion/MotionProfile.c:82-98 | the new last segment starts where the profile ended, with the given acceleration, and ends at that state extrapolated by dt |
| `Profiles.AppendProfileKeepsSegments` | motion/MotionProfile.c:135-145 | the result is the first profile followed by the second, segment by segment, and validity of the appended part carries over |
| `Profiles.Consolidate` | motion/MotionProfile.c:109-124 | keeps the head and exactly the later segments that are not degenerate, in order, never growing the profile |
| `Profiles.ConsolidateSingleton` | motion/MotionProfile.c:109-124 | a lone head is kept, degenerate or not |
| `Profiles.ConsolidateSnoc` | motion/MotionProfile.c:109-124 | consolidating a profile grown by one segment is consolidating the old profile, then keeping the new segment last iff it is not degenerate |
| `Profiles.ConsolidateKeepsValidity` | motion/MotionProfile.c:109-124 | consolidating a profile of valid segments leaves valid segments |
| `Profiles.ConsolidateIdempotent` | motion/MotionProfile.c:109-124 | consolidating twice is consolidating once |
| `Profiles.TrimBeforeTime` | motion/MotionProfile.c:157-178 | drops exactly the leading segments that end by t; the first kept segment starts at its start extrapolated to t when t is past its start and its acceleration is finite, and is otherwise kept unchanged; all later segments are kept |
| `Profiles.TrimBeforeTimeIdempotent` | motion/MotionProfile.c:157-178 | trimming twice at the same time is trimming once |
| `Profiles.TrimBeforeStartUnchanged` | motion/MotionProfile.c:157-178 | trimming before the profile starts leaves it unchanged |
| `Profiles.CheckProfileValid` | motion/MotionProfile.c:193-213 | the scan returns true iff `IsProfileValid`: every segment valid and each ending where the next begins |
| `Profiles.ProfileValidAsWritten` | motion/MotionProfile.c:193-213 | when the scan as written does not crash, it agrees with intended validity |
| `Profiles.ProfileValidAsWrittenExample` | motion/MotionProfile.c:202-203 | the valid profile of the profile tests makes the scan as written read through a null predecessor |
| `Profiles.FlipProfileValid` | motion/MotionProfileGenerator.c:26-31 | flipping a whole profile preserves validity, segment by segment and as a whole |
| `Profiles.FlipProfile` | motion/MotionProfileGenerator.c:26-31 | the flipped profile has the same length and each segment is the mirror image of the original one at the same index |
| `Profiles.FlipProfileInvolution` | motion/MotionProfileGenerator.c:26-31 | flipping a profile twice gives it back |
| `Profiles.SampleContaining` | motion/MotionProfile.c:234-241 | the sample is the extrapolation of the FIRST segment containing the time, at its own acceleration; it has the requested time; none when no segment contains it |
| `Profiles.StateByTime` | motion/MotionProfile.c:223-245 | just before the start gives the head's start, just after the end the tail's end; otherwise the first containing segment's extrapolation, and none when no segment contains the time |
| `Profiles.StateByTimeClamped` | motion/MotionProfile.c:256-278 | any time before the start gives the head's start, any time after the end the tail's end; inside the span the first containing segment's extrapolation, and none when no segment contains the time |
| `Profiles.StateByTimeClampedAgrees` | motion/MotionProfile.c:223-278 | inside the profile's time span both lookups agree with the containing segment's sample |
| `Profiles.StateByTimeFlipped` | motion/MotionProfile.c:223-245 | sampling a flipped profile gives the flipped sample |
| `Profiles.StateByTimeAsWritten` | motion/MotionProfile.c:223-245 | the lookup as written agrees with the intended one except just after the end |
| `Profiles.StateAfterEndAsWritten` | motion/MotionProfile.c:223-278 | just after the end, the lookups as written are right iff the head ends where the tail ends |
| `Profiles.StateByTimeClampedAsWritten` | motion/MotionProfile.c:256-278 | the clamped lookup as written agrees with the intended one up to the end of the profile |
| `Profiles.StateByTimeAsWrittenExample` | tests/test_MotionProfile.h:334-402 | on the tests' profile just after its end, the lookup as written gives (0.5, 2.5) where the tests expect (1.5, 7.5) |
| `Profiles.StateByTimeClampedAsWrittenExample` | motion/MotionProfile.c:264 | on the tests' profile after its end, the clamped lookup as written gives (0.5, 2.5) instead of (1.5, 7.5) |
| `Profiles.FirstStateByPosition` | motion/MotionProfile.c:289-314 | none when no segment contains the position; otherwise from the first containing segment: its end when the end is at the position, none for an infinite acceleration, else the start extrapolated to the next time at the position, or to the segment's end if that comes first |
| `Profiles.FirstStateByPositionIsEarliest` | motion/MotionProfile.c:289-314 | on an accelerating first containing segment, a state is found; no earlier time on the segment's trajectory reaches the position, and if the segment reaches it the state is at the position |
| `Profiles.StateByTimeExamples` | tests/test_MotionProfile.h:334-465 | the tests' lookups before the start, after the end, inside, and outside the profile |
| `Profiles.FirstStateByPositionExamples` | tests/test_MotionProfile.h:468-522 | the tests' position lookups at a segment boundary and inside a segment |
| `Profiles.ProfileValidityExamples` | tests/test_MotionProfile.h:275-331 | a mismatched acceleration or a velocity discontinuity makes the tests' profile invalid |
| `Profiles.AppendControlExample` | tests/test_MotionProfile.h:104-139 | appending acceleration 2.5 for 1.5 s ends at (2.0, 12.8125, 8.75) |
| `Generator.FlippedProblemDoesNotFlip` | motion/MotionProfileGenerator.c:58-64 | a goal that needs a flip no longer needs one after flipping goal and start, so the recursion ends |
| `Generator.ClampStart` | motion/MotionProfileGenerator.c:66-70 | keeps time, position and the sign of the speed and of the acceleration; each magnitude is the smaller of the original and the limit; infinite accelerations become the limit with their sign |
| `Generator.ClampStartWithinLimits` | motion/MotionProfileGenerator.c:66-70 | a start already within the limits is unchanged |
| `Generator.ClampStartFlipped` | motion/MotionProfileGenerator.c:66-70 | clamping commutes with flipping |
| `Generator.Brake` | motion/MotionProfileGenerator.c:74-80 | when moving away from the goal, appends one valid segment that stops the robot further back; otherwise nothing |
| `Generator.OvershootNeedsMotion` | motion/MotionProfileGenerator.c:83-89 | overshooting a goal ahead is only possible while moving |
| `Generator.MaxAbsVelAtGoal` | motion/MotionProfileGenerator.c:85 | the fastest reachable speed at the goal squares to v^2 + 2*a*d |
| `Generator.GoalVelocity` | motion/MotionProfileGenerator.c:128 | the goal speed is within the limit and reachable within the acceleration limit |
| `Generator.CruiseVelocity` | motion/MotionProfileGenerator.c:137 | the peak speed is within the speed limit, meets the intersection of the two acceleration curves unless clamped, and is positive when there is distance to cover |
| `Generator.AccelerateTo` | motion/MotionProfileGenerator.c:139-144 | below the peak, one valid segment reaching it over the matching distance; otherwise nothing |
| `Generator.Cruise` | motion/MotionProfileGenerator.c:150-155 | with distance left, one valid constant-speed segment covering exactly it |
| `Generator.Decelerate` | motion/MotionProfileGenerator.c:157-161 | with braking distance, one valid segment ending at the goal speed over exactly that distance |
| `Generator.TrapezoidFits` | motion/MotionProfileGenerator.c:129-137 | the accelerating and braking distances at the peak speed fit within the distance to the goal |
| `Generator.CruiseAndDecelerateArrives` | motion/MotionProfileGenerator.c:146-161 | the plan ends exactly at the goal position, at the goal speed or the current speed if lower |
| `Generator.PlanForwardArrives` | motion/MotionProfileGenerator.c:128-161 | the forward plan ends exactly at the goal position at the smaller of the goal and peak speeds |
| `Generator.PlanForward` | motion/MotionProfileGenerator.c:128-161 | adds at most three valid segments after the given profile |
| `Generator.StartProfile` | motion/MotionProfileGenerator.c:66-80 | starts at the clamped state, keeps all segments valid, and leaves the robot not moving backwards and not past the goal |
| `Generator.StartWithoutBraking` | motion/MotionProfileGenerator.c:72-80 | a start within the limits that is not moving away from the goal is a single reset segment |
| `Generator.Stop` | motion/MotionProfileGenerator.c:116-118 | appends one valid segment that brings the robot to rest, no further back |
| `Generator.StopAndReturn` | motion/MotionProfileGenerator.c:115-124 | stopping and then solving the problem from the stopped state keeps the head and all segments valid |
| `Generator.OvershootStopsThenReturns` | motion/MotionProfileGenerator.c:115-125 | an unavoidable overshoot first brakes at the acceleration limit to rest beyond the goal, then consolidates with the profile generated from that stopped state |
| `Generator.StopPassesGoal` | motion/MotionProfileGenerator.c:115-118 | the stop starts at the current state with the negated acceleration limit and ends at rest beyond the goal |
| `Generator.StopAndReturnJoins` | motion/MotionProfileGenerator.c:115-125 | stopping and coming back is the consolidation of the profile with the stop, followed by the profile generated from the stopped state |
| `Generator.Dispatch` | motion/MotionProfileGenerator.c:89-161 | each completion behaviour only appends valid segments to the profile so far |
| `Generator.ViolateMaxAbsVelArrives` | motion/MotionProfileGenerator.c:89-161 | when even full braking arrives too fast and the velocity limit may be violated, the plan ends exactly at the goal, at the lowest speed reachable there |
| `Generator.ViolateMaxAccelJumps` | motion/MotionProfileGenerator.c:96-111 | at the goal but too fast, with the acceleration limit violable, exactly one zero-duration segment of infinite deceleration is appended, from the current speed down to the goal speed |
| `Generator.ViolateMaxAccelEndsWithJump` | motion/MotionProfileGenerator.c:96-111 | when that jump exceeds kEpsilon, the generated profile ends with it |
| `Generator.GenerateProfile` | motion/MotionProfileGenerator.c:45-165 | the profile starts with the stationary segment at the clamped start state and every segment is valid |
| `Generator.GenerateForward` | motion/MotionProfileGenerator.c:58-165 | a forward problem within the limits is the consolidated dispatch from a reset profile |
| `Generator.GenerateFlippedProfile` | motion/MotionProfileGenerator.c:16-34 | the flipped solution starts at the clamped start state with all segments valid |
| `Generator.GenerateFlipped` | motion/MotionProfileGenerator.c:16-34 | a problem needing a flip gives `FlipProfile` of the profile generated for the mirrored goal and start, a problem which does not need one |
| `Generator.GenerateProfileExample` | tests/test_MotionProfileGenerator.h:5-25 | the tests' full trapezoid to 6.3 at 5.0 and 10.0 is accelerate, cruise, decelerate |
| `Setpoints.ClearSetpointGenerator` | motion/SetpointGenerator.c:14-30 | clearing forgets profile, goal and constraints |
| `Setpoints.ClearForcesRegeneration` | motion/SetpointGenerator.c:64 | after a clear the next request always regenerates |
| `Setpoints.SetSetpointGenerator` | motion/SetpointGenerator.c:41-48 | stores goal and constraints and a generated profile that starts at the clamped previous state |
| `Setpoints.ChangedInputsRegenerate` | motion/SetpointGenerator.c:64-69 | a change of goal or constraints forces regeneration |
| `Setpoints.RegenerationOnProfile` | motion/SetpointGenerator.c:64-69 | `NeedsRegeneration`, on the cached profile, holds iff the inputs changed; `RegenerateAsWritten` holds iff one of them is missing or unchanged |
| `Setpoints.NoRegenerationAfterSet` | motion/SetpointGenerator.c:64-73 | right after a set with the same inputs and a start within the limits, no regeneration is needed |
| `Setpoints.RegenerateAsWrittenExample` | motion/SetpointGenerator.c:64 | with new constraints and a new goal, the test as written keeps the stale profile |
| `Setpoints.RegenerateAsWrittenUnchangedExample` | motion/SetpointGenerator.c:64 | with unchanged inputs, the test as written throws the cached profile away |
| `Setpoints.Refreshed` | motion/SetpointGenerator.c:64-74 | regenerates exactly when the inputs changed or the profile disagrees with the previous state, otherwise keeps the generator |
| `Setpoints.Sample` | motion/SetpointGenerator.c:79-85 | after the end gives the tail's end, before the start the head's start, inside the span the first containing segment's extrapolation |
| `Setpoints.SampleTime` | motion/SetpointGenerator.c:79-85 | a sample's time is the requested time clamped to the profile's span |
| `Setpoints.SampleAsWritten` | motion/SetpointGenerator.c:81-82 | as written, a time before the tail's start is answered with the tail's start; a time within the tail gets the same state as the corrected lookup |
| `Setpoints.SampleAsWrittenExample` | motion/SetpointGenerator.c:81-82 | on the tests' trapezoid at t = 0.1 the code as written answers (1.26, 5.05) instead of (0.1, 0.05) |
| `Setpoints.Snap` | motion/SetpointGenerator.c:97-102 | the final setpoint sits at the goal position, at rest acceleration, with at least the goal speed in the original direction |
| `Setpoints.Finish` | motion/SetpointGenerator.c:97-102 | only final setpoints are snapped to the goal |
| `Setpoints.GetSetpoint` | motion/SetpointGenerator.c:59-105 | returns the sample of the refreshed profile, trims it, and is final iff the profile runs out or the goal state is reached; an invalid or empty profile echoes the previous state as final |
| `Setpoints.KeptProfileSetpoint` | motion/SetpointGenerator.c:66-88 | with unchanged inputs the setpoint is the cached profile's sample and the cache is trimmed |
| `Setpoints.SetThenGet` | motion/SetpointGenerator.c:41-88 | a set followed by a request samples the freshly generated profile |
| `Setpoints.GetSetpointExample` | tests/test_SetpointGenerator.h:81-111 | the test's first setpoint at 0.1 is (0.1, 0.05, 1.0, 10.0) and not final |
| `Follower.SetProfileFollowerGains` | motion/ProfileFollower.c:16-22 | stores the five gains and changes nothing else |
| `Follower.SetProfileFollowerGoalAndConstraints` | motion/ProfileFollower.c:33-40 | stores goal and constraints and clears the final flag exactly when a different goal replaces an existing one |
| `Follower.SetGoalAndConstraintsIdempotent` | motion/ProfileFollower.c:33-40 | setting the same goal and constraints again changes nothing |
| `Follower.GoalChangeUnfinishes` | motion/ProfileFollower.c:34-37 | a new goal makes the profile unfinished; the same goal keeps the finished state |
| `Follower.GoalChangeRegenerates` | motion/ProfileFollower.c:33-40 | after a goal change the next setpoint request regenerates the profile |
| `Follower.ClearProfileFollower` | motion/ProfileFollower.c:53-66 | forgets all profile state and error, keeps gains and output limits |
| `Follower.ClearIdempotent` | motion/ProfileFollower.c:53-66 | clearing twice is clearing once |
| `Follower.ClearedFollowerIsIdle` | motion/ProfileFollower.c:53-66 | a cleared follower is neither finished nor on target and has no setpoint |
| `Follower.IntegralDt` | motion/ProfileFollower.c:90 | the integration time is the non-negative time elapsed since the previous setpoint |
| `Follower.IntegralDtShiftInvariant` | motion/ProfileFollower.c:90 | the integration time does not depend on where the clock starts |
| `Follower.IntegralDtAsWritten` | motion/ProfileFollower.c:90 | as written, the integration time is the previous setpoint's own clock reading |
| `Follower.IntegralDtAsWrittenExample` | motion/ProfileFollower.c:90 | 10 ms after a setpoint at time 100, the code as written integrates over 100 s, and over 0 s once the clock is shifted |
| `Follower.RawOutput` | motion/ProfileFollower.c:94-98 | proportional, velocity, and feed-forward terms of the errors; NaN without a setpoint; infinite acceleration gives no number |
| `Follower.ControlOutput` | motion/ProfileFollower.c:99-109 | within the output range the error integrates and adds the integral term, otherwise the integral resets; the output is always clamped to the limits |
| `Follower.ControlOutputWithoutIntegral` | motion/ProfileFollower.c:99-109 | with no integral gain an in-range output passes through unchanged |
| `Follower.ProfileFollowerUpdate` | motion/ProfileFollower.c:79-111 | records the measured state, keeps the initial state once set, asks the setpoint generator from the last setpoint, and computes errors and a clamped output |
| `Follower.UpdateFinishes` | motion/ProfileFollower.c:127-133 | after an update `IsProfileFinished` holds iff the new setpoint is final, and the setpoint is the new one |
| `Follower.FinishedUpdateError` | motion/ProfileFollower.c:79-111 | once finished, the position error is the distance to the goal |
| `Follower.SideOfGoal` | motion/ProfileFollower.c:154-156 | -1 exactly for a state past the goal position |
| `Follower.PastGoalIsCrossing` | motion/ProfileFollower.c:154-156 | the start and the robot lie on opposite sides of the goal iff one is past it and the other is not |
| `Follower.OnTargetCharacterised` | motion/ProfileFollower.c:147-159 | `IsProfileOnTarget` holds iff at the goal state, or, unless overshooting is allowed, having crossed the goal |
| `Follower.OnTargetExample` | tests/test_ProfileFollower.h:89-112 | the test's on-target and off-target cases |
| `Follower.FinishedExample` | tests/test_ProfileFollower.h:70-86 | finished follows the final flag of the latest setpoint |
| `Follower.GetProfileSetpoint` | motion/ProfileFollower.c:171-176 | the latest setpoint's state when there is one, and none otherwise |
| `Lookaheads.Interpolated` | path/Lookahead.c:15 | a zero speed span gives an infinite quotient, or NaN when the numerator is also zero |
| `Lookaheads.GetLookaheadForSpeed` | path/Lookahead.c:12-19 | never below the minimum distance, never above the maximum when the limits are ordered, the interpolation when in range, the minimum for NaN |
| `Lookaheads.LookaheadMonotonic` | path/Lookahead.c:12-19 | with a non-negative slope a faster robot never gets a shorter lookahead |
| `Lookaheads.InterpolationMonotonic` | path/Lookahead.c:15 | with a non-negative slope the interpolation keeps the order of the speeds |
| `Lookaheads.LookaheadExample` | robot/RobotMap.h:9-12 | with the robot's constants, 12 to 36 inches between 4 and 12 inches per second, the lookahead is 24 at 8, 12 at rest, 36 above the range |
| `PathSegments.SegmentGoal` | path/PathSegment.c:22-29 | the goal is the segment's length at the end speed, with the library's tolerances and an overshoot behaviour that the sanity check has settled |
| `PathSegments.SegmentGoalAsWritten` | path/PathSegment.c:27 | as written, the behaviour is decided by the segment's maximum speed: violate-max-accel iff it exceeds the velocity tolerance |
| `PathSegments.SegmentGoalAgreement` | path/PathSegment.c:27 | the two goals agree iff the end speed and the maximum speed are on the same side of the tolerance; a stop at the end is mis-classified whenever the segment moves |
| `PathSegments.CreateMotionProfiler` | path/PathSegment.c:15-33 | the speed profile starts at the clamped start state and every segment of it is valid |
| `PathSegments.GetLength` | path/PathSegment.c:44-53 | never negative; a line's length squares to the squared length of its span |
| `PathSegments.LineClosestPoint` | path/PathSegment.c:72-80 | a degenerate line gives its end; otherwise the point is the start, the end, or a point of the segment |
| `PathSegments.LineClosestPointIsClamped` | path/PathSegment.c:72-80 | the closest point is the projection with its scale clamped to [0, 1] |
| `PathSegments.LineClosestPointIsNearest` | path/PathSegment.c:72-80 | no point of the segment is nearer to the query point |
| `PathSegments.LineClosestPointIsNearestAll` | path/PathSegment.c:72-80 | the closest point of a line with distinct ends lies on it, and every point of the segment is at least as far from the query |
| `PathSegments.ClosestPointOfPointOnLine` | path/PathSegment.c:72-80 | a point on the segment is its own closest point |
| `PathSegments.GetClosestPoint` | path/PathSegment.c:66-101 | on a line with distinct ends, a point of the segment no farther from the query than any other point of it; a degenerate line gives its end; arcs use the arc geometry |
| `PathSegments.GetRemainingDistance` | path/PathSegment.c:112-128 | never negative; on a line it is the distance to the end |
| `PathSegments.RemainingAlongLine` | path/PathSegment.c:116-118 | from the point at fraction u of a line, the remaining distance is (1 - u) of its length |
| `PathSegments.GetPointByDistance` | path/PathSegment.c:139-162 | arcs always give a point; a line gives one iff its length is non-zero; on a straight line of positive length, distance d gives the point d over the length of the way along when lookahead may extrapolate or d is within the length, and the end point when d runs past the end without extrapolation |
| `PathSegments.PointBeyondEnd` | path/PathSegment.c:145-147 | without extrapolation, a distance beyond the end gives the end point |
| `PathSegments.PointByDistanceOnLine` | path/PathSegment.c:144-150 | on a line of positive length, distance d within the length, or any d on an extrapolating segment, gives the point at fraction d over length |
| `PathSegments.GetDistanceTravelled` | path/PathSegment.c:173-181 | the distance travelled never exceeds the segment's length |
| `PathSegments.TravelledAlongLine` | path/PathSegment.c:173-181 | from the point at fraction u of a line, the distance travelled is u of its length |
| `PathSegments.DistanceTravelledRoundTrip` | path/PathSegment.c:139-181 | on a line, the point at distance d has travelled exactly d |
| `PathSegments.GetSpeedByDistance` | path/PathSegment.c:192-211 | the distance is moved into the profile's span; then 0 when no segment contains it, the end speed of the first containing segment when it ends there, 0 for an infinite acceleration, else the speed of that segment's start extrapolated to when it reaches the distance or to its end |
| `PathSegments.IntoProfileSpan` | path/PathSegment.c:196-202 | the distance moved into the span from the head's start to the tail's end: unchanged inside it, otherwise the nearer end |
| `PathSegments.SpeedOutsideProfile` | path/PathSegment.c:196-202 | distances beyond either end of the speed profile give the speed at that end |
| `PathSegments.GetSpeedByClosePoint` | path/PathSegment.c:222-227 | the planned speed at the distance travelled to the robot's closest point; on a line of positive length, at the length times the clamped projection scale |
| `PathSegments.TravelledToProjection` | path/PathSegment.c:72-181 | on a line of positive length the distance travelled is the length times the projection scale clamped to [0, 1] |
| `Paths.ExtrapolateLast` | path/Path.c:17-19 | marks only the last segment as extrapolating, keeping every other segment |
| `Paths.ExtrapolateLastIdempotent` | path/Path.c:17-19 | marking the last segment twice is marking it once |
| `Paths.GetLastMotionState` | path/Path.c:30-46 | starts at time and position zero, at rest for an empty path, otherwise with the last speed profile's final speed and acceleration |
| `Paths.ExtrapolateKeepsLastMotionState` | path/Path.c:17-46 | marking the last segment does not change the state a new segment continues from |
| `Paths.CheckSegmentDone` | path/Path.c:57-72 | drops the head segment iff less than the completion tolerance of it remains |
| `Paths.CheckSegmentDoneKeepsTail` | path/Path.c:57-72 | what remains is a non-empty suffix with the same last segment and continuation state |
| `Paths.SumLengthsAppend` | path/Path.c:107-113 | the length of two runs of segments is the sum of their lengths |
| `Paths.RemainingPathDistance` | path/Path.c:107-113 | the distance to the path's end is the head's remaining distance plus the lengths of all later segments |
| `Paths.WalkLookahead` | path/Path.c:118-136 | the lookahead stays on the head iff the head covers it or there is no other segment; otherwise it lands on the first later segment not shorter than what is left, or the last, having subtracted every segment passed |
| `Paths.LocateRobot` | path/Path.c:101-105 | the closest point of the head, the robot's distance to it as the norm of the difference, the distance left to the head's end, which is the length less the distance travelled, and the planned speed at the closest point |
| `Paths.GetTargetPoint` | path/Path.c:91-143 | the target point's closest point, distance, speeds, remaining distances, maximum speed and lookahead point on the segment where the lookahead falls, and the path with a done head dropped |

## Left out

- Arc geometry (path/PathSegment.c:81-100, :119-127, :151-159) needs trigonometry on doubles. The arc length, remaining distance, closest point and point-by-distance are results of the `Measures` parameter, of which only non-negative lengths are assumed. utils/Geometry.c is not part of this model beyond the rational vector helpers.
- Memory management: `malloc`, `free` and list node linking. A profile is the sequence of its linked segments.
- The `length` and `tail` fields of a C profile list are not modelled. `Consolidate` and `TrimBeforeTime` (motion/MotionProfile.c:109-124, :157-178) free nodes without decrementing `length` or moving `tail`. In C, after these calls the counter can exceed the number of linked segments and the tail can point at a freed node. The model always uses the sequence's own length and last element.
- Printing (`PrintProfile`) and the unit-test runner (tests/test_Runner.c) are left out.
- path/PathBuilder.c, path/AdaptivePurePursuit.c and path/PathFollower.c are callers of this core and are not part of this model.
- Floating-point rounding is not modelled: all arithmetic is exact. The only special values modelled are NaN and the infinities the code creates on purpose.
- `Profiles.FirstStateByPositionIsEarliest`: covers a segment with non-zero acceleration whose ends are not at the position. At zero acceleration the constant-speed case has a single root, and at the ends the state is given directly by `Profiles.FirstStateByPosition`'s contract.
- `Profiles.TrimBeforeTime`: a head with infinite acceleration keeps its start. The C code extrapolates it and so stores a state with infinite or NaN fields. Only the instantaneous jump segments carry such an acceleration.
- `Generator.GenerateProfile`: the contract states the clamped start and per-segment validity. It does not state continuity between segments, or that the profile ends at the goal, for every branch. Arrival is proved for the forward plan (`Generator.PlanForwardArrives`, `Generator.CruiseAndDecelerateArrives`) and continuity for the examples.
- `Generator.GenerateProfile`: requires positive speed and acceleration limits, a positive position tolerance, and a non-negative goal speed and velocity tolerance. With a zero limit the C code divides by zero, and the model does not follow the infinities and NaNs that result.
- `Setpoints.GetSetpoint`: the setpoint is final when the trimmed profile is empty or the sample is at the goal state. The C test `!profile->length` (motion/SetpointGenerator.c:88) reads the counter that `TrimBeforeTime` never decrements. So once the profile held segments, the C flag is `AtGoalState` alone, even after the trim has dropped every segment. The model follows the evident intent, that a profile which has run out is final.
- `Setpoints.GetSetpoint`: an empty cached profile makes the C code read through a dangling tail. The model treats it as invalid and echoes the previous state as final.
- `Follower.ProfileFollowerUpdate`: requires goal and constraints to be present and the latest setpoint to hold a state. The C code writes through `goal`, `constraints` and `latestSetpoint` unconditionally (motion/ProfileFollower.c:38-39, :91).
- `Follower.ProfileFollowerUpdate`: motion/ProfileFollower.c:63 and :91 name the field `setppointGenerator`, while motion/Motion.h:89 declares `setpointGenerator`. The declared field is modelled.
- `Paths.ExtrapolateLast`: requires a non-empty path, because the C code writes through the tail unguarded.
- `Paths.CheckSegmentDone`: requires at least two segments when the head is done, because the C code unlinks the head through its successor unguarded (path/Path.c:65).
- `Paths.GetTargetPoint`: carries the same requirement as `Paths.CheckSegmentDone`, and requires every segment to carry a non-empty speed profile.
- `Paths.GetTargetPoint`: path/Path.c:104 reads the remaining segment distance one line before path/Path.c:105 assigns it. The model reads it after the assignment, and does not model the uninitialised read.
- `PathSegments.GetPointByDistance`: a line of zero length makes the C code divide by zero and yield NaN coordinates. The model returns `None`.
- `PathSegments.CreateMotionProfiler`: requires a positive maximum speed and a non-negative end speed, the range for which the generator's limits are well formed.

## Findings

| source | as written | input that shows it | evidently intended | confidence | as-written member | corrected member |
|---|---|---|---|---|---|---|
| motion/SetpointGenerator.c:64 | regenerates when constraints or goal are EQUAL to the cached ones | cached goal 6.3 and constraints (5, 10); new goal 2.0 and constraints (4, 10): the stale profile is kept | regenerate when they differ | high, not executed | `Setpoints.RegenerateAsWrittenExample` | `Setpoints.RegenerationOnProfile` |
| motion/SetpointGenerator.c:81-82 | a time before the TAIL's start returns the tail's start | the tests' trapezoid sampled at t = 0.1 gives (1.26, 5.05) instead of (0.1, 0.05) | compare with, and return, the head's start | high, not executed | `Setpoints.SampleAsWrittenExample` | `Setpoints.SampleTime` |
| motion/ProfileFollower.c:90 | dt = fmax(0, prevState.t) | a setpoint at t = 100 and an update at t = 100.01 integrate over 100 s | dt = fmax(0, t - prevState.t) | high, not executed | `Follower.IntegralDtAsWrittenExample` | `Follower.IntegralDtShiftInvariant` |
| path/PathSegment.c:27 | the overshoot check compares the segment's MAXIMUM speed with the velocity tolerance | end speed 0, maximum speed 5: the goal becomes violate-max-accel, though the goal speed is 0 | the sanity check on the goal speed (motion/MotionProfileGoal.c:65-73, motion/Motion.h:15-17) | medium, not executed | `PathSegments.SegmentGoalAgreement` | `PathSegments.CreateMotionProfiler` |
| motion/MotionProfile.c:202-203 | tests `!prevNode`, then reads through the null predecessor | the tests' valid three-segment profile: the scan reads through a null pointer | compare with the predecessor when there is one | high, not executed | `Profiles.ProfileValidAsWrittenExample` | `Profiles.CheckProfileValid` |
| motion/MotionProfile.c:231 | just after the end returns the HEAD's end | the tests' profile at t = 1.5000001 gives (0.5, 2.5) where the tests expect (1.5, 7.5) | the tail's end | high, not executed | `Profiles.StateByTimeAsWrittenExample` | `Profiles.StateByTime` |
| motion/MotionProfile.c:264 | after the end returns the HEAD's end | the tests' profile at t = 1.6 gives (0.5, 2.5) instead of (1.5, 7.5) | the tail's end | high, not executed | `Profiles.StateByTimeClampedAsWrittenExample` | `Profiles.StateByTimeClamped` |
