/**
  A constant-acceleration piece of a profile and its predicates
  (motion/MotionSegment.c).
 */
module Segments {
  import opened Utils
  import opened States

  datatype MotionSegment = MotionSegment(start: MotionState, end: MotionState)

  /** The velocity changes direction inside the segment, both ends clearly away from zero. */
  predicate Reverses(seg: MotionSegment)
  {
    SignNum(seg.start.vel) * SignNum(seg.end.vel) < 0.0
    && !EpsilonEquals(seg.start.vel, 0.0, kEpsilon)
    && !EpsilonEquals(seg.end.vel, 0.0, kEpsilon)
  }

  /** The end state is what the start state extrapolates to at the end time. */
  predicate Consistent(seg: MotionSegment)
  {
    var e := ExtrapolateWith(seg.start, seg.end.t, seg.start.acc);
    e.Some? && MotionStatesAreEqual(e.value, seg.end)
  }

  /** The one admitted inconsistency: an instantaneous jump under infinite acceleration. */
  predicate IsJump(seg: MotionSegment)
  {
    seg.start.t == seg.end.t && seg.start.acc.IsInfinite()
  }

  /**
    Constant acceleration, no velocity reversal, and consistent end points
    (or an instantaneous jump), checked in the order of the C function:
    valid iff the accelerations agree, the segment does not reverse, and it
    is consistent or a jump.
   */
  predicate IsSegmentValid(seg: MotionSegment)
  {
    if !AccelEpsilonEquals(seg.start.acc, seg.end.acc) then false
    else if Reverses(seg) then false
    else if !Consistent(seg) then IsJump(seg)
    else true
  }

  /** Closed-interval membership of a time. */
  predicate ContainsTime(seg: MotionSegment, t: real)
  {
    t >= seg.start.t && t <= seg.end.t
  }

  /** `pos` lies between the end positions, in whichever order they come. */
  function ContainsPosition(seg: MotionSegment, pos: real): (r: bool)
    ensures r <==> Min(seg.start.pos, seg.end.pos) <= pos <= Max(seg.start.pos, seg.end.pos)
  {
    (pos >= seg.start.pos && pos <= seg.end.pos) || (pos <= seg.start.pos && pos >= seg.end.pos)
  }

  /** The segment in the mirrored position axis. */
  function FlippedSegment(seg: MotionSegment): (r: MotionSegment)
    ensures r.start.t == seg.start.t && r.end.t == seg.end.t
    ensures r.start.pos == -seg.start.pos && r.end.pos == -seg.end.pos
  {
    MotionSegment(FlippedState(seg.start), FlippedState(seg.end))
  }

  /**
    The segment `AppendControl` builds: from `s` (with its acceleration
    replaced) over `dt` under `acc`.
   */
  function ControlSegment(s: MotionState, acc: real, dt: real): (r: MotionSegment)
    ensures r.start.t == s.t && r.start.pos == s.pos && r.start.vel == s.vel && r.start.acc == Finite(acc)
    ensures r.end.t == s.t + dt && r.end.acc == Finite(acc)
    ensures r.end.vel == s.vel + acc * dt
    ensures r.end.pos - s.pos == (s.vel + r.end.vel) / 2.0 * dt
  {
    var start := s.(acc := Finite(acc));
    MotionSegment(start, Extrapolate(start, s.t + dt, acc))
  }

  /** A finite-acceleration segment that is valid ends where its start extrapolates to, within kEpsilon. */
  lemma ValidFiniteSegmentIsConsistent(seg: MotionSegment)
    requires IsSegmentValid(seg) && seg.start.acc.Finite?
    ensures Coincident(Extrapolate(seg.start, seg.end.t, seg.start.acc.value), seg.end)
    ensures seg.end.acc.Finite? && EpsilonEquals(seg.start.acc.value, seg.end.acc.value, kEpsilon)
  {
  }

  /** Both velocities of a product-non-negative pair have the same `SignNum` unless one is zero. */
  lemma SameDirection(x: real, y: real)
    requires x * y >= 0.0 && x != 0.0 && y != 0.0
    ensures SignNum(x) * SignNum(y) > 0.0
  {
    if x > 0.0 {
      PositiveFactor(y, x);
    } else {
      assert (-y) * (-x) == x * y;
      PositiveFactor(-y, -x);
    }
  }

  /**
    Every segment `AppendControl` adds is valid when the velocity does not
    change sign over it.
   */
  lemma {:induction false} ControlSegmentValid(s: MotionState, acc: real, dt: real)
    requires s.vel * (s.vel + acc * dt) >= 0.0
    ensures IsSegmentValid(ControlSegment(s, acc, dt))
  {
    var seg := ControlSegment(s, acc, dt);
    assert seg.end.vel == s.vel + acc * dt;
    if seg.start.vel != 0.0 && seg.end.vel != 0.0 {
      SameDirection(seg.start.vel, seg.end.vel);
    }
    assert !Reverses(seg);
    assert ExtrapolateWith(seg.start, seg.end.t, seg.start.acc) == Some(seg.end);
  }

  /** Validity does not depend on the direction of the position axis. */
  lemma {:induction false} FlippedSegmentValid(seg: MotionSegment)
    ensures IsSegmentValid(FlippedSegment(seg)) <==> IsSegmentValid(seg)
  {
    var f := FlippedSegment(seg);
    AccelEpsilonEqualsNegated(seg.start.acc, seg.end.acc);
    if !EpsilonEquals(seg.start.vel, 0.0, kEpsilon) && !EpsilonEquals(seg.end.vel, 0.0, kEpsilon) {
      SignNumOfNegation(seg.start.vel);
      SignNumOfNegation(seg.end.vel);
    }
    assert Reverses(f) <==> Reverses(seg);
    FlippedStateCommutesWithExtrapolateWith(seg.start, seg.end.t, seg.start.acc);
    var e := ExtrapolateWith(seg.start, seg.end.t, seg.start.acc);
    if e.Some? {
      MotionStatesAreEqualFlipped(e.value, seg.end);
    }
    assert Consistent(f) <==> Consistent(seg);
  }

  /** Mirroring keeps the time interval and mirrors the position interval. */
  lemma FlippedSegmentContains(seg: MotionSegment, t: real, pos: real)
    ensures ContainsTime(FlippedSegment(seg), t) <==> ContainsTime(seg, t)
    ensures ContainsPosition(FlippedSegment(seg), -pos) <==> ContainsPosition(seg, pos)
  {
  }

  /**
    The times a segment contains form the closed interval between its start
    and end times: a segment contains its start time iff it contains its end
    time iff they are in order, and it contains every time between two times
    it contains.
   */
  lemma ContainsTimeIsInterval(seg: MotionSegment, a: real, b: real, t: real)
    ensures ContainsTime(seg, seg.start.t) <==> seg.start.t <= seg.end.t
    ensures ContainsTime(seg, seg.end.t) <==> seg.start.t <= seg.end.t
    ensures ContainsTime(seg, a) && ContainsTime(seg, b) && a <= t <= b ==> ContainsTime(seg, t)
    ensures ContainsTime(seg, t) ==> ContainsTime(seg, seg.start.t) && seg.start.t <= t <= seg.end.t
  {
  }

  /** The segment of the segment tests: (2.0, 2.5, 9.0, 0) to (2.5, 7.0, 9.0, 0) and its variants. */
  lemma SegmentExamples()
    ensures var seg := MotionSegment(MotionState(2.0, 2.5, 9.0, Finite(0.0)), MotionState(2.5, 7.0, 9.0, Finite(0.0)));
      && IsSegmentValid(seg)
      && !IsSegmentValid(seg.(start := seg.start.(acc := Finite(1.0))))
      && !IsSegmentValid(seg.(start := seg.start.(vel := -9.0)))
      && !IsSegmentValid(seg.(start := seg.start.(vel := 2.0)))
      && ContainsTime(seg, 2.1) && !ContainsTime(seg, 2.6)
      && ContainsPosition(seg, 3.4) && !ContainsPosition(seg, 7.2)
  {
    var seg := MotionSegment(MotionState(2.0, 2.5, 9.0, Finite(0.0)), MotionState(2.5, 7.0, 9.0, Finite(0.0)));
    assert Extrapolate(seg.start, 2.5, 0.0) == seg.end;
    var inconsistent := seg.(start := seg.start.(vel := 2.0));
    assert Extrapolate(inconsistent.start, 2.5, 0.0).pos == 3.5;
  }

  /** A segment that starts and ends at one finite-acceleration state is valid. */
  lemma DegenerateSegmentValid(s: MotionState)
    requires s.acc.Finite?
    ensures IsSegmentValid(MotionSegment(s, s))
  {
    ExtrapolateToOwnTime(s, s.acc.value);
    SignNumTimesAbs(s.vel);
  }

  /**
    The instantaneous velocity jump under infinite deceleration is valid when
    it does not reverse the direction of travel.
   */
  lemma JumpSegmentValid(s: MotionState, vel: real)
    requires s.vel >= 0.0 && vel >= 0.0
    ensures IsSegmentValid(MotionSegment(s.(acc := NegInf), s.(vel := vel, acc := NegInf)))
  {
  }
}
