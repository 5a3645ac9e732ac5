/**
  Point-in-time kinematic samples and their constant-acceleration algebra
  (motion/MotionState.c).
 */
module States {
  import opened Utils

  /**
    An acceleration. Every acceleration the code computes is finite except the
    instantaneous velocity jump the generator emits (`-INFINITY`), whose mirror
    image under `FlippedState` is `+INFINITY`.
   */
  datatype Accel = Finite(value: real) | PosInf | NegInf
  {
    predicate IsInfinite() { !Finite? }
  }

  /** IEEE negation of an acceleration. */
  function NegateAccel(a: Accel): (r: Accel)
    ensures r.IsInfinite() <==> a.IsInfinite()
  {
    match a
    case Finite(x) => Finite(-x)
    case PosInf => NegInf
    case NegInf => PosInf
  }

  /**
    `EpsilonEquals(a, b, kEpsilon)` on accelerations with IEEE infinities:
    an infinity is within epsilon only of the same infinity.
   */
  predicate AccelEpsilonEquals(a: Accel, b: Accel)
  {
    match (a, b)
    case (Finite(x), Finite(y)) => EpsilonEquals(x, y, kEpsilon)
    case (PosInf, PosInf) => true
    case (NegInf, NegInf) => true
    case _ => false
  }

  datatype MotionState = MotionState(t: real, pos: real, vel: real, acc: Accel)

  /**
    The state reached from `s` at time `t` under constant acceleration `acc`
    (any `t`, past or future). The contract is the mean-velocity law rather
    than the Taylor polynomial the body evaluates.
   */
  function Extrapolate(s: MotionState, t: real, acc: real): (r: MotionState)
    ensures r.t == t && r.acc == Finite(acc)
    ensures r.vel - s.vel == acc * (t - s.t)
    ensures r.pos - s.pos == (s.vel + r.vel) / 2.0 * (t - s.t)
  {
    var dt := t - s.t;
    MotionState(t, s.pos + s.vel * dt + 0.5 * acc * dt * dt, s.vel + acc * dt, Finite(acc))
  }

  /** Extrapolating forward and back with the same acceleration restores t, pos and vel. */
  lemma ExtrapolateRoundTrip(s: MotionState, t: real, acc: real)
    ensures var back := Extrapolate(Extrapolate(s, t, acc), s.t, acc);
            back.t == s.t && back.pos == s.pos && back.vel == s.vel
  {
    var e := Extrapolate(s, t, acc);
    var dt := t - s.t;
    assert e.vel == s.vel + acc * dt;
    assert e.pos == s.pos + s.vel * dt + 0.5 * acc * dt * dt;
    var back := Extrapolate(e, s.t, acc);
    assert back.vel == e.vel - acc * dt;
    assert back.pos == e.pos - e.vel * dt + 0.5 * acc * dt * dt;
  }

  /** Extrapolation with a fixed acceleration composes: going via `t1` changes nothing. */
  lemma ExtrapolateCompose(s: MotionState, t1: real, t2: real, acc: real)
    ensures Extrapolate(Extrapolate(s, t1, acc), t2, acc) == Extrapolate(s, t2, acc)
  {
    var d1 := t1 - s.t;
    var d2 := t2 - t1;
    assert t2 - s.t == d1 + d2;
    var e1 := Extrapolate(s, t1, acc);
    assert e1.pos == s.pos + s.vel * d1 + 0.5 * acc * d1 * d1;
    assert e1.vel == s.vel + acc * d1;
    assert (d1 + d2) * (d1 + d2) == d1 * d1 + 2.0 * d1 * d2 + d2 * d2;
    assert e1.vel * d2 == s.vel * d2 + acc * d1 * d2;
  }

  /** Extrapolating to the state's own time only replaces its acceleration. */
  lemma ExtrapolateToOwnTime(s: MotionState, acc: real)
    ensures Extrapolate(s, s.t, acc) == s.(acc := Finite(acc))
  {
  }

  /** The worked example of the state tests: (1.02, 11.2, 3.5) to t = 1.025 under 2.0. */
  lemma ExtrapolateExample()
    ensures Extrapolate(MotionState(1.02, 11.2, 3.5, Finite(2.1)), 1.025, 2.0)
         == MotionState(1.025, 11.217525, 3.51, Finite(2.0))
  {
  }

  /**
    `Extrapolate` called with a stored acceleration, which may be infinite.
    With an infinite acceleration the C arithmetic yields NaN or infinite
    position and velocity; that state is absent here.
   */
  function ExtrapolateWith(s: MotionState, t: real, acc: Accel): (r: Option<MotionState>)
    ensures r.Some? <==> acc.Finite?
    ensures r.Some? ==> r.value.t == t && r.value.acc == acc
    ensures r.Some? ==> r.value.vel - s.vel == acc.value * (t - s.t)
  {
    match acc
    case Finite(a) => Some(Extrapolate(s, t, a))
    case _ => None
  }

  /** The same motion seen in the mirrored (negated) position axis. */
  function FlippedState(s: MotionState): (r: MotionState)
    ensures r.t == s.t && r.pos + s.pos == 0.0 && r.vel + s.vel == 0.0
    ensures r.acc.IsInfinite() <==> s.acc.IsInfinite()
    ensures s.acc.Finite? ==> r.acc == Finite(-s.acc.value)
    ensures s.acc == PosInf <==> r.acc == NegInf
    ensures s.acc == NegInf <==> r.acc == PosInf
  {
    MotionState(s.t, -s.pos, -s.vel, NegateAccel(s.acc))
  }

  lemma FlippedStateInvolution(s: MotionState)
    ensures FlippedState(FlippedState(s)) == s
  {
  }

  /** Mirroring commutes with extrapolation under the mirrored acceleration. */
  lemma FlippedStateCommutesWithExtrapolate(s: MotionState, t: real, acc: real)
    ensures FlippedState(Extrapolate(s, t, acc)) == Extrapolate(FlippedState(s), t, -acc)
  {
  }

  /** Mirroring commutes with extrapolation under a stored, possibly infinite, acceleration. */
  lemma FlippedStateCommutesWithExtrapolateWith(s: MotionState, t: real, acc: Accel)
    ensures var e := ExtrapolateWith(s, t, acc);
      ExtrapolateWith(FlippedState(s), t, NegateAccel(acc)) == if e.Some? then Some(FlippedState(e.value)) else None
  {
    if acc.Finite? {
      FlippedStateCommutesWithExtrapolate(s, t, acc.value);
    }
  }

  /** Negating both accelerations does not change whether they agree. */
  lemma AccelEpsilonEqualsNegated(a: Accel, b: Accel)
    ensures AccelEpsilonEquals(NegateAccel(a), NegateAccel(b)) <==> AccelEpsilonEquals(a, b)
  {
  }

  /** t, pos and vel agree within kEpsilon; acceleration may differ. */
  predicate Coincident(a: MotionState, b: MotionState)
  {
    EpsilonEquals(a.t, b.t, kEpsilon) && EpsilonEquals(a.pos, b.pos, kEpsilon) && EpsilonEquals(a.vel, b.vel, kEpsilon)
  }

  /** Coincident and the accelerations agree within kEpsilon. */
  predicate MotionStatesAreEqual(a: MotionState, b: MotionState)
  {
    Coincident(a, b) && AccelEpsilonEquals(a.acc, b.acc)
  }

  lemma CoincidentIgnoresAcceleration(a: MotionState, b: MotionState, x: Accel, y: Accel)
    ensures Coincident(a, b) <==> Coincident(a.(acc := x), b.(acc := y))
  {
  }

  lemma CoincidentIsDistance(a: MotionState, b: MotionState)
    ensures Coincident(a, b) <==>
      Abs(a.t - b.t) <= kEpsilon && Abs(a.pos - b.pos) <= kEpsilon && Abs(a.vel - b.vel) <= kEpsilon
  {
  }

  lemma CoincidentSymmetric(a: MotionState, b: MotionState)
    ensures Coincident(a, b) <==> Coincident(b, a)
  {
  }

  lemma MotionStatesAreEqualImpliesCoincident(a: MotionState, b: MotionState)
    ensures MotionStatesAreEqual(a, b) ==> Coincident(a, b)
    ensures Coincident(a, b) && a.acc == b.acc ==> MotionStatesAreEqual(a, b)
  {
  }

  /**
    Equal states: coincident, with finite accelerations within kEpsilon of
    each other or the same infinite acceleration on both.
   */
  lemma MotionStatesAreEqualIsDistance(a: MotionState, b: MotionState)
    ensures MotionStatesAreEqual(a, b) <==>
      Coincident(a, b)
      && if a.acc.Finite? && b.acc.Finite? then Abs(a.acc.value - b.acc.value) <= kEpsilon else a.acc == b.acc
  {
  }

  /** Every state equals itself within tolerance, infinite accelerations included. */
  lemma MotionStatesAreEqualReflexive(a: MotionState)
    ensures MotionStatesAreEqual(a, a)
  {
  }

  /** Equality within tolerance is preserved by mirroring both states. */
  lemma MotionStatesAreEqualFlipped(a: MotionState, b: MotionState)
    ensures MotionStatesAreEqual(FlippedState(a), FlippedState(b)) <==> MotionStatesAreEqual(a, b)
  {
  }

  /** Discriminant of the quadratic 0.5·acc·dt² + vel·dt + (s.pos − pos) = 0, times two. */
  function Discriminant(s: MotionState, pos: real, acc: real): real
  {
    s.vel * s.vel - 2.0 * acc * (s.pos - pos)
  }

  /**
    The next time, not before `s.t`, at which `s` reaches `pos`; `None` (NaN in
    the C code) when it never does. With a near-zero acceleration the motion is
    treated as constant-velocity; otherwise the quadratic is solved. With an
    infinite acceleration every IEEE branch of the quadratic yields NaN.
   */
  function NextTimeAtPos(s: MotionState, pos: real, sqrt: real -> real): (r: Option<real>)
    ensures EpsilonEquals(pos, s.pos, kEpsilon) ==> r == Some(s.t)
    ensures !EpsilonEquals(pos, s.pos, kEpsilon) && s.acc.IsInfinite() ==> r.None?
    ensures r.Some? ==> r.value >= s.t
    ensures !EpsilonEquals(pos, s.pos, kEpsilon) && s.acc.Finite? && EpsilonEquals(s.acc.value, 0.0, kEpsilon) ==>
      && (r.Some? <==> !EpsilonEquals(s.vel, 0.0, kEpsilon) && (pos - s.pos) * s.vel >= 0.0)
      && (r.Some? ==> s.pos + s.vel * (r.value - s.t) == pos)
  {
    if EpsilonEquals(pos, s.pos, kEpsilon) then Some(s.t)
    else match s.acc
      case Finite(acc) =>
        if EpsilonEquals(acc, 0.0, kEpsilon) then
          var deltaPos := pos - s.pos;
          if !EpsilonEquals(s.vel, 0.0, kEpsilon) && deltaPos * s.vel >= 0.0 then
            LinearTimeNonNegative(deltaPos, s.vel);
            Some(deltaPos / s.vel + s.t)
          else None
        else
          var disc := Discriminant(s, pos, acc);
          if disc < 0.0 then None
          else
            var sqrtDisc := sqrt(disc);
            var maxDt := (-s.vel + sqrtDisc) / acc;
            var minDt := (-s.vel - sqrtDisc) / acc;
            if minDt >= 0.0 && (maxDt < 0.0 || minDt < maxDt) then Some(s.t + minDt)
            else if maxDt >= 0.0 then Some(s.t + maxDt)
            else None
      case _ => None
  }

  lemma LinearTimeNonNegative(deltaPos: real, vel: real)
    requires vel != 0.0 && deltaPos * vel >= 0.0
    ensures deltaPos / vel >= 0.0 && vel * (deltaPos / vel) == deltaPos
  {
    if vel > 0.0 {
      PositiveQuotient(deltaPos, vel);
    } else {
      PositiveQuotient(-deltaPos, -vel);
      assert (-deltaPos) / (-vel) == deltaPos / vel;
    }
  }

  lemma PositiveQuotient(d: real, v: real)
    requires v > 0.0 && d * v >= 0.0
    ensures d / v >= 0.0 && v * (d / v) == d
  {
    var q := d / v;
    assert q * v == d;
  }

  /** Position offset after `dt` under acceleration `acc`, minus the target: the quadratic of NextTimeAtPos. */
  lemma ExtrapolatedPositionIsQuadratic(s: MotionState, dt: real, acc: real, pos: real)
    ensures Extrapolate(s, s.t + dt, acc).pos - pos == 0.5 * acc * dt * dt + s.vel * dt + (s.pos - pos)
  {
  }

  /**
    With `sd` a square root of the discriminant, the roots of
    0.5·a·x² + b·x + c are exactly (−b ± sd)/a.
   */
  lemma QuadraticRoots(a: real, b: real, c: real, sd: real, x: real)
    requires a != 0.0 && sd >= 0.0 && sd * sd == b * b - 2.0 * a * c
    ensures 0.5 * a * x * x + b * x + c == 0.0 <==> x == (-b + sd) / a || x == (-b - sd) / a
  {
    var q := 0.5 * a * x * x + b * x + c;
    assert (a * x + b) * (a * x + b) - sd * sd == 2.0 * a * q;
    assert (a * x + b) * (a * x + b) - sd * sd == (a * x + b - sd) * (a * x + b + sd);
    if q == 0.0 {
      ZeroProduct(a * x + b - sd, a * x + b + sd);
      if a * x + b - sd == 0.0 {
        assert a * x == -b + sd;
      } else {
        assert a * x == -b - sd;
      }
    }
    if x == (-b + sd) / a {
      assert a * x + b - sd == 0.0;
      assert 2.0 * a * q == 0.0;
      ZeroProduct(2.0 * a, q);
    } else if x == (-b - sd) / a {
      assert a * x + b + sd == 0.0;
      assert 2.0 * a * q == 0.0;
      ZeroProduct(2.0 * a, q);
    }
  }

  /** A negative discriminant means the quadratic has no root. */
  lemma QuadraticNoRoots(a: real, b: real, c: real, x: real)
    requires a != 0.0 && b * b - 2.0 * a * c < 0.0
    ensures 0.5 * a * x * x + b * x + c != 0.0
  {
    var q := 0.5 * a * x * x + b * x + c;
    assert (a * x + b) * (a * x + b) - (b * b - 2.0 * a * c) == 2.0 * a * q;
    SquareNonNegative(a * x + b);
    assert 2.0 * a * q > 0.0;
  }

  /**
    With a finite acceleration not within kEpsilon of zero, `NextTimeAtPos`
    returns exactly the earliest time not before `s.t` at which extrapolation
    reaches `pos`, and `None` exactly when there is no such time.
   */
  lemma NextTimeAtPosIsFirstRoot(s: MotionState, pos: real, sqrt: real -> real)
    requires IsSqrt(sqrt)
    requires s.acc.Finite? && !EpsilonEquals(s.acc.value, 0.0, kEpsilon)
    requires !EpsilonEquals(pos, s.pos, kEpsilon)
    ensures var r := NextTimeAtPos(s, pos, sqrt);
      && (r.Some? ==> Extrapolate(s, r.value, s.acc.value).pos == pos)
      && (r.Some? ==> forall t :: s.t <= t && Extrapolate(s, t, s.acc.value).pos == pos ==> r.value <= t)
      && (r.None? ==> forall t :: s.t <= t ==> Extrapolate(s, t, s.acc.value).pos != pos)
  {
    var r := NextTimeAtPos(s, pos, sqrt);
    var a := s.acc.value;
    var disc := Discriminant(s, pos, a);
    if disc < 0.0 {
      assert r.None?;
      forall t | s.t <= t
        ensures Extrapolate(s, t, a).pos != pos
      {
        ExtrapolationNeverReaches(s, pos, t);
      }
    } else {
      var sd := sqrt(disc);
      var maxDt := (-s.vel + sd) / a;
      var minDt := (-s.vel - sd) / a;
      NextTimeAtPosQuadratic(s, pos, sqrt);
      EarliestRoot(s.t, maxDt, minDt, r);
      forall t
        ensures Extrapolate(s, t, a).pos == pos <==> t == s.t + maxDt || t == s.t + minDt
      {
        ExtrapolationRoots(s, pos, sd, t);
      }
    }
  }

  /** The quadratic branch of `NextTimeAtPos`, with its root candidates named. */
  lemma NextTimeAtPosQuadratic(s: MotionState, pos: real, sqrt: real -> real)
    requires s.acc.Finite? && !EpsilonEquals(s.acc.value, 0.0, kEpsilon)
    requires !EpsilonEquals(pos, s.pos, kEpsilon)
    requires Discriminant(s, pos, s.acc.value) >= 0.0
    ensures var sd := sqrt(Discriminant(s, pos, s.acc.value));
      var maxDt := (-s.vel + sd) / s.acc.value;
      var minDt := (-s.vel - sd) / s.acc.value;
      NextTimeAtPos(s, pos, sqrt) ==
        if minDt >= 0.0 && (maxDt < 0.0 || minDt < maxDt) then Some(s.t + minDt)
        else if maxDt >= 0.0 then Some(s.t + maxDt)
        else None
  {
  }

  /** The selection among two candidate offsets picks the least non-negative one. */
  lemma EarliestRoot(t0: real, maxDt: real, minDt: real, r: Option<real>)
    requires r == if minDt >= 0.0 && (maxDt < 0.0 || minDt < maxDt) then Some(t0 + minDt)
                  else if maxDt >= 0.0 then Some(t0 + maxDt)
                  else None
    ensures r.Some? ==> (r.value == t0 + minDt || r.value == t0 + maxDt) && r.value >= t0
    ensures r.Some? && maxDt >= 0.0 ==> r.value <= t0 + maxDt
    ensures r.Some? && minDt >= 0.0 ==> r.value <= t0 + minDt
    ensures r.None? <==> maxDt < 0.0 && minDt < 0.0
  {
  }

  lemma ExtrapolationNeverReaches(s: MotionState, pos: real, t: real)
    requires s.acc.Finite? && s.acc.value != 0.0
    requires Discriminant(s, pos, s.acc.value) < 0.0
    ensures Extrapolate(s, t, s.acc.value).pos != pos
  {
    ExtrapolatedPositionIsQuadratic(s, t - s.t, s.acc.value, pos);
    QuadraticNoRoots(s.acc.value, s.vel, s.pos - pos, t - s.t);
  }

  lemma ExtrapolationRoots(s: MotionState, pos: real, sd: real, t: real)
    requires s.acc.Finite? && s.acc.value != 0.0
    requires sd >= 0.0 && sd * sd == Discriminant(s, pos, s.acc.value)
    ensures Extrapolate(s, t, s.acc.value).pos == pos <==>
      t == s.t + (-s.vel + sd) / s.acc.value || t == s.t + (-s.vel - sd) / s.acc.value
  {
    ExtrapolatedPositionIsQuadratic(s, t - s.t, s.acc.value, pos);
    assert s.t + (t - s.t) == t;
    QuadraticRoots(s.acc.value, s.vel, s.pos - pos, sd, t - s.t);
  }

  /** The worked examples of the state tests, from (t, pos, vel) = (1.5, 7.5, 2.0). */
  lemma NextTimeAtPosExamples(sqrt: real -> real)
    requires IsSqrt(sqrt)
    ensures NextTimeAtPos(MotionState(1.5, 7.5, 2.0, Finite(0.0)), 7.5, sqrt) == Some(1.5)
    ensures NextTimeAtPos(MotionState(1.5, 7.5, 2.0, Finite(0.0)), 8.5, sqrt) == Some(2.0)
    ensures NextTimeAtPos(MotionState(1.5, 7.5, 2.0, Finite(0.0)), 6.5, sqrt) == None
    ensures NextTimeAtPos(MotionState(1.5, 7.5, 2.0, Finite(-3.0)), 8.5, sqrt) == None
    ensures NextTimeAtPos(MotionState(1.5, 7.5, 2.0, Finite(2.5)), 8.5, sqrt) == Some(1.9)
  {
    SqrtUnique(sqrt, 9.0, 3.0);
  }
}
