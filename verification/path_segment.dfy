/**
  One segment of a path (path/PathSegment.c): a straight line, or an arc
  whose measurements come from the caller, with the speed profile planned
  along it.
 */
module PathSegments {
  import opened Utils
  import opened States
  import opened Segments
  import opened Goals
  import opened Profiles
  import opened Generator
  import opened Geometry

  /** The acceleration limit of path following, in distance units per second squared. */
  const kPathFollowingMaxAccel: real := 10.0

  /**
    A line from `start` to `end`, or an arc about `center` from `start` to
    `end`; `deltaStart` is the line's direction (or the arc's start radius),
    `speedController` the speed profile over the distance along it, and
    `extrapolateLookahead` lets lookahead points run past the end.
   */
  datatype PathSegment = PathSegment(start: Translation, end: Translation, center: Translation,
                                     deltaStart: Translation, deltaEnd: Translation,
                                     maxSpeed: real, isLine: bool, speedController: Profile,
                                     extrapolateLookahead: bool)

  /**
    The measurements this model takes from outside: the square root, and
    the arc length, remaining arc distance, closest arc point and arc point
    by distance, which need trigonometry.
   */
  datatype Measures = Measures(sqrt: real -> real,
                               arcLength: PathSegment -> real,
                               arcRemaining: (PathSegment, Translation) -> real,
                               arcClosestPoint: (PathSegment, Translation) -> Translation,
                               arcPointByDistance: (PathSegment, real) -> Translation)

  /** A true square root, and arc lengths and remaining distances that are never negative. */
  ghost predicate SoundMeasures(m: Measures)
  {
    && IsSqrt(m.sqrt)
    && (forall seg :: m.arcLength(seg) >= 0.0)
    && (forall seg, q :: m.arcRemaining(seg, q) >= 0.0)
  }

  /** A line whose direction runs from its start to its end, as a line is built. */
  predicate IsStraightLine(seg: PathSegment)
  {
    seg.isLine && seg.deltaStart == Delta(seg.start, seg.end)
  }

  /**
    The goal of a segment's speed profile as motion/MotionProfileGoal.c
    builds goals: reach `length` at `endSpeed` within 1e-3 and 1e-2,
    overshooting only when the goal speed is within its tolerance of zero.
   */
  function SegmentGoal(endSpeed: real, length: real): (r: Goal)
    ensures r.pos == length && r.maxAbsVel == endSpeed && r.posTolerance == 0.001 && r.velTolerance == 0.01
    ensures r.completionBehavior == SanityCheck(r.(completionBehavior := Overshoot))
  {
    var g := Goal(length, endSpeed, Overshoot, 0.001, 0.01);
    g.(completionBehavior := SanityCheck(g))
  }

  /**
    The goal exactly as path/PathSegment.c:22-29 builds it: the overshoot
    test compares the segment's maximum speed, not the goal speed, with the
    goal's speed tolerance.
   */
  function SegmentGoalAsWritten(endSpeed: real, maxSpeed: real, length: real): (r: Goal)
    ensures r.pos == length && r.maxAbsVel == endSpeed && r.posTolerance == 0.001 && r.velTolerance == 0.01
    ensures r.completionBehavior == ViolateMaxAccel <==> maxSpeed > 0.01
    ensures r.completionBehavior == Overshoot <==> maxSpeed <= 0.01
  {
    var g := Goal(length, endSpeed, Overshoot, 0.001, 0.01);
    if maxSpeed > g.velTolerance && g.completionBehavior == Overshoot then g.(completionBehavior := ViolateMaxAccel)
    else g
  }

  /** The constraints of a segment's speed profile: its maximum speed and the path acceleration limit. */
  function SegmentConstraints(maxSpeed: real): (r: Constraints)
    ensures r.maxAbsVel == maxSpeed && r.maxAbsAcc == kPathFollowingMaxAccel
  {
    Constraints(maxSpeed, kPathFollowingMaxAccel)
  }

  /**
    The speed profile over a segment of `length` from `start`: the
    generated profile for the segment's goal and constraints. The goal
    follows the overshoot rule of motion/Motion.h:15-17 rather than
    path/PathSegment.c:27, see `SegmentGoalAsWritten`.
   */
  function CreateMotionProfiler(start: MotionState, endSpeed: real, maxSpeed: real, length: real,
                                sqrt: real -> real): (r: Profile)
    requires maxSpeed > 0.0 && endSpeed >= 0.0 && IsSqrt(sqrt)
    ensures r == GenerateProfile(SegmentConstraints(maxSpeed), SegmentGoal(endSpeed, length), start, sqrt)
    ensures |r| >= 1 && r[0].start == ClampStart(SegmentConstraints(maxSpeed), start)
    ensures forall i :: 0 <= i < |r| ==> IsSegmentValid(r[i])
  {
    GenerateProfile(SegmentConstraints(maxSpeed), SegmentGoal(endSpeed, length), start, sqrt)
  }

  /**
    For a segment whose goal speed and maximum speed lie on the same side
    of the speed tolerance, the goal as written and the intended goal agree;
    a stopping segment (goal speed 0) with a positive maximum speed is where
    they part.
   */
  lemma SegmentGoalAgreement(endSpeed: real, maxSpeed: real, length: real)
    requires endSpeed >= 0.0
    ensures (endSpeed > 0.01 <==> maxSpeed > 0.01) <==>
      SegmentGoalAsWritten(endSpeed, maxSpeed, length) == SegmentGoal(endSpeed, length)
    ensures maxSpeed > 0.01 ==>
      SegmentGoalAsWritten(0.0, maxSpeed, length).completionBehavior == ViolateMaxAccel
      && SegmentGoal(0.0, length).completionBehavior == Overshoot
  {
  }

  /** The length of the segment: of the line, or of the arc as measured. */
  function GetLength(seg: PathSegment, m: Measures): (r: real)
    requires SoundMeasures(m)
    ensures r >= 0.0
    ensures seg.isLine ==> r * r == NormSqr(seg.deltaStart)
  {
    if seg.isLine then Norm(seg.deltaStart, m.sqrt) else m.arcLength(seg)
  }

  /**
    The nearest point of a line to `q`: the projection of `q` onto the line
    when it falls between the ends, otherwise the nearer end. For a line
    whose ends coincide the projection is NaN, which fails both tests and
    selects the end.
   */
  function LineClosestPoint(seg: PathSegment, q: Translation): (r: Translation)
    ensures NormSqr(Delta(seg.start, seg.end)) == 0.0 ==> r == seg.end
    ensures r == seg.start || r == seg.end
            || exists u :: 0.0 <= u <= 1.0 && r == PointAlong(seg, u)
  {
    var d := Delta(seg.start, seg.end);
    if NormSqr(d) == 0.0 then seg.end
    else
      var s := ProjectionScale(seg, q);
      if 0.0 <= s <= 1.0 then PointAlong(seg, s)
      else if s < 0.0 then seg.start
      else seg.end
  }

  /** The point a fraction `u` of the way from the start to the end of a line. */
  function PointAlong(seg: PathSegment, u: real): Translation
  {
    Add(seg.start, Scale(Delta(seg.start, seg.end), u))
  }

  /** The squared distance from `q` to the point a fraction `u` of the way along a line. */
  function SqrDistanceAlong(seg: PathSegment, q: Translation, u: real): real
  {
    NormSqr(Delta(q, PointAlong(seg, u)))
  }

  /** Where the projection of `q` falls on a line, as a fraction of the way from its start to its end. */
  function ProjectionScale(seg: PathSegment, q: Translation): real
    requires NormSqr(Delta(seg.start, seg.end)) != 0.0
  {
    Dot(Delta(seg.start, q), Delta(seg.start, seg.end)) / NormSqr(Delta(seg.start, seg.end))
  }

  /** The closest point on the segment to `q`: on a line by projection, on an arc as measured. */
  function GetClosestPoint(seg: PathSegment, q: Translation, m: Measures): (r: Translation)
    ensures seg.isLine ==> r == LineClosestPoint(seg, q)
    ensures !seg.isLine ==> r == m.arcClosestPoint(seg, q)
    ensures seg.isLine && NormSqr(Delta(seg.start, seg.end)) != 0.0 ==>
      && (exists u :: 0.0 <= u <= 1.0 && r == PointAlong(seg, u))
      && (forall u :: 0.0 <= u <= 1.0 ==> NormSqr(Delta(q, r)) <= SqrDistanceAlong(seg, q, u))
    ensures seg.isLine && NormSqr(Delta(seg.start, seg.end)) == 0.0 ==> r == seg.end
  {
    if seg.isLine then
      if NormSqr(Delta(seg.start, seg.end)) != 0.0 then LineClosestPointIsNearestAll(seg, q); LineClosestPoint(seg, q)
      else LineClosestPoint(seg, q)
    else m.arcClosestPoint(seg, q)
  }

  /** The distance from `q` to the end of the segment: straight for a line, along the arc as measured. */
  function GetRemainingDistance(seg: PathSegment, q: Translation, m: Measures): (r: real)
    requires SoundMeasures(m)
    ensures r >= 0.0
    ensures seg.isLine ==> r * r == NormSqr(Delta(seg.end, q))
  {
    if seg.isLine then Norm(Delta(seg.end, q), m.sqrt) else m.arcRemaining(seg, q)
  }

  /**
    The point `dist` along the segment, with `dist` cut to the length
    unless lookahead points may run past the end. On a line of length zero
    the C quotient is NaN, so the point is absent.
   */
  function GetPointByDistance(seg: PathSegment, dist: real, m: Measures): (r: Option<Translation>)
    requires SoundMeasures(m)
    ensures !seg.isLine ==> r.Some?
    ensures seg.isLine ==> (r.Some? <==> GetLength(seg, m) != 0.0)
    ensures IsStraightLine(seg) && GetLength(seg, m) > 0.0 && (seg.extrapolateLookahead || dist <= GetLength(seg, m)) ==>
      r == Some(PointAlong(seg, dist / GetLength(seg, m)))
    ensures IsStraightLine(seg) && GetLength(seg, m) > 0.0 && !seg.extrapolateLookahead && dist > GetLength(seg, m) ==>
      r == Some(PointAlong(seg, 1.0))
  {
    var length := GetLength(seg, m);
    var d := if !seg.extrapolateLookahead && dist > length then length else dist;
    if seg.isLine then
      if length == 0.0 then None
      else
        assert length / length == 1.0;
        Some(Add(seg.start, Scale(seg.deltaStart, d / length)))
    else Some(m.arcPointByDistance(seg, d))
  }

  /** How far along the segment its closest point to `q` lies. */
  function GetDistanceTravelled(seg: PathSegment, q: Translation, m: Measures): (r: real)
    requires SoundMeasures(m)
    ensures r <= GetLength(seg, m)
  {
    GetLength(seg, m) - GetRemainingDistance(seg, GetClosestPoint(seg, q, m), m)
  }

  /**
    The planned speed `dist` along the segment: the distance is moved into
    the profile's position span, and a position no segment reaches gives 0.
    The speed profile must hold a segment (its head and tail are read).
   */
  function GetSpeedByDistance(seg: PathSegment, dist: real, sqrt: real -> real): (r: real)
    requires |seg.speedController| > 0
    ensures var p := seg.speedController; var d := IntoProfileSpan(p, dist);
      && ((forall i :: 0 <= i < |p| ==> !ContainsPosition(p[i], d)) ==> r == 0.0)
      && forall i :: 0 <= i < |p| && ContainsPosition(p[i], d) && (forall j :: 0 <= j < i ==> !ContainsPosition(p[j], d)) ==>
           && (EpsilonEquals(p[i].end.pos, d, kEpsilon) ==> r == p[i].end.vel)
           && (!EpsilonEquals(p[i].end.pos, d, kEpsilon) && !p[i].start.acc.Finite? ==> r == 0.0)
           && (!EpsilonEquals(p[i].end.pos, d, kEpsilon) && p[i].start.acc.Finite? ==>
                 exists t :: ReachedBy(NextTimeAtPos(p[i].start, d, sqrt), p[i].end.t, t)
                             && r == Extrapolate(p[i].start, t, p[i].start.acc.value).vel)
  {
    var p := seg.speedController;
    var s := FirstStateByPosition(p, IntoProfileSpan(p, dist), sqrt);
    if s.None? then 0.0 else s.value.vel
  }

  /** `dist` moved into the position span from the profile's head start to its tail end. */
  function IntoProfileSpan(p: Profile, dist: real): (d: real)
    requires |p| > 0
    ensures d == dist || d == p[0].start.pos || d == Last(p).end.pos
    ensures p[0].start.pos <= Last(p).end.pos ==> p[0].start.pos <= d <= Last(p).end.pos
    ensures p[0].start.pos <= dist <= Last(p).end.pos ==> d == dist
  {
    if dist < p[0].start.pos then p[0].start.pos else if dist > Last(p).end.pos then Last(p).end.pos else dist
  }

  /**
    The planned speed at the segment's closest point to `q`; on a straight
    line of positive length, the speed at the distance along it of the
    projection of `q`, moved into the line.
   */
  function GetSpeedByClosePoint(seg: PathSegment, q: Translation, m: Measures): (r: real)
    requires SoundMeasures(m) && |seg.speedController| > 0
    ensures r == GetSpeedByDistance(seg, GetDistanceTravelled(seg, q, m), m.sqrt)
    ensures IsStraightLine(seg) && GetLength(seg, m) > 0.0 ==>
      NormSqr(Delta(seg.start, seg.end)) != 0.0
      && r == GetSpeedByDistance(seg, GetLength(seg, m) * Clamp01(ProjectionScale(seg, q)), m.sqrt)
  {
    if IsStraightLine(seg) && GetLength(seg, m) > 0.0 then
      TravelledToProjection(seg, q, m);
      GetSpeedByDistance(seg, GetDistanceTravelled(seg, q, m), m.sqrt)
    else GetSpeedByDistance(seg, GetDistanceTravelled(seg, q, m), m.sqrt)
  }

  /** On a straight line of positive length, the distance travelled is that of the projection moved into the line. */
  lemma {:induction false} TravelledToProjection(seg: PathSegment, q: Translation, m: Measures)
    requires SoundMeasures(m) && IsStraightLine(seg) && GetLength(seg, m) > 0.0
    ensures NormSqr(Delta(seg.start, seg.end)) != 0.0
    ensures GetDistanceTravelled(seg, q, m) == GetLength(seg, m) * Clamp01(ProjectionScale(seg, q))
  {
    assert NormSqr(Delta(seg.start, seg.end)) != 0.0 by { LineOfPositiveLength(seg, m); }
    var c := Clamp01(ProjectionScale(seg, q));
    assert GetClosestPoint(seg, q, m) == PointAlong(seg, c) by { LineClosestPointIsClamped(seg, q); }
    TravelledToFraction(seg, q, m, c);
  }

  /** When the closest point is the point a fraction `c` along a straight line, `c` of its length has been travelled. */
  lemma TravelledToFraction(seg: PathSegment, q: Translation, m: Measures, c: real)
    requires SoundMeasures(m) && IsStraightLine(seg) && 0.0 <= c <= 1.0
    requires GetClosestPoint(seg, q, m) == PointAlong(seg, c)
    ensures GetDistanceTravelled(seg, q, m) == GetLength(seg, m) * c
  {
    var rem := GetRemainingDistance(seg, PointAlong(seg, c), m);
    TravelledFromClosest(seg, q, m, PointAlong(seg, c));
    RemainingAlongLine(seg, c, m);
    WholeLessRest(GetDistanceTravelled(seg, q, m), GetLength(seg, m), rem, c);
  }

  /** The distance travelled is the length less what remains from the closest point. */
  lemma TravelledFromClosest(seg: PathSegment, q: Translation, m: Measures, pt: Translation)
    requires SoundMeasures(m) && GetClosestPoint(seg, q, m) == pt
    ensures GetDistanceTravelled(seg, q, m) == GetLength(seg, m) - GetRemainingDistance(seg, pt, m)
  {
  }

  /** What is left of a whole once `1 - c` of it remains is `c` of it. */
  lemma WholeLessRest(part: real, len: real, rem: real, c: real)
    requires part == len - rem && rem == (1.0 - c) * len
    ensures part == len * c
  {
    Complement(len, c);
  }

  /**
    Past the end of a forward speed profile the speed is the speed at its
    end, before its start the speed at its start.
   */
  lemma SpeedOutsideProfile(seg: PathSegment, dist: real, sqrt: real -> real)
    requires |seg.speedController| > 0
    requires seg.speedController[0].start.pos <= Last(seg.speedController).end.pos
    ensures dist > Last(seg.speedController).end.pos ==>
      GetSpeedByDistance(seg, dist, sqrt) == GetSpeedByDistance(seg, Last(seg.speedController).end.pos, sqrt)
    ensures dist < seg.speedController[0].start.pos ==>
      GetSpeedByDistance(seg, dist, sqrt) == GetSpeedByDistance(seg, seg.speedController[0].start.pos, sqrt)
  {
  }

  /**
    Unless lookahead points may run past the end, every distance beyond the
    length gives the point at the length.
   */
  lemma PointBeyondEnd(seg: PathSegment, dist: real, m: Measures)
    requires SoundMeasures(m) && !seg.extrapolateLookahead && dist > GetLength(seg, m)
    ensures GetPointByDistance(seg, dist, m) == GetPointByDistance(seg, GetLength(seg, m), m)
  {
  }

  /** The squared distance from `q` to the point a fraction `u` along a line, as a quadratic in `u`. */
  lemma {:induction false} DistanceAlongLine(seg: PathSegment, q: Translation, u: real)
    ensures NormSqr(Delta(q, PointAlong(seg, u)))
      == NormSqr(Delta(seg.start, q)) - 2.0 * u * Dot(Delta(seg.start, q), Delta(seg.start, seg.end))
         + u * u * NormSqr(Delta(seg.start, seg.end))
  {
    var d := Delta(seg.start, seg.end);
    var w := Delta(seg.start, q);
    var n := NormSqr(ScaledOffset(d, w, u));
    assert NormSqr(Delta(q, PointAlong(seg, u))) == n by { OffsetAlongLine(seg, q, u); }
    NormSqrExpansion(d, w, u);
  }

  /** The offset from `q` to the point a fraction `u` along a line, as `d u - w`. */
  lemma OffsetAlongLine(seg: PathSegment, q: Translation, u: real)
    ensures Delta(q, PointAlong(seg, u)) == ScaledOffset(Delta(seg.start, seg.end), Delta(seg.start, q), u)
  {
    var d := Delta(seg.start, seg.end);
    var pt := PointAlong(seg, u);
    assert pt.x == seg.start.x + d.x * u && pt.y == seg.start.y + d.y * u;
    assert pt.x - q.x == d.x * u - (q.x - seg.start.x);
    assert pt.y - q.y == d.y * u - (q.y - seg.start.y);
  }

  /** `d u - w`. */
  function ScaledOffset(d: Translation, w: Translation, u: real): Translation
  {
    Translation(d.x * u - w.x, d.y * u - w.y)
  }

  /** The squared length of `d u - w` as a quadratic in `u`. */
  lemma NormSqrExpansion(d: Translation, w: Translation, u: real)
    ensures NormSqr(ScaledOffset(d, w, u)) == NormSqr(w) - 2.0 * u * Dot(w, d) + u * u * NormSqr(d)
  {
    var e := ScaledOffset(d, w, u);
    PlaneExpansion(e.x, e.y, d.x, d.y, w.x, w.y, u);
  }

  /** The component form of `DistanceAlongLine`. */
  lemma PlaneExpansion(ex: real, ey: real, dx: real, dy: real, wx: real, wy: real, u: real)
    requires ex == dx * u - wx && ey == dy * u - wy
    ensures ex * ex + ey * ey == (wx * wx + wy * wy) - 2.0 * u * (wx * dx + wy * dy) + u * u * (dx * dx + dy * dy)
  {
    SquareExpansion(dx, wx, u);
    SquareExpansion(dy, wy, u);
    SumExpansion(wx * wx, wy * wy, wx * dx, wy * dy, dx * dx, dy * dy, u);
  }

  lemma SquareExpansion(a: real, b: real, u: real)
    ensures (a * u - b) * (a * u - b) == b * b - 2.0 * u * (b * a) + u * u * (a * a)
  {
  }

  lemma SumExpansion(n1: real, n2: real, k1: real, k2: real, d1: real, d2: real, u: real)
    ensures (n1 - 2.0 * u * k1 + u * u * d1) + (n2 - 2.0 * u * k2 + u * u * d2)
      == (n1 + n2) - 2.0 * u * (k1 + k2) + u * u * (d1 + d2)
  {
  }

  /** `n - 2uk + u²D`, the squared distance along a line. */
  function Quadratic(n: real, k: real, dd: real, u: real): real
  {
    n - 2.0 * u * k + u * u * dd
  }

  /** `c` is `s` moved into [0, 1]. */
  function Clamp01(s: real): (r: real)
    ensures 0.0 <= r <= 1.0
  {
    if s < 0.0 then 0.0 else if s > 1.0 then 1.0 else s
  }

  /** On [0, 1] the quadratic with its vertex at `s` is least at `s` moved into [0, 1]. */
  lemma {:induction false} QuadraticLeastAtClamp(n: real, s: real, dd: real, u: real)
    requires dd > 0.0 && 0.0 <= u <= 1.0
    ensures Quadratic(n, s * dd, dd, Clamp01(s)) <= Quadratic(n, s * dd, dd, u)
  {
    var c := Clamp01(s);
    var g := (u - c) * (u + c - 2.0 * s);
    assert g >= 0.0 by { ClampedFactorNonNegative(s, u); }
    assert dd * g >= 0.0 by { NonNegativeProduct(dd, g); }
    QuadraticDifference(n, s, dd, u, c);
  }

  lemma QuadraticDifference(n: real, s: real, dd: real, u: real, c: real)
    ensures Quadratic(n, s * dd, dd, u) - Quadratic(n, s * dd, dd, c) == dd * ((u - c) * (u + c - 2.0 * s))
  {
  }

  /** For `u` in [0, 1], `u` is no nearer to the vertex `s` than `s` moved into [0, 1] is. */
  lemma ClampedFactorNonNegative(s: real, u: real)
    requires 0.0 <= u <= 1.0
    ensures (u - Clamp01(s)) * (u + Clamp01(s) - 2.0 * s) >= 0.0
  {
    var c := Clamp01(s);
    if s < 0.0 {
      NonNegativeProduct(u - c, u + c - 2.0 * s);
    } else if s > 1.0 {
      assert (u - c) * (u + c - 2.0 * s) == (c - u) * (2.0 * s - u - c);
      NonNegativeProduct(c - u, 2.0 * s - u - c);
    } else {
      assert (u - c) * (u + c - 2.0 * s) == (u - c) * (u - c);
      SquareNonNegative(u - c);
    }
  }

  /** The closest point of a line with distinct ends is the projection moved into the segment. */
  lemma LineClosestPointIsClamped(seg: PathSegment, q: Translation)
    requires NormSqr(Delta(seg.start, seg.end)) != 0.0
    ensures LineClosestPoint(seg, q) == PointAlong(seg, Clamp01(ProjectionScale(seg, q)))
  {
    var d := Delta(seg.start, seg.end);
    assert PointAlong(seg, 0.0) == seg.start;
    assert PointAlong(seg, 1.0) == Add(seg.start, d);
  }

  /**
    No point of a line with distinct ends is nearer to `q` than the
    closest point.
   */
  lemma {:induction false} LineClosestPointIsNearest(seg: PathSegment, q: Translation, u: real)
    requires NormSqr(Delta(seg.start, seg.end)) != 0.0 && 0.0 <= u <= 1.0
    ensures NormSqr(Delta(q, LineClosestPoint(seg, q))) <= NormSqr(Delta(q, PointAlong(seg, u)))
  {
    var dd := NormSqr(Delta(seg.start, seg.end));
    var n := NormSqr(Delta(seg.start, q));
    var s := ProjectionScale(seg, q);
    var c := Clamp01(s);
    assert LineClosestPoint(seg, q) == PointAlong(seg, c) by { LineClosestPointIsClamped(seg, q); }
    assert NormSqr(Delta(q, PointAlong(seg, u))) == Quadratic(n, s * dd, dd, u) by { SqrDistanceIsQuadratic(seg, q, u); }
    assert NormSqr(Delta(q, PointAlong(seg, c))) == Quadratic(n, s * dd, dd, c) by { SqrDistanceIsQuadratic(seg, q, c); }
    QuadraticLeastAtClamp(n, s, dd, u);
  }

  /** Along a line with distinct ends, the squared distance to `q` is a quadratic with its vertex at the projection. */
  lemma SqrDistanceIsQuadratic(seg: PathSegment, q: Translation, u: real)
    requires NormSqr(Delta(seg.start, seg.end)) != 0.0
    ensures NormSqr(Delta(q, PointAlong(seg, u)))
      == Quadratic(NormSqr(Delta(seg.start, q)), ProjectionScale(seg, q) * NormSqr(Delta(seg.start, seg.end)), NormSqr(Delta(seg.start, seg.end)), u)
  {
    assert Dot(Delta(seg.start, q), Delta(seg.start, seg.end)) == ProjectionScale(seg, q) * NormSqr(Delta(seg.start, seg.end));
    DistanceAlongLine(seg, q, u);
  }

  /** The closest point of a line with distinct ends lies on it, and no point of it is nearer to `q`. */
  lemma LineClosestPointIsNearestAll(seg: PathSegment, q: Translation)
    requires NormSqr(Delta(seg.start, seg.end)) != 0.0
    ensures exists u :: 0.0 <= u <= 1.0 && LineClosestPoint(seg, q) == PointAlong(seg, u)
    ensures forall u :: 0.0 <= u <= 1.0 ==> NormSqr(Delta(q, LineClosestPoint(seg, q))) <= SqrDistanceAlong(seg, q, u)
  {
    LineClosestPointIsClamped(seg, q);
    forall u | 0.0 <= u <= 1.0
      ensures NormSqr(Delta(q, LineClosestPoint(seg, q))) <= SqrDistanceAlong(seg, q, u)
    {
      LineClosestPointIsNearest(seg, q, u);
    }
  }

  /** A point of a line with distinct ends is its own closest point. */
  lemma {:induction false} ClosestPointOfPointOnLine(seg: PathSegment, u: real)
    requires NormSqr(Delta(seg.start, seg.end)) != 0.0 && 0.0 <= u <= 1.0
    ensures LineClosestPoint(seg, PointAlong(seg, u)) == PointAlong(seg, u)
  {
    var d := Delta(seg.start, seg.end);
    var p := PointAlong(seg, u);
    assert Delta(seg.start, p) == Scale(d, u);
    DotScale(d, d, u);
    assert Dot(d, d) == NormSqr(d);
    assert ProjectionScale(seg, p) == u;
    LineClosestPointIsClamped(seg, p);
  }

  /**
    On a straight line of positive length, the distance travelled at the
    point a distance `d` along it is `d`: `GetDistanceTravelled` undoes
    `GetPointByDistance`.
   */
  lemma {:induction false} DistanceTravelledRoundTrip(seg: PathSegment, d: real, m: Measures)
    requires SoundMeasures(m) && IsStraightLine(seg)
    requires 0.0 <= d <= GetLength(seg, m) && GetLength(seg, m) > 0.0
    ensures GetPointByDistance(seg, d, m).Some?
    ensures GetDistanceTravelled(seg, GetPointByDistance(seg, d, m).value, m) == d
  {
    var u := d / GetLength(seg, m);
    assert 0.0 <= u <= 1.0 && GetLength(seg, m) * u == d by { FractionOfWhole(d, GetLength(seg, m)); }
    assert GetPointByDistance(seg, d, m) == Some(PointAlong(seg, u)) by { PointByDistanceOnLine(seg, d, m); }
    RoundTripAtFraction(seg, d, m, u);
  }

  /** The round trip once the point at distance `d` is known to be the point a fraction `u` along. */
  lemma RoundTripAtFraction(seg: PathSegment, d: real, m: Measures, u: real)
    requires SoundMeasures(m) && IsStraightLine(seg) && GetLength(seg, m) > 0.0
    requires 0.0 <= u <= 1.0 && GetLength(seg, m) * u == d
    requires GetPointByDistance(seg, d, m) == Some(PointAlong(seg, u))
    ensures GetDistanceTravelled(seg, GetPointByDistance(seg, d, m).value, m) == d
  {
    TravelledAlongLine(seg, u, m);
  }

  /** On a straight line of positive length, the point a fraction `u` along it has travelled that fraction of the length. */
  lemma {:induction false} TravelledAlongLine(seg: PathSegment, u: real, m: Measures)
    requires SoundMeasures(m) && IsStraightLine(seg) && GetLength(seg, m) > 0.0 && 0.0 <= u <= 1.0
    ensures GetDistanceTravelled(seg, PointAlong(seg, u), m) == GetLength(seg, m) * u
  {
    LineOfPositiveLength(seg, m);
    ClosestPointOfPointOnLine(seg, u);
    RemainingAlongLine(seg, u, m);
    Complement(GetLength(seg, m), u);
  }

  lemma Complement(len: real, u: real)
    ensures len - (1.0 - u) * len == len * u
  {
  }

  /**
    Within its length, or anywhere when lookahead points may run past the
    end, the point a distance `d` along a straight line is the point
    `d / length` of the way along.
   */
  lemma PointByDistanceOnLine(seg: PathSegment, d: real, m: Measures)
    requires SoundMeasures(m) && IsStraightLine(seg)
    requires (d <= GetLength(seg, m) || seg.extrapolateLookahead) && GetLength(seg, m) > 0.0
    ensures GetPointByDistance(seg, d, m) == Some(PointAlong(seg, d / GetLength(seg, m)))
  {
  }

  /** A straight line of positive length has distinct ends a length apart. */
  lemma LineOfPositiveLength(seg: PathSegment, m: Measures)
    requires SoundMeasures(m) && IsStraightLine(seg) && GetLength(seg, m) > 0.0
    ensures NormSqr(Delta(seg.start, seg.end)) != 0.0
    ensures Norm(Delta(seg.start, seg.end), m.sqrt) == GetLength(seg, m)
  {
    NonZeroSquare(GetLength(seg, m), NormSqr(seg.deltaStart));
  }

  /** The square of a non-zero number is not zero. */
  lemma NonZeroSquare(x: real, n: real)
    requires x != 0.0 && x * x == n
    ensures n != 0.0
  {
    if n == 0.0 {
      ZeroProduct(x, x);
    }
  }

  /** From the point a fraction `u` along a straight line, what remains is the rest of its length. */
  lemma {:induction false} RemainingAlongLine(seg: PathSegment, u: real, m: Measures)
    requires SoundMeasures(m) && IsStraightLine(seg) && 0.0 <= u <= 1.0
    ensures GetRemainingDistance(seg, PointAlong(seg, u), m) == (1.0 - u) * GetLength(seg, m)
  {
    var delta := Delta(seg.start, seg.end);
    assert Delta(seg.end, PointAlong(seg, u)) == Scale(delta, u - 1.0);
    NormScale(delta, u - 1.0, m.sqrt);
  }

  /** A part of a positive whole is a fraction between 0 and 1, and the whole less the rest is the part. */
  lemma FractionOfWhole(d: real, len: real)
    requires 0.0 <= d <= len && len > 0.0
    ensures 0.0 <= d / len <= 1.0
    ensures len * (d / len) == d
  {
  }
}
