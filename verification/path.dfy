/**
  The path being followed (path/Path.c): a list of segments consumed from
  the head, the remaining distance along it, and the walk that places the
  lookahead point on the segment it falls in.
 */
module Paths {
  import opened Utils
  import opened States
  import opened Segments
  import opened Profiles
  import opened Geometry
  import opened PathSegments
  import opened Lookaheads

  /** How close to its end the closest point must come for the head segment to count as done. */
  const kSegmentCompletionTolerance: real := 0.1

  /** The segments still to drive, the current one first. */
  type Path = seq<PathSegment>

  /** The segments of the path each carry a speed profile with at least one segment. */
  predicate HasSpeedProfiles(p: Path)
  {
    forall i :: 0 <= i < |p| ==> |p[i].speedController| > 0
  }

  /**
    Lets lookahead points run past the end of the last segment. The C code
    reads the tail pointer unguarded, so the path must not be empty.
   */
  function ExtrapolateLast(p: Path): (r: Path)
    requires |p| > 0
    ensures |r| == |p| && r[..|p| - 1] == p[..|p| - 1]
    ensures r[|p| - 1] == p[|p| - 1].(extrapolateLookahead := true)
  {
    p[..|p| - 1] + [p[|p| - 1].(extrapolateLookahead := true)]
  }

  /** Extrapolating twice is extrapolating once. */
  lemma ExtrapolateLastIdempotent(p: Path)
    requires |p| > 0
    ensures ExtrapolateLast(ExtrapolateLast(p)) == ExtrapolateLast(p)
  {
  }

  /** The state every motion starts from when there is nothing to continue. */
  const RestState := MotionState(0.0, 0.0, 0.0, Finite(0.0))

  /**
    The state a segment appended after the path starts from: at rest and at
    the origin for an empty path, otherwise at the speed and acceleration
    the last segment's speed profile ends with, with time and position
    reset to zero (the next profile runs from its own origin).
   */
  function GetLastMotionState(p: Path): (r: MotionState)
    requires |p| == 0 || |p[|p| - 1].speedController| > 0
    ensures r.t == 0.0 && r.pos == 0.0
    ensures |p| == 0 ==> r == RestState
    ensures |p| > 0 ==> (r.vel == Last(p[|p| - 1].speedController).end.vel
                         && r.acc == Last(p[|p| - 1].speedController).end.acc)
  {
    if |p| > 0 then
      var e := Last(p[|p| - 1].speedController).end;
      MotionState(0.0, 0.0, e.vel, e.acc)
    else RestState
  }

  /** The state a path continues from depends only on its last segment's speed profile. */
  lemma LastMotionStateOfTail(p: Path, q: Path)
    requires |p| > 0 && |q| > 0
    requires p[|p| - 1].speedController == q[|q| - 1].speedController
    requires |p[|p| - 1].speedController| > 0
    ensures GetLastMotionState(p) == GetLastMotionState(q)
  {
  }

  /** Extrapolating the last segment does not change the state the path continues from. */
  lemma ExtrapolateKeepsLastMotionState(p: Path)
    requires |p| > 0 && |p[|p| - 1].speedController| > 0
    ensures GetLastMotionState(ExtrapolateLast(p)) == GetLastMotionState(p)
  {
    LastMotionStateOfTail(ExtrapolateLast(p), p);
  }

  /** The head segment counts as done at `closest` when less than the tolerance of it remains. */
  predicate HeadDone(p: Path, closest: Translation, m: Measures)
    requires SoundMeasures(m) && |p| > 0
  {
    GetRemainingDistance(p[0], closest, m) < kSegmentCompletionTolerance
  }

  /**
    Drops the head segment once `closest` is within the completion
    tolerance of its end. The C code unlinks the head through its successor
    unguarded, so a path of one segment may only be passed when that
    segment is not done.
   */
  function CheckSegmentDone(p: Path, closest: Translation, m: Measures): (r: Path)
    requires SoundMeasures(m) && |p| > 0
    requires |p| >= 2 || !HeadDone(p, closest, m)
    ensures HeadDone(p, closest, m) ==> r == p[1..]
    ensures !HeadDone(p, closest, m) ==> r == p
  {
    if HeadDone(p, closest, m) then p[1..] else p
  }

  /**
    Checking for a done segment only ever removes the head: what is left is
    a non-empty suffix with the same last segment, so the state the path
    continues from is unchanged.
   */
  lemma CheckSegmentDoneKeepsTail(p: Path, closest: Translation, m: Measures)
    requires SoundMeasures(m) && |p| > 0
    requires |p| >= 2 || !HeadDone(p, closest, m)
    requires |p[|p| - 1].speedController| > 0
    ensures var r := CheckSegmentDone(p, closest, m);
      0 < |r| <= |p| && r == p[|p| - |r|..] && r[|r| - 1] == p[|p| - 1]
      && GetLastMotionState(r) == GetLastMotionState(p)
  {
    var r := CheckSegmentDone(p, closest, m);
    LastMotionStateOfTail(r, p);
  }

  /** The total length of a run of segments. */
  function SumLengths(s: seq<PathSegment>, m: Measures): (r: real)
    requires SoundMeasures(m)
    ensures r >= 0.0
    decreases |s|
  {
    if |s| == 0 then 0.0 else SumLengths(s[..|s| - 1], m) + GetLength(s[|s| - 1], m)
  }

  /** The length of two runs of segments one after the other is the sum of their lengths. */
  lemma {:induction false} SumLengthsAppend(a: seq<PathSegment>, b: seq<PathSegment>, m: Measures)
    requires SoundMeasures(m)
    ensures SumLengths(a + b, m) == SumLengths(a, m) + SumLengths(b, m)
    decreases |b|
  {
    if |b| > 0 {
      assert (a + b)[..|a + b| - 1] == a + b[..|b| - 1];
      SumLengthsAppend(a, b[..|b| - 1], m);
    } else {
      assert a + b == a;
    }
  }

  /**
    The data the steering controller reads about the path at the robot's
    position: the closest point on the head segment, its distance and
    planned speed, the distance left on the head and on the whole path,
    and the lookahead point with its segment's maximum speed and its
    planned speed.
   */
  datatype TargetPoint = TargetPoint(closestPoint: Translation, closestPointDistance: real,
                                     closestPointSpeed: real, remainingSegmentDistance: real,
                                     remainingPathDistance: real, maxSpeed: real,
                                     lookaheadPoint: Option<Translation>, lookaheadPointSpeed: real)

  /**
    The lookahead walk has reached segment `j` with `along` of the distance
    `start` left over, having passed every segment from the first after the
    head up to `j`, each shorter than what was left when it was reached.
   */
  ghost predicate WalkedTo(p: Path, start: real, j: int, along: real, m: Measures)
    requires SoundMeasures(m) && 1 <= j <= |p|
  {
    && along == start - SumLengths(p[1..j], m)
    && forall k :: 1 <= k < j ==> GetLength(p[k], m) < start - SumLengths(p[1..k], m)
  }

  /** The distance from the closest point to the end of the path: what remains of the head and all later segments. */
  method RemainingPathDistance(p: Path, remaining: real, m: Measures) returns (total: real)
    requires SoundMeasures(m) && |p| > 0
    ensures total == remaining + SumLengths(p[1..], m)
    ensures total >= remaining
  {
    total := remaining;
    var i := 1;
    while i < |p|
      invariant 1 <= i <= |p|
      invariant total == remaining + SumLengths(p[1..i], m)
    {
      assert p[1..i + 1][..i - 1] == p[1..i];
      total := total + GetLength(p[i], m);
      i := i + 1;
    }
    assert p[1..i] == p[1..];
  }

  /**
    Where a lookahead distance measured from the closest point falls: on
    the head, `lookahead` beyond the robot's progress, when the head's
    remaining distance covers it or there is no other segment; otherwise
    on the first later segment not shorter than what is left of it, or on
    the last segment when every one is shorter.
   */
  method WalkLookahead(p: Path, lookahead: real, remaining: real, m: Measures) returns (j: nat, along: real)
    requires SoundMeasures(m) && |p| > 0
    ensures j < |p|
    ensures j == 0 <==> !(remaining < lookahead && |p| > 1)
    ensures j == 0 ==> along == lookahead + (GetLength(p[0], m) - remaining)
    ensures j > 0 ==> WalkedTo(p, lookahead - remaining, j, along, m) && along > 0.0
                      && (j == |p| - 1 || GetLength(p[j], m) >= along)
  {
    if remaining < lookahead && |p| > 1 {
      j := 1;
      along := lookahead - remaining;
      assert p[1..1] == [];
      while GetLength(p[j], m) < along && j + 1 < |p|
        invariant 1 <= j < |p|
        invariant WalkedTo(p, lookahead - remaining, j, along, m)
        invariant along > 0.0
        decreases |p| - j
      {
        assert p[1..j + 1][..j - 1] == p[1..j];
        along := along - GetLength(p[j], m);
        j := j + 1;
      }
    } else {
      j := 0;
      along := lookahead + (GetLength(p[0], m) - remaining);
    }
  }

  /**
    Where the robot stands relative to a segment: the closest point, the
    robot's distance from it, the distance left to the segment's end, and
    the planned speed there.
   */
  method LocateRobot(seg: PathSegment, robot: Translation, m: Measures)
    returns (closest: Translation, distance: real, remaining: real, speed: real)
    requires SoundMeasures(m) && |seg.speedController| > 0
    ensures closest == GetClosestPoint(seg, robot, m)
    ensures distance == Norm(Delta(robot, closest), m.sqrt)
    ensures remaining == GetRemainingDistance(seg, closest, m)
    ensures GetDistanceTravelled(seg, robot, m) == GetLength(seg, m) - remaining
    ensures speed == GetSpeedByClosePoint(seg, robot, m)
  {
    closest := GetClosestPoint(seg, robot, m);
    distance := Norm(Delta(robot, closest), m.sqrt);
    remaining := GetRemainingDistance(seg, closest, m);
    assert GetDistanceTravelled(seg, robot, m) == GetLength(seg, m) - remaining;
    speed := GetSpeedByDistance(seg, GetDistanceTravelled(seg, robot, m), m.sqrt);
  }

  /**
    The target point for a robot at `robot`, the segment index `j` and the
    distance `along` it where the lookahead point falls, and the path left
    after a done head segment is dropped.

    The lookahead distance is the lookahead for the planned speed at the
    closest point plus the robot's distance from the path, placed by
    `WalkLookahead`. The closest point's speed is looked up after the
    remaining distance is known, as path/Path.c:104-105 evidently intend
    (the C code reads it one line before assigning it).
   */
  method GetTargetPoint(p: Path, l: Lookahead, robot: Translation, m: Measures)
    returns (target: TargetPoint, j: nat, along: real, rest: Path)
    requires SoundMeasures(m) && |p| > 0 && HasSpeedProfiles(p)
    requires |p| >= 2 || !HeadDone(p, GetClosestPoint(p[0], robot, m), m)
    ensures target.closestPoint == GetClosestPoint(p[0], robot, m)
    ensures target.closestPointDistance >= 0.0
    ensures target.closestPointDistance == Norm(Delta(robot, target.closestPoint), m.sqrt)
    ensures target.remainingSegmentDistance == GetRemainingDistance(p[0], target.closestPoint, m)
    ensures target.closestPointSpeed == GetSpeedByClosePoint(p[0], robot, m)
    ensures target.remainingPathDistance == target.remainingSegmentDistance + SumLengths(p[1..], m)
    ensures target.remainingPathDistance >= target.remainingSegmentDistance
    ensures j < |p|
    ensures target.maxSpeed == p[j].maxSpeed
    ensures target.lookaheadPoint == GetPointByDistance(p[j], along, m)
    ensures target.lookaheadPointSpeed == GetSpeedByDistance(p[j], along, m.sqrt)
    ensures var lookahead := GetLookaheadForSpeed(l, target.closestPointSpeed) + target.closestPointDistance;
      && (j == 0 <==> !(target.remainingSegmentDistance < lookahead && |p| > 1))
      && (j == 0 ==> along == lookahead + GetDistanceTravelled(p[0], robot, m))
      && (j > 0 ==> WalkedTo(p, lookahead - target.remainingSegmentDistance, j, along, m) && along > 0.0
                    && (j == |p| - 1 || GetLength(p[j], m) >= along))
    ensures rest == CheckSegmentDone(p, target.closestPoint, m)
  {
    var closest, closestDistance, remaining, closestSpeed := LocateRobot(p[0], robot, m);
    var remainingPath := RemainingPathDistance(p, remaining, m);
    var lookahead := GetLookaheadForSpeed(l, closestSpeed) + closestDistance;
    j, along := WalkLookahead(p, lookahead, remaining, m);
    var segment := p[j];
    target := TargetPoint(closest, closestDistance, closestSpeed, remaining, remainingPath, segment.maxSpeed,
                          GetPointByDistance(segment, along, m), GetSpeedByDistance(segment, along, m.sqrt));
    rest := CheckSegmentDone(p, closest, m);
  }
}
