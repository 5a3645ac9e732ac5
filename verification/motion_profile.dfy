/**
  A motion profile: the list of segments the C code keeps as a singly linked
  list with head, tail and length (motion/MotionProfile.c). Here it is a
  sequence; the head is `p[0]`, the tail `Last(p)` and the length `|p|`.
 */
module Profiles {
  import opened Utils
  import opened States
  import opened Segments

  type Profile = seq<MotionSegment>

  function Last(p: Profile): MotionSegment
    requires |p| > 0
  {
    p[|p| - 1]
  }

  /** Frees every node: the profile becomes empty. */
  function ClearProfile(p: Profile): (r: Profile)
    ensures |r| == 0
  {
    []
  }

  /** A profile holding one degenerate segment that starts and ends at `initial`. */
  function ResetProfile(initial: MotionState): (r: Profile)
    ensures |r| == 1 && r[0].start == initial && r[0].end == initial
  {
    [MotionSegment(initial, initial)]
  }

  /** Links a copy of `seg` after the tail (the tail must exist). */
  function AppendSegment(p: Profile, seg: MotionSegment): (r: Profile)
    requires |p| > 0
    ensures |r| == |p| + 1 && r[..|p|] == p && Last(r) == seg
  {
    p + [seg]
  }

  /**
    Appends the segment that continues from the tail's end (t, pos, vel)
    under `acc` for `dt`.
   */
  function AppendControl(p: Profile, acc: real, dt: real): (r: Profile)
    requires |p| > 0
    ensures |r| == |p| + 1 && r[..|p|] == p
    ensures var s := Last(r).start; var e := Last(p).end;
      s.t == e.t && s.pos == e.pos && s.vel == e.vel && s.acc == Finite(acc)
    ensures Last(r).end == Extrapolate(Last(r).start, Last(p).end.t + dt, acc)
  {
    AppendSegment(p, ControlSegment(Last(p).end, acc, dt))
  }

  /** Appends copies of every segment of `q`, in order, one `AppendSegment` at a time. */
  function AppendProfile(p: Profile, q: Profile): (r: Profile)
    requires |p| > 0 || |q| == 0
    ensures |r| == |p| + |q| && r[..|p|] == p && r[|p|..] == q
    decreases |q|
  {
    if |q| == 0 then p
    else
      var r := AppendProfile(AppendSegment(p, q[0]), q[1..]);
      assert r[..|p|] == r[..|p| + 1][..|p|];
      assert r[|p|..] == [q[0]] + q[1..];
      r
  }

  /** Appending keeps every segment of both profiles, each valid if it was. */
  lemma AppendProfileKeepsSegments(p: Profile, q: Profile)
    requires |p| > 0 || |q| == 0
    ensures var r := AppendProfile(p, q);
      (forall i :: 0 <= i < |p| ==> r[i] == p[i]) && (forall i :: 0 <= i < |q| ==> r[|p| + i] == q[i])
    ensures (forall i :: 0 <= i < |q| ==> IsSegmentValid(q[i])) ==>
      forall i :: |p| <= i < |AppendProfile(p, q)| ==> IsSegmentValid(AppendProfile(p, q)[i])
  {
    var r := AppendProfile(p, q);
    assert forall i :: 0 <= i < |p| ==> r[i] == r[..|p|][i];
    assert forall i :: 0 <= i < |q| ==> r[|p| + i] == r[|p|..][i];
    if forall i :: 0 <= i < |q| ==> IsSegmentValid(q[i]) {
      forall i | |p| <= i < |r|
        ensures IsSegmentValid(r[i])
      {
        assert r[i] == q[i - |p|];
      }
    }
  }

  /** A segment whose start and end coincide covers no motion. */
  predicate IsDegenerate(seg: MotionSegment)
  {
    Coincident(seg.start, seg.end)
  }

  /** The segments of `s` that are not degenerate, in order. */
  function KeepMoving(s: seq<MotionSegment>): (r: seq<MotionSegment>)
    ensures |r| <= |s|
    ensures forall i :: 0 <= i < |r| ==> !IsDegenerate(r[i])
    ensures forall seg :: seg in r <==> seg in s && !IsDegenerate(seg)
  {
    if |s| == 0 then []
    else
      var rest := KeepMoving(s[1..]);
      assert forall seg :: seg in s <==> seg == s[0] || seg in s[1..];
      if IsDegenerate(s[0]) then rest else [s[0]] + rest
  }

  /**
    Unlinks every degenerate segment after the head. The head itself is
    always kept, even when degenerate. The C loop (motion/MotionProfile.c:109-124)
    frees the unlinked nodes without decrementing the list's `length` or
    moving its `tail`, so after it the counter can be too large and the tail
    can point at a freed node; a sequence has neither, and the model gives
    the list as it is linked.
   */
  function Consolidate(p: Profile): (r: Profile)
    requires |p| > 0
    ensures 1 <= |r| <= |p| && r[0] == p[0]
    ensures forall i :: 1 <= i < |r| ==> !IsDegenerate(r[i])
    ensures forall seg :: seg in r[1..] <==> seg in p[1..] && !IsDegenerate(seg)
  {
    var r := [p[0]] + KeepMoving(p[1..]);
    assert r[1..] == KeepMoving(p[1..]);
    r
  }

  /** Consolidating keeps only segments that were there, so it keeps every segment valid. */
  lemma ConsolidateKeepsValidity(p: Profile)
    requires |p| > 0
    requires forall i :: 0 <= i < |p| ==> IsSegmentValid(p[i])
    ensures forall i :: 0 <= i < |Consolidate(p)| ==> IsSegmentValid(Consolidate(p)[i])
  {
    var r := Consolidate(p);
    forall i | 1 <= i < |r|
      ensures IsSegmentValid(r[i])
    {
      assert r[i] in r[1..];
    }
  }

  /** Filtering distributes over concatenation. */
  lemma {:induction false} KeepMovingAppend(a: seq<MotionSegment>, b: seq<MotionSegment>)
    ensures KeepMoving(a + b) == KeepMoving(a) + KeepMoving(b)
    decreases |a|
  {
    if |a| == 0 {
      assert a + b == b;
    } else {
      assert (a + b)[1..] == a[1..] + b;
      KeepMovingAppend(a[1..], b);
    }
  }

  /** A lone head is kept as it is, degenerate or not. */
  lemma ConsolidateSingleton(h: MotionSegment)
    ensures Consolidate([h]) == [h]
  {
    assert [h][1..] == [];
  }

  /**
    Consolidating a profile grown by one segment consolidates the old
    profile and keeps the new segment, last, exactly when it is not
    degenerate. With `ConsolidateSingleton` this fixes the order and the
    count of the kept segments by induction on the profile.
   */
  lemma ConsolidateSnoc(p: Profile, s: MotionSegment)
    requires |p| > 0
    ensures Consolidate(p + [s]) == Consolidate(p) + (if IsDegenerate(s) then [] else [s])
  {
    assert (p + [s])[1..] == p[1..] + [s];
    KeepMovingAppend(p[1..], [s]);
    assert [s][1..] == [];
  }

  /** Filtering twice is filtering once. */
  lemma {:induction false} KeepMovingIdempotent(s: seq<MotionSegment>)
    ensures KeepMoving(KeepMoving(s)) == KeepMoving(s)
    decreases |s|
  {
    if |s| > 0 {
      KeepMovingIdempotent(s[1..]);
      if !IsDegenerate(s[0]) {
        var rest := KeepMoving(s[1..]);
        assert ([s[0]] + rest)[1..] == rest;
      }
    }
  }

  /** A consolidated profile is left unchanged by consolidating again. */
  lemma ConsolidateIdempotent(p: Profile)
    requires |p| > 0
    ensures Consolidate(Consolidate(p)) == Consolidate(p)
  {
    var r := Consolidate(p);
    assert r[1..] == KeepMoving(p[1..]);
    KeepMovingIdempotent(p[1..]);
  }

  /**
    Drops the leading segments that end by `t` and starts the first
    remaining one at `t`, extrapolated under its own acceleration, when it
    began earlier. A remaining segment with an infinite acceleration keeps
    its start. The C code (motion/MotionProfile.c:157-178) moves only the
    head: `length` keeps the count from before the trim and `tail` still
    points at the freed last node once every segment is dropped. The model
    gives the list as it is linked.
   */
  function TrimBeforeTime(p: Profile, t: real): (r: Profile)
    ensures |r| <= |p|
    ensures forall i :: 0 <= i < |p| - |r| ==> p[i].end.t <= t
    ensures |r| > 0 ==> r[1..] == p[|p| - |r| + 1..] && r[0].end == p[|p| - |r|].end
    ensures |r| > 0 ==> r[0].end.t > t
    ensures |r| > 0 && r[0].start.acc.Finite? ==> r[0].start.t >= t
    ensures |r| > 0 && p[|p| - |r|].start.t <= t && p[|p| - |r|].start.acc.Finite? ==>
      r[0].start == Extrapolate(p[|p| - |r|].start, t, p[|p| - |r|].start.acc.value)
    ensures |r| > 0 && (p[|p| - |r|].start.t > t || !p[|p| - |r|].start.acc.Finite?) ==> r[0] == p[|p| - |r|]
    decreases |p|
  {
    if |p| == 0 then []
    else if p[0].end.t <= t then TrimBeforeTime(p[1..], t)
    else if p[0].start.t <= t then
      match ExtrapolateWith(p[0].start, t, p[0].start.acc)
      case Some(trimmed) => [p[0].(start := trimmed)] + p[1..]
      case None => p
    else p
  }

  /** Trimming twice at the same time is trimming once. */
  lemma {:induction false} TrimBeforeTimeIdempotent(p: Profile, t: real)
    ensures TrimBeforeTime(TrimBeforeTime(p, t), t) == TrimBeforeTime(p, t)
    decreases |p|
  {
    if |p| > 0 {
      if p[0].end.t <= t {
        TrimBeforeTimeIdempotent(p[1..], t);
      } else if p[0].start.t <= t && p[0].start.acc.Finite? {
        var trimmed := Extrapolate(p[0].start, t, p[0].start.acc.value);
        ExtrapolateToOwnTime(trimmed, p[0].start.acc.value);
        var r := [p[0].(start := trimmed)] + p[1..];
        assert r[0].start == trimmed;
        assert r[1..] == p[1..];
      }
    }
  }

  /** Trimming at or before the start of a profile whose head is not over yet changes nothing. */
  lemma TrimBeforeStartUnchanged(p: Profile, t: real)
    requires |p| > 0 && t <= p[0].start.t && t < p[0].end.t
    ensures TrimBeforeTime(p, t) == p
  {
    if t == p[0].start.t && p[0].start.acc.Finite? {
      ExtrapolateToOwnTime(p[0].start, p[0].start.acc.value);
      assert [p[0].(start := p[0].start)] + p[1..] == p;
    }
  }

  /** Every segment valid, and each ends where the next begins (within kEpsilon). */
  predicate IsProfileValid(p: Profile)
  {
    (forall i :: 0 <= i < |p| ==> IsSegmentValid(p[i]))
    && (forall i :: 0 <= i < |p| - 1 ==> Coincident(p[i].end, p[i + 1].start))
  }

  /**
    The validity scan of the C code: stop at the first invalid segment or
    the first discontinuity with the predecessor. The C function tests
    `!prevNode` (motion/MotionProfile.c:202), which dereferences a null
    predecessor; the test on an existing predecessor is what is meant.
   */
  method CheckProfileValid(p: Profile) returns (valid: bool)
    ensures valid <==> IsProfileValid(p)
  {
    var i := 0;
    while i < |p|
      invariant 0 <= i <= |p|
      invariant forall j :: 0 <= j < i ==> IsSegmentValid(p[j])
      invariant forall j :: 0 <= j < i - 1 ==> Coincident(p[j].end, p[j + 1].start)
    {
      if !IsSegmentValid(p[i]) {
        return false;
      }
      if i > 0 {
        CoincidentSymmetric(p[i].start, p[i - 1].end);
        if !Coincident(p[i].start, p[i - 1].end) {
          return false;
        }
      }
      i := i + 1;
    }
    return true;
  }

  /** The profile in the mirrored position axis. */
  function FlipProfile(p: Profile): (r: Profile)
    ensures |r| == |p|
    ensures forall i :: 0 <= i < |p| ==> r[i] == FlippedSegment(p[i])
  {
    seq(|p|, i requires 0 <= i < |p| => FlippedSegment(p[i]))
  }

  lemma FlipProfileInvolution(p: Profile)
    ensures FlipProfile(FlipProfile(p)) == p
  {
    var r := FlipProfile(FlipProfile(p));
    forall i | 0 <= i < |p|
      ensures r[i] == p[i]
    {
      FlippedStateInvolution(p[i].start);
      FlippedStateInvolution(p[i].end);
    }
  }

  /** Validity does not depend on the direction of the position axis. */
  lemma FlipProfileValid(p: Profile)
    ensures forall i :: 0 <= i < |p| ==> (IsSegmentValid(FlipProfile(p)[i]) <==> IsSegmentValid(p[i]))
    ensures IsProfileValid(FlipProfile(p)) <==> IsProfileValid(p)
  {
    var f := FlipProfile(p);
    forall i | 0 <= i < |p|
      ensures IsSegmentValid(f[i]) <==> IsSegmentValid(p[i])
    {
      FlippedSegmentValid(p[i]);
    }
  }

  /** The index of the first segment, from `from` on, satisfying `f`. */
  function FirstIndex(p: Profile, f: MotionSegment -> bool, from: nat): (r: Option<nat>)
    requires from <= |p|
    ensures r.Some? ==> from <= r.value < |p| && f(p[r.value])
    ensures r.Some? ==> forall j :: from <= j < r.value ==> !f(p[j])
    ensures r.None? ==> forall j :: from <= j < |p| ==> !f(p[j])
    decreases |p| - from
  {
    if from == |p| then None
    else if f(p[from]) then Some(from)
    else FirstIndex(p, f, from + 1)
  }

  /** The first segment whose time interval contains `t`, extrapolated to `t`. */
  function SampleContaining(p: Profile, t: real): (r: Option<MotionState>)
    ensures r.Some? ==> r.value.t == t
    ensures r.Some? ==> exists i :: 0 <= i < |p| && ContainsTime(p[i], t)
    ensures (forall i :: 0 <= i < |p| ==> !ContainsTime(p[i], t)) ==> r.None?
    ensures forall i :: 0 <= i < |p| && ContainsTime(p[i], t) && (forall j :: 0 <= j < i ==> !ContainsTime(p[j], t)) ==>
      r == ExtrapolateWith(p[i].start, t, p[i].start.acc)
  {
    match FirstIndex(p, seg => ContainsTime(seg, t), 0)
    case None => None
    case Some(i) => ExtrapolateWith(p[i].start, t, p[i].start.acc)
  }

  /** Just before the start (within kEpsilon). */
  predicate NearBeforeStart(p: Profile, t: real)
    requires |p| > 0
  {
    t < p[0].start.t && t + kEpsilon >= p[0].start.t
  }

  /** Just after the end (within kEpsilon). */
  predicate NearAfterEnd(p: Profile, t: real)
    requires |p| > 0
  {
    t > Last(p).end.t && t - kEpsilon <= Last(p).end.t
  }

  /**
    The state at time `t`: the head's start or the tail's end when `t` is
    just outside the profile, the first containing segment extrapolated to
    `t` inside it, and absent otherwise. The C code returns the head's end
    in the second case (motion/MotionProfile.c:231); the tail's end is meant.
   */
  function StateByTime(p: Profile, t: real): (r: Option<MotionState>)
    requires |p| > 0
    ensures NearBeforeStart(p, t) ==> r == Some(p[0].start)
    ensures !NearBeforeStart(p, t) && NearAfterEnd(p, t) ==> r == Some(Last(p).end)
    ensures !NearBeforeStart(p, t) && !NearAfterEnd(p, t) ==> r == SampleContaining(p, t)
    ensures !NearBeforeStart(p, t) && !NearAfterEnd(p, t) ==>
      forall i :: 0 <= i < |p| && ContainsTime(p[i], t) && (forall j :: 0 <= j < i ==> !ContainsTime(p[j], t)) ==>
        r == ExtrapolateWith(p[i].start, t, p[i].start.acc)
    ensures !NearBeforeStart(p, t) && !NearAfterEnd(p, t) && (forall i :: 0 <= i < |p| ==> !ContainsTime(p[i], t)) ==> r.None?
  {
    if NearBeforeStart(p, t) then Some(p[0].start)
    else if NearAfterEnd(p, t) then Some(Last(p).end)
    else SampleContaining(p, t)
  }

  /**
    As `StateByTime`, but any time before the start gives the head's start
    and any time after the end gives the tail's end. The C code returns the
    head's end in the second case (motion/MotionProfile.c:264); the tail's
    end is meant.
   */
  function StateByTimeClamped(p: Profile, t: real): (r: Option<MotionState>)
    requires |p| > 0
    ensures t < p[0].start.t ==> r == Some(p[0].start)
    ensures p[0].start.t <= t && t > Last(p).end.t ==> r == Some(Last(p).end)
    ensures p[0].start.t <= t <= Last(p).end.t ==>
      forall i :: 0 <= i < |p| && ContainsTime(p[i], t) && (forall j :: 0 <= j < i ==> !ContainsTime(p[j], t)) ==>
        r == ExtrapolateWith(p[i].start, t, p[i].start.acc)
    ensures p[0].start.t <= t <= Last(p).end.t && (forall i :: 0 <= i < |p| ==> !ContainsTime(p[i], t)) ==> r.None?
  {
    if t < p[0].start.t then Some(p[0].start)
    else if t > Last(p).end.t then Some(Last(p).end)
    else SampleContaining(p, t)
  }

  /** Inside the profile's time span the two lookups agree. */
  lemma StateByTimeClampedAgrees(p: Profile, t: real)
    requires |p| > 0
    requires p[0].start.t <= t <= Last(p).end.t
    ensures StateByTimeClamped(p, t) == StateByTime(p, t) == SampleContaining(p, t)
  {
  }

  /** Sampling the mirrored profile gives the mirrored sample. */
  lemma {:induction false} FirstIndexFlipped(p: Profile, t: real, from: nat)
    requires from <= |p|
    ensures FirstIndex(FlipProfile(p), seg => ContainsTime(seg, t), from) == FirstIndex(p, seg => ContainsTime(seg, t), from)
    decreases |p| - from
  {
    if from < |p| {
      FlippedSegmentContains(p[from], t, 0.0);
      FirstIndexFlipped(p, t, from + 1);
    }
  }

  lemma StateByTimeFlipped(p: Profile, t: real)
    requires |p| > 0
    ensures var s := StateByTime(p, t);
      StateByTime(FlipProfile(p), t) == if s.Some? then Some(FlippedState(s.value)) else None
  {
    var f := FlipProfile(p);
    FirstIndexFlipped(p, t, 0);
    var k := FirstIndex(p, seg => ContainsTime(seg, t), 0);
    if k.Some? {
      FlippedStateCommutesWithExtrapolateWith(p[k.value].start, t, p[k.value].start.acc);
    }
  }

  /**
    `t` is the time `next` at which a position is next reached when that
    happens by `deadline`, and the deadline itself otherwise.
   */
  predicate ReachedBy(next: Option<real>, deadline: real, t: real)
  {
    if next.Some? && next.value <= deadline then t == next.value else t == deadline
  }

  /**
    The first segment, scanning from the head, whose position range holds
    `pos`, sampled where it reaches `pos`: its end state when `pos` is its end
    position, otherwise the state at the earlier of the next time at `pos`
    and the segment's end time (`fmin` ignores the NaN of an unreachable
    position, so the end time is used then).
   */
  function FirstStateByPosition(p: Profile, pos: real, sqrt: real -> real): (r: Option<MotionState>)
    ensures (forall i :: 0 <= i < |p| ==> !ContainsPosition(p[i], pos)) ==> r.None?
    ensures r.Some? ==> exists i :: 0 <= i < |p| && ContainsPosition(p[i], pos) && r.value.t <= p[i].end.t
    ensures forall i :: 0 <= i < |p| && ContainsPosition(p[i], pos) && (forall j :: 0 <= j < i ==> !ContainsPosition(p[j], pos)) ==>
      && (EpsilonEquals(p[i].end.pos, pos, kEpsilon) ==> r == Some(p[i].end))
      && (!EpsilonEquals(p[i].end.pos, pos, kEpsilon) ==> (r.Some? <==> p[i].start.acc.Finite?))
      && (!EpsilonEquals(p[i].end.pos, pos, kEpsilon) && r.Some? ==>
            && r.value == Extrapolate(p[i].start, r.value.t, p[i].start.acc.value)
            && ReachedBy(NextTimeAtPos(p[i].start, pos, sqrt), p[i].end.t, r.value.t))
  {
    match FirstIndex(p, seg => ContainsPosition(seg, pos), 0)
    case None => None
    case Some(i) =>
      var seg := p[i];
      if EpsilonEquals(seg.end.pos, pos, kEpsilon) then Some(seg.end)
      else
        var t := match NextTimeAtPos(seg.start, pos, sqrt)
                 case Some(next) => Min(next, seg.end.t)
                 case None => seg.end.t;
        ExtrapolateWith(seg.start, t, seg.start.acc)
  }

  /**
    On an accelerating segment the state found is the earliest one on the
    segment's trajectory at `pos`: no earlier time reaches it, and when the
    trajectory reaches it before the segment ends the state is there.
   */
  lemma FirstStateByPositionIsEarliest(p: Profile, pos: real, sqrt: real -> real, i: nat)
    requires IsSqrt(sqrt)
    requires i < |p| && ContainsPosition(p[i], pos) && forall j :: 0 <= j < i ==> !ContainsPosition(p[j], pos)
    requires !EpsilonEquals(p[i].end.pos, pos, kEpsilon) && !EpsilonEquals(pos, p[i].start.pos, kEpsilon)
    requires p[i].start.acc.Finite? && !EpsilonEquals(p[i].start.acc.value, 0.0, kEpsilon)
    ensures var r := FirstStateByPosition(p, pos, sqrt); var s := p[i].start;
      && r.Some?
      && (forall t :: s.t <= t < r.value.t ==> Extrapolate(s, t, s.acc.value).pos != pos)
      && ((exists t :: s.t <= t <= p[i].end.t && Extrapolate(s, t, s.acc.value).pos == pos) ==> r.value.pos == pos)
  {
    NextTimeAtPosIsFirstRoot(p[i].start, pos, sqrt);
  }

  /** The three-segment profile of the profile tests: constant 5.0 from (0, 0) to (1.5, 7.5). */
  function CruiseExample(): Profile
  {
    var a := MotionState(0.0, 0.0, 5.0, Finite(0.0));
    var b := MotionState(0.5, 2.5, 5.0, Finite(0.0));
    var c := MotionState(1.0, 5.0, 5.0, Finite(0.0));
    var d := MotionState(1.5, 7.5, 5.0, Finite(0.0));
    [MotionSegment(a, b), MotionSegment(b, c), MotionSegment(c, d)]
  }

  lemma CruiseExampleValid()
    ensures IsProfileValid(CruiseExample())
  {
    var p := CruiseExample();
    assert Extrapolate(p[0].start, 0.5, 0.0) == p[0].end;
    assert Extrapolate(p[1].start, 1.0, 0.0) == p[1].end;
    assert Extrapolate(p[2].start, 1.5, 0.0) == p[2].end;
  }

  /** The worked examples of the profile tests. */
  lemma AppendControlExample()
    ensures var p := [MotionSegment(MotionState(0.0, 0.0, 5.0, Finite(5.0)), MotionState(0.5, 2.5, 5.0, Finite(5.0)))];
      Last(AppendControl(p, 2.5, 1.5)).end == MotionState(2.0, 12.8125, 8.75, Finite(2.5))
  {
  }

  lemma ConsolidateExample()
    ensures var p := CruiseExample();
      var q := [p[0], MotionSegment(p[1].start, p[1].start), p[2].(start := MotionState(1.0, 5.0, 5.0, Finite(0.0)))];
      Consolidate(q) == [p[0], p[2]]
  {
    var p := CruiseExample();
    var q := [p[0], MotionSegment(p[1].start, p[1].start), p[2].(start := MotionState(1.0, 5.0, 5.0, Finite(0.0)))];
    assert q[1..] == [q[1]] + [q[2]];
    KeepMovingAppend([q[1]], [q[2]]);
    assert [q[2]][1..] == [];
  }

  lemma TrimBeforeTimeInsideHeadExample()
    ensures var p := CruiseExample();
      TrimBeforeTime(p, 0.25) == [p[0].(start := MotionState(0.25, 1.25, 5.0, Finite(0.0)))] + p[1..]
  {
    var p := CruiseExample();
    assert Extrapolate(p[0].start, 0.25, 0.0) == MotionState(0.25, 1.25, 5.0, Finite(0.0));
  }

  lemma TrimBeforeTimeAtHeadEndExample()
    ensures var p := CruiseExample();
      TrimBeforeTime(p, 0.5) == [p[1], p[2]]
  {
    var p := CruiseExample();
    var q := [p[1], p[2]];
    assert p[1..] == q;
    assert TrimBeforeTime(p, 0.5) == TrimBeforeTime(q, 0.5);
    TrimBeforeStartUnchanged(q, 0.5);
  }

  lemma StateByTimeExamples()
    ensures var p := CruiseExample();
      && StateByTime(p, -0.0000001) == Some(MotionState(0.0, 0.0, 5.0, Finite(0.0)))
      && StateByTime(p, 1.5000001) == Some(MotionState(1.5, 7.5, 5.0, Finite(0.0)))
      && StateByTime(p, 0.25) == Some(MotionState(0.25, 1.25, 5.0, Finite(0.0)))
      && StateByTime(p, 2.0) == None
      && StateByTimeClamped(p, -0.1) == Some(MotionState(0.0, 0.0, 5.0, Finite(0.0)))
      && StateByTimeClamped(p, 1.6) == Some(MotionState(1.5, 7.5, 5.0, Finite(0.0)))
      && StateByTimeClamped(p, 0.25) == Some(MotionState(0.25, 1.25, 5.0, Finite(0.0)))
  {
    var p := CruiseExample();
    assert FirstIndex(p, seg => ContainsTime(seg, 0.25), 0) == Some(0);
    assert FirstIndex(p, seg => ContainsTime(seg, 2.0), 0) == None;
  }

  lemma FirstStateByPositionExamples(sqrt: real -> real)
    ensures var p := CruiseExample();
      && FirstStateByPosition(p, 5.0, sqrt) == Some(MotionState(1.0, 5.0, 5.0, Finite(0.0)))
      && FirstStateByPosition(p, 3.75, sqrt) == Some(MotionState(0.75, 3.75, 5.0, Finite(0.0)))
  {
    var p := CruiseExample();
    assert FirstIndex(p, seg => ContainsPosition(seg, 5.0), 0) == Some(1);
    assert FirstIndex(p, seg => ContainsPosition(seg, 3.75), 0) == Some(1);
    assert NextTimeAtPos(p[1].start, 3.75, sqrt) == Some(0.75);
  }

  lemma ProfileValidityExamples()
    ensures var p := CruiseExample();
      && !IsProfileValid(p[0 := p[0].(end := p[0].end.(acc := Finite(1.0)))])
      && !IsProfileValid(p[0 := p[0].(end := p[0].end.(vel := 3.0))][1 := p[1].(start := p[1].start.(vel := 4.0))])
  {
    var p := CruiseExample();
    CruiseExampleValid();
    var bad := p[0 := p[0].(end := p[0].end.(acc := Finite(1.0)))];
    assert !IsSegmentValid(bad[0]);
    var q := p[0 := p[0].(end := p[0].end.(vel := 3.0))][1 := p[1].(start := p[1].start.(vel := 4.0))];
    assert !Coincident(q[0].end, q[1].start);
  }

  /**
    The validity scan as motion/MotionProfile.c:193-213 write it, with
    `None` for the null dereference: the continuity test runs only when
    there is no predecessor, so a valid first segment is compared with a
    null one, and later segments are never compared at all.
   */
  function ProfileValidAsWritten(p: Profile): (r: Option<bool>)
    ensures r.Some? ==> (r.value <==> IsProfileValid(p))
  {
    if |p| == 0 then Some(true)
    else if !IsSegmentValid(p[0]) then Some(false)
    else None
  }

  /** As written, the scan fails on the valid profile of the profile tests instead of accepting it. */
  lemma ProfileValidAsWrittenExample()
    ensures IsProfileValid(CruiseExample()) && ProfileValidAsWritten(CruiseExample()).None?
  {
    CruiseExampleValid();
  }

  /** The state at time `t` as motion/MotionProfile.c:223-245 write it: the head's end just after the end. */
  function StateByTimeAsWritten(p: Profile, t: real): (r: Option<MotionState>)
    requires |p| > 0
    ensures NearBeforeStart(p, t) || !NearAfterEnd(p, t) ==> r == StateByTime(p, t)
  {
    if NearBeforeStart(p, t) then Some(p[0].start)
    else if NearAfterEnd(p, t) then Some(p[0].end)
    else SampleContaining(p, t)
  }

  /** The clamped lookup as motion/MotionProfile.c:256-278 write it: the head's end after the end. */
  function StateByTimeClampedAsWritten(p: Profile, t: real): (r: Option<MotionState>)
    requires |p| > 0
    ensures t <= Last(p).end.t ==> r == StateByTimeClamped(p, t)
  {
    if t < p[0].start.t then Some(p[0].start)
    else if t > Last(p).end.t then Some(p[0].end)
    else SampleContaining(p, t)
  }

  /**
    Just after the end, both lookups as written agree with the intended
    ones exactly when the head ends where the tail does.
   */
  lemma StateAfterEndAsWritten(p: Profile, t: real)
    requires |p| > 0 && p[0].start.t <= t && NearAfterEnd(p, t)
    ensures StateByTimeAsWritten(p, t) == StateByTime(p, t) <==> p[0].end == Last(p).end
    ensures StateByTimeClampedAsWritten(p, t) == StateByTimeClamped(p, t) <==> p[0].end == Last(p).end
  {
  }

  /**
    On the profile of the profile tests, just after its end, the lookup as
    written gives the head's end at time 0.5 where the tests expect the
    tail's end at time 1.5.
   */
  lemma StateByTimeAsWrittenExample()
    ensures var p := CruiseExample();
      && StateByTimeAsWritten(p, 1.5000001) == Some(MotionState(0.5, 2.5, 5.0, Finite(0.0)))
      && StateByTime(p, 1.5000001) == Some(MotionState(1.5, 7.5, 5.0, Finite(0.0)))
  {
  }

  /** The same for the clamped lookup, after the end of the tests' profile. */
  lemma StateByTimeClampedAsWrittenExample()
    ensures var p := CruiseExample();
      && StateByTimeClampedAsWritten(p, 1.6) == Some(MotionState(0.5, 2.5, 5.0, Finite(0.0)))
      && StateByTimeClamped(p, 1.6) == Some(MotionState(1.5, 7.5, 5.0, Finite(0.0)))
  {
  }
}
