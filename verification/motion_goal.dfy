/**
  The target of a profile, the limits it must respect, and the predicates
  on them (motion/MotionProfileGoal.c, types from motion/Motion.h).
 */
module Goals {
  import opened Utils
  import opened States

  /** What to do when the goal velocity cannot be met at the goal position. */
  datatype CompletionBehavior = Overshoot | ViolateMaxAccel | ViolateMaxAbsVel | Invalid

  datatype Goal = Goal(pos: real, maxAbsVel: real, completionBehavior: CompletionBehavior,
                       posTolerance: real, velTolerance: real)

  datatype Constraints = Constraints(maxAbsVel: real, maxAbsAcc: real)

  /** The goal in the mirrored position axis: only the position changes sign. */
  function FlippedGoal(g: Goal): (r: Goal)
    ensures r.pos == -g.pos
    ensures r.(pos := g.pos) == g
  {
    g.(pos := -g.pos)
  }

  lemma FlippedGoalInvolution(g: Goal)
    ensures FlippedGoal(FlippedGoal(g)) == g
  {
  }

  /** Position within the goal's position tolerance. */
  predicate AtGoalPosition(g: Goal, pos: real)
  {
    EpsilonEquals(pos, g.pos, g.posTolerance)
  }

  /**
    At the goal position, and slow enough (strictly below the goal speed plus
    its tolerance) unless the goal admits exceeding its speed.
   */
  predicate AtGoalState(g: Goal, s: MotionState)
  {
    AtGoalPosition(g, s.pos) && (Abs(s.vel) < g.maxAbsVel + g.velTolerance || g.completionBehavior == ViolateMaxAbsVel)
  }

  lemma AtGoalPositionIsDistance(g: Goal, pos: real)
    ensures AtGoalPosition(g, pos) <==> Abs(pos - g.pos) <= g.posTolerance
  {
  }

  /**
    At the goal state: within the position tolerance of the goal, and
    strictly slower than the goal speed plus its tolerance unless the goal
    lets the velocity limit be violated.
   */
  lemma AtGoalStateIsDistance(g: Goal, s: MotionState)
    ensures AtGoalState(g, s) <==>
      Abs(s.pos - g.pos) <= g.posTolerance
      && (Abs(s.vel) < g.maxAbsVel + g.velTolerance || g.completionBehavior == ViolateMaxAbsVel)
  {
    AtGoalPositionIsDistance(g, s.pos);
  }

  /** Being at the goal is unaffected by mirroring goal and state together. */
  lemma AtGoalStateFlipped(g: Goal, s: MotionState)
    ensures AtGoalState(FlippedGoal(g), FlippedState(s)) <==> AtGoalState(g, s)
  {
  }

  /**
    Overshooting is only meaningful for a goal velocity within tolerance of
    zero; otherwise the goal is made to violate the acceleration limit.
   */
  function SanityCheck(g: Goal): (r: CompletionBehavior)
    ensures r == ViolateMaxAccel <==>
      g.completionBehavior == ViolateMaxAccel || (g.completionBehavior == Overshoot && g.maxAbsVel > g.velTolerance)
    ensures r != ViolateMaxAccel ==> r == g.completionBehavior
  {
    if g.maxAbsVel > g.velTolerance && g.completionBehavior == Overshoot then ViolateMaxAccel
    else g.completionBehavior
  }

  /** Writing the checked behaviour back and checking again changes nothing. */
  lemma SanityCheckIdempotent(g: Goal)
    ensures SanityCheck(g.(completionBehavior := SanityCheck(g))) == SanityCheck(g)
  {
  }

  /** Field-by-field equality of goals. */
  function GoalsAreEqual(a: Goal, b: Goal): (r: bool)
    ensures r <==> a == b
  {
    a.completionBehavior == b.completionBehavior && a.pos == b.pos && a.maxAbsVel == b.maxAbsVel
    && a.posTolerance == b.posTolerance && a.velTolerance == b.velTolerance
  }

  /** Field-by-field equality of constraints. */
  function ConstraintsAreEqual(a: Constraints, b: Constraints): (r: bool)
    ensures r <==> a == b
  {
    a.maxAbsAcc == b.maxAbsAcc && a.maxAbsVel == b.maxAbsVel
  }

  /** The worked examples of the goal tests. */
  lemma GoalExamples()
    ensures var g := Goal(7.1, 8.5, Overshoot, 0.05, 0.1);
      && FlippedGoal(g) == Goal(-7.1, 8.5, Overshoot, 0.05, 0.1)
      && AtGoalState(g, MotionState(9.5, 7.1, 0.5, Finite(-2.0)))
      && !AtGoalState(g, MotionState(9.5, 7.1, 10.5, Finite(-2.0)))
      && AtGoalPosition(g, 7.1) && !AtGoalPosition(g, 5.2)
      && !GoalsAreEqual(g, g.(posTolerance := 0.1))
      && ConstraintsAreEqual(Constraints(10.2, 13.3), Constraints(10.2, 13.3))
      && !ConstraintsAreEqual(Constraints(10.2, 13.3), Constraints(1.2, 13.3))
  {
  }
}
