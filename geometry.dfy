/**
 * Plane geometry shared by both formation engines (`src/model.ts` and the
 * earlier `src/triangles.ts`): positions and vectors over exact reals.
 *
 * The source computes lengths with `Math.hypot` and the triangle apex offset
 * with the constant sin(60°), both floating point. The model takes them as
 * parameters (a `Geometry`); what the proofs need of them is collected in
 * `Lawful`, which every Euclidean norm satisfies.
 */
module Geometry {

  /** A point of the simulation plane (the source's `Position`). */
  datatype Position = Position(x: real, y: real)

  /** A displacement (the source's `Vector`). */
  datatype Vector = Vector(x: real, y: real)

  /** Two points closer than this are treated as coincident (`Position.CLOSE_ENOUGH`). */
  const CLOSE_ENOUGH: real := 1.0

  /** `Vector.between(a, b)`: the displacement from `a` to `b`. */
  function Between(a: Position, b: Position): Vector {
    Vector(b.x - a.x, b.y - a.y)
  }

  /** `Position.add`. */
  function Add(p: Position, v: Vector): Position {
    Position(p.x + v.x, p.y + v.y)
  }

  /** `Vector.multiply`. */
  function Multiply(v: Vector, n: real): Vector {
    Vector(v.x * n, v.y * n)
  }

  /** `Vector.perpendicular`: the vector turned a quarter turn. */
  function Perpendicular(v: Vector): Vector {
    Vector(-v.y, v.x)
  }

  function Abs(n: real): real {
    if n < 0.0 then -n else n
  }

  function Max(a: real, b: real): real {
    if a < b then b else a
  }

  /** The floating-point primitives of the source, as parameters. */
  datatype Geometry = Geometry(hypot: (real, real) -> real, sin60: real)

  /** `Vector.distance`: the length of a vector, `Math.hypot(x, y)`. */
  function Distance(g: Geometry, v: Vector): real {
    g.hypot(v.x, v.y)
  }

  /** Turning a vector a quarter turn keeps its length. This is all
      `calculateTargets` needs: it normalizes the turned anchor vector. */
  ghost predicate QuarterTurnInvariant(g: Geometry) {
    forall v :: Distance(g, Perpendicular(v)) == Distance(g, v)
  }

  /** What the proofs assume of `Math.hypot`: it is a norm (non-negative, zero
      only for the zero vector, scaling with its argument) that does not change
      when a vector is turned a quarter turn. */
  ghost predicate Lawful(g: Geometry) {
    && (forall v :: Distance(g, v) >= 0.0)
    && (forall v :: Distance(g, v) == 0.0 ==> v == Vector(0.0, 0.0))
    && QuarterTurnInvariant(g)
    && Homogeneous(g)
  }

  /** Scaling a vector by `n` scales its length by `|n|`. */
  ghost predicate Homogeneous(g: Geometry) {
    forall v, n :: Distance(g, Multiply(v, n)) == Abs(n) * Distance(g, v)
  }

  /** `Vector.normalize`: the vector divided by its length. */
  function Normalize(g: Geometry, v: Vector): Vector
    requires Distance(g, v) != 0.0
  {
    Vector(v.x / Distance(g, v), v.y / Distance(g, v))
  }

  /**
   * One move of at most `reach` from `from` toward `to`: along the straight
   * line by exactly `reach` when the target is farther than that, otherwise
   * onto the target itself. This is the motion rule of both engines
   * (`calculateNewPositions`), which differ only in how they compute `reach`.
   */
  function StepToward(g: Geometry, from: Position, to: Position, reach: real): Position
    requires reach >= 0.0
  {
    var v := Between(from, to);
    if Distance(g, v) > reach then Add(from, Multiply(Normalize(g, v), reach)) else to
  }

  /** The zero vector has length zero. */
  lemma ZeroLength(g: Geometry)
    requires Lawful(g)
    ensures Distance(g, Vector(0.0, 0.0)) == 0.0
  {
    assert Multiply(Vector(0.0, 0.0), 0.0) == Vector(0.0, 0.0);
    assert Distance(g, Multiply(Vector(0.0, 0.0), 0.0)) == 0.0 * Distance(g, Vector(0.0, 0.0));
  }

  /** A point is at distance zero from itself. */
  lemma SelfDistance(g: Geometry, p: Position)
    requires Lawful(g)
    ensures Distance(g, Between(p, p)) == 0.0
  {
    assert Between(p, p) == Vector(0.0, 0.0);
    ZeroLength(g);
  }

  /** When the target is out of reach, the step is the direction to the target
      scaled by `reach / d`, and the displacement left over is the same
      direction scaled by `1 - reach / d`. */
  lemma StepBeyondReach(g: Geometry, from: Position, to: Position, reach: real)
    requires reach >= 0.0
    requires Distance(g, Between(from, to)) > reach
    ensures var v := Between(from, to);
            var d := Distance(g, v);
            && Between(from, StepToward(g, from, to, reach)) == Multiply(v, reach / d)
            && Between(StepToward(g, from, to, reach), to) == Multiply(v, 1.0 - reach / d)
  {
    var v := Between(from, to);
    var d := Distance(g, v);
    assert v.x / d * reach == v.x * (reach / d);
    assert v.y / d * reach == v.y * (reach / d);
    assert v.x - v.x * (reach / d) == v.x * (1.0 - reach / d);
    assert v.y - v.y * (reach / d) == v.y * (1.0 - reach / d);
  }

  /** The two scale factors of a step that falls short, applied to the distance `d`. */
  lemma ShortStepFactors(reach: real, d: real)
    requires d > reach >= 0.0
    ensures Abs(reach / d) * d == reach
    ensures Abs(1.0 - reach / d) * d == d - reach
  {
    var q := reach / d;
    assert q * d == reach;
    assert 0.0 <= q;
    assert d / d == 1.0;
    assert q < d / d;
  }

  /** No overshoot: one step never moves a point farther than `reach`. */
  lemma StepWithinReach(g: Geometry, from: Position, to: Position, reach: real)
    requires Homogeneous(g) && reach >= 0.0
    ensures Distance(g, Between(from, StepToward(g, from, to, reach))) <= reach
  {
    var v := Between(from, to);
    var d := Distance(g, v);
    if d > reach {
      StepBeyondReach(g, from, to, reach);
      ShortStepFactors(reach, d);
      assert Distance(g, Multiply(v, reach / d)) == Abs(reach / d) * d;
    }
  }

  /** The step lands exactly on the target if and only if the target is within reach. */
  lemma StepArrivesIff(g: Geometry, from: Position, to: Position, reach: real)
    requires Lawful(g) && reach >= 0.0
    ensures StepToward(g, from, to, reach) == to <==> Distance(g, Between(from, to)) <= reach
  {
    if Distance(g, Between(from, to)) > reach {
      StepWithinReach(g, from, to, reach);
    }
  }

  /** Each step shortens the remaining distance by exactly `reach`, down to zero. */
  lemma StepProgress(g: Geometry, from: Position, to: Position, reach: real)
    requires Lawful(g) && reach >= 0.0
    ensures Distance(g, Between(StepToward(g, from, to, reach), to))
         == Max(0.0, Distance(g, Between(from, to)) - reach)
  {
    var v := Between(from, to);
    var d := Distance(g, v);
    if d > reach {
      StepBeyondReach(g, from, to, reach);
      ShortStepFactors(reach, d);
      assert Distance(g, Multiply(v, 1.0 - reach / d)) == Abs(1.0 - reach / d) * d;
    } else {
      SelfDistance(g, to);
    }
  }

  /** The position after `k` steps of `reach` toward a fixed target. */
  function Steps(g: Geometry, from: Position, to: Position, reach: real, k: nat): Position
    requires reach >= 0.0
  {
    if k == 0 then from else StepToward(g, Steps(g, from, to, reach, k - 1), to, reach)
  }

  /** `k * reach`, the total distance `k` steps of `reach` can cover. */
  function Travelled(reach: real, k: nat): real {
    if k == 0 then 0.0 else Travelled(reach, k - 1) + reach
  }

  /** Convergence toward a fixed target: after `k` steps the remaining distance
      is the initial distance less `k * reach`, and never below zero. */
  lemma {:induction false} StepsConverge(g: Geometry, from: Position, to: Position, reach: real, k: nat)
    requires Lawful(g) && reach >= 0.0
    ensures Distance(g, Between(Steps(g, from, to, reach, k), to))
         == Max(0.0, Distance(g, Between(from, to)) - Travelled(reach, k))
  {
    if k > 0 {
      StepsConverge(g, from, to, reach, k - 1);
      StepProgress(g, Steps(g, from, to, reach, k - 1), to, reach);
    }
  }

  /** With a positive reach the target is reached after `k` steps as soon as
      `k * reach` covers the initial distance. */
  lemma ArrivesWithinSteps(g: Geometry, from: Position, to: Position, reach: real, k: nat)
    requires Lawful(g) && reach > 0.0
    requires Travelled(reach, k) >= Distance(g, Between(from, to))
    ensures Steps(g, from, to, reach, k) == to
  {
    if k > 0 {
      StepsConverge(g, from, to, reach, k - 1);
      StepArrivesIff(g, Steps(g, from, to, reach, k - 1), to, reach);
    } else {
      assert Distance(g, Between(from, to)) == 0.0;
      assert Between(from, to) == Vector(0.0, 0.0);
    }
  }
}
