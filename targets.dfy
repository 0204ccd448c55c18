/**
 * The target-choice rule `calculateTargets`, identical in `src/model.ts` and
 * `src/triangles.ts`: the two apexes of the equilateral triangles over the
 * anchors, and which of them the player heads for.
 */
module Targets {
  import opened Geometry

  /** The hysteresis margin: `target1` stays preferred unless `target2` is
      closer by at least this much. */
  const HYSTERESIS: real := 1.0

  /**
   * The two candidate targets over anchors `a` and `b`: both collapse onto
   * `a` when the anchors are closer than `CLOSE_ENOUGH`; otherwise the
   * midpoint of `ab` moved by `|ab| * sin60` along either perpendicular.
   */
  function Candidates(g: Geometry, a: Position, b: Position): (Position, Position)
    requires QuarterTurnInvariant(g)
  {
    var ab := Between(a, b);
    if Distance(g, ab) < CLOSE_ENOUGH then (a, a)
    else
      var abMid := Multiply(ab, 0.5);
      var perpDist := Distance(g, ab) * g.sin60;
      var abPerp := Multiply(Normalize(g, Perpendicular(ab)), perpDist);
      (Add(Add(a, abMid), abPerp), Add(Add(a, abMid), Multiply(abPerp, -1.0)))
  }

  /**
   * `calculateTargets(player, a, b)`: the pair (preferred target, other
   * target). `target1` is preferred unless `target2` is closer by at least
   * `HYSTERESIS`; a preferred candidate closer than `CLOSE_ENOUGH` is replaced
   * by the player's own position.
   */
  function CalculateTargets(g: Geometry, player: Position, a: Position, b: Position): (Position, Position)
    requires QuarterTurnInvariant(g)
  {
    var (target1, target2) := Candidates(g, a, b);
    var target1Distance := Distance(g, Between(player, target1));
    var target2Distance := Distance(g, Between(player, target2));
    if target1Distance < target2Distance + HYSTERESIS then
      if target1Distance < CLOSE_ENOUGH then (player, target2) else (target1, target2)
    else
      if target2Distance < CLOSE_ENOUGH then (player, target1) else (target2, target1)
  }

  /** The branch of `calculateTargets` that hands back the player's own
      position: the preferred candidate lies within `CLOSE_ENOUGH`. */
  predicate PrefersSelf(g: Geometry, player: Position, a: Position, b: Position)
    requires QuarterTurnInvariant(g)
  {
    var (target1, target2) := Candidates(g, a, b);
    var target1Distance := Distance(g, Between(player, target1));
    var target2Distance := Distance(g, Between(player, target2));
    if target1Distance < target2Distance + HYSTERESIS then target1Distance < CLOSE_ENOUGH
    else target2Distance < CLOSE_ENOUGH
  }

  /** In the `PrefersSelf` branch the preferred target is the player's own
      position; in the others it is one of the candidates, at least
      `CLOSE_ENOUGH` from the player. */
  lemma PrefersSelfIsHere(g: Geometry, player: Position, a: Position, b: Position)
    requires QuarterTurnInvariant(g)
    ensures var r := CalculateTargets(g, player, a, b);
            var (t1, t2) := Candidates(g, a, b);
            && (PrefersSelf(g, player, a, b) ==> r.0 == player)
            && (!PrefersSelf(g, player, a, b) ==>
                  (r.0 == t1 || r.0 == t2) && Distance(g, Between(player, r.0)) >= CLOSE_ENOUGH)
  {
  }

  /** Anchors closer than `CLOSE_ENOUGH`: the other target is `a`, and the
      preferred one is `a` or, when `a` is close, the player itself. */
  lemma CollapsedAnchors(g: Geometry, player: Position, a: Position, b: Position)
    requires Lawful(g)
    requires Distance(g, Between(a, b)) < CLOSE_ENOUGH
    ensures var r := CalculateTargets(g, player, a, b);
            && r.1 == a
            && (Distance(g, Between(player, a)) < CLOSE_ENOUGH ==> r.0 == player)
            && (Distance(g, Between(player, a)) >= CLOSE_ENOUGH ==> r.0 == a)
  {
  }

  /**
   * The pair is the two candidates, preferred first, except that the
   * preferred one may be replaced by the player's position, and only when it
   * lies within `CLOSE_ENOUGH`. `preferred` names the candidate chosen.
   */
  lemma PreferredAndOther(g: Geometry, player: Position, a: Position, b: Position)
    returns (preferred: Position)
    requires Lawful(g)
    ensures var r := CalculateTargets(g, player, a, b);
            var (t1, t2) := Candidates(g, a, b);
            && multiset{preferred, r.1} == multiset{t1, t2}
            && (r.0 == preferred || (r.0 == player && Distance(g, Between(player, preferred)) < CLOSE_ENOUGH))
            && (Distance(g, Between(player, preferred)) < CLOSE_ENOUGH ==> r.0 == player)
  {
    var (t1, t2) := Candidates(g, a, b);
    var d1 := Distance(g, Between(player, t1));
    var d2 := Distance(g, Between(player, t2));
    preferred := if d1 < d2 + HYSTERESIS then t1 else t2;
  }

  /** Bias toward `target1`, with no memory of earlier choices: when the
      candidates differ, `target2` is the other target exactly when `target1`
      is less than `HYSTERESIS` farther away than `target2`. */
  lemma BiasTowardTarget1(g: Geometry, player: Position, a: Position, b: Position)
    requires Lawful(g)
    requires Candidates(g, a, b).0 != Candidates(g, a, b).1
    ensures var r := CalculateTargets(g, player, a, b);
            var (t1, t2) := Candidates(g, a, b);
            r.1 == t2 <==> Distance(g, Between(player, t1)) < Distance(g, Between(player, t2)) + HYSTERESIS
  {
  }

  /** The preferred target is never more than `HYSTERESIS` farther from the
      player than the other target. */
  lemma PreferredWithinMargin(g: Geometry, player: Position, a: Position, b: Position)
    requires Lawful(g)
    ensures var r := CalculateTargets(g, player, a, b);
            Distance(g, Between(player, r.0)) < Distance(g, Between(player, r.1)) + HYSTERESIS
  {
    SelfDistance(g, player);
  }

  /** The preferred target is either the player's own position or at least
      `CLOSE_ENOUGH` away from it: a player never aims at a point it already
      counts as reached. */
  lemma PreferredIsHereOrFar(g: Geometry, player: Position, a: Position, b: Position)
    requires Lawful(g)
    ensures var r := CalculateTargets(g, player, a, b);
            r.0 == player || Distance(g, Between(player, r.0)) >= CLOSE_ENOUGH
  {
  }

  /** A player standing exactly on either candidate holds still: its
      preferred target is its own position. */
  lemma OnCandidateHoldsStill(g: Geometry, player: Position, a: Position, b: Position)
    requires Lawful(g)
    requires player == Candidates(g, a, b).0 || player == Candidates(g, a, b).1
    ensures CalculateTargets(g, player, a, b).0 == player
  {
    SelfDistance(g, player);
  }
}
