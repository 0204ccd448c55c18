/**
 * The per-tick rules of `State` in `src/model.ts`, on the players array as a
 * sequence of values. The `State` class in `engine.dfy` is proved to do
 * exactly these.
 */
module Formation {
  import opened Wrappers
  import opened Geometry
  import opened Targets
  import opened Bounds
  import opened Players
  import opened History
  import opened Transfer

  /** `State.historyLength`. */
  const HISTORY_LENGTH: nat := 2000

  /** Both following ids are empty or name a player of an array of length `n`. */
  predicate SlotsIn(f: Following, n: nat) {
    Resolvable(f.0, n) && Resolvable(f.1, n)
  }

  /** What every operation of `State` keeps of its players array: each
      player's id is its index, its slots are proper and name players of the
      array, its history is bounded, and its speed is not negative. */
  predicate WellFormed(ps: seq<PlayerRec>, limit: nat) {
    forall i :: 0 <= i < |ps| ==>
      && ps[i].id == i
      && SlotsIn(ps[i].following, |ps|)
      && Proper(ps[i].following, i)
      && |ps[i].history| <= limit
      && ps[i].speed >= 0.0
  }

  predicate AllSlotsIn(ps: seq<PlayerRec>) {
    forall i :: 0 <= i < |ps| ==> SlotsIn(ps[i].following, |ps|)
  }

  predicate AllSpeedsNonNegative(ps: seq<PlayerRec>) {
    forall i :: 0 <= i < |ps| ==> ps[i].speed >= 0.0
  }

  // ---------------------------------------------------------------- targets

  /** (preferred, other) apex over the current positions of `r`'s anchors. */
  function TargetsOf(g: Geometry, ps: seq<PlayerRec>, r: PlayerRec): (Position, Position)
    requires QuarterTurnInvariant(g) && Anchored(r) && SlotsIn(r.following, |ps|)
  {
    CalculateTargets(g, r.position, ps[r.following.0].position, ps[r.following.1].position)
  }

  /** (preferred, other) apex over where `r`'s anchors were `r.reactionTime` seconds ago. */
  function PerceivedTargetsOf(g: Geometry, ps: seq<PlayerRec>, r: PlayerRec): (Position, Position)
    requires QuarterTurnInvariant(g) && Anchored(r) && SlotsIn(r.following, |ps|)
  {
    CalculateTargets(g, r.position,
                     HistoricalPosition(ps[r.following.0], r.reactionTime),
                     HistoricalPosition(ps[r.following.1], r.reactionTime))
  }

  /** Player `r`'s turn in `calculateNewTargets`: a following player heads for
      the preferred apex over its anchors' current positions, and perceives the
      preferred apex over their positions `reactionTime` ago (the same target
      when its reaction time is not positive); any other player has neither. */
  function Retargeted(g: Geometry, ps: seq<PlayerRec>, r: PlayerRec): (s: PlayerRec)
    requires QuarterTurnInvariant(g) && SlotsIn(r.following, |ps|)
    ensures s.(target := r.target, perceivedTarget := r.perceivedTarget) == r
  {
    if Anchored(r) then
      var target := TargetsOf(g, ps, r).0;
      var perceived := if r.reactionTime > 0.0 then PerceivedTargetsOf(g, ps, r).0 else target;
      r.(target := Some(target), perceivedTarget := Some(perceived))
    else
      r.(target := None, perceivedTarget := None)
  }

  /** The points player `r`'s turn feeds to the bounding box: both candidates,
      then both perceived candidates when its reaction time is positive. */
  function RetargetPoints(g: Geometry, ps: seq<PlayerRec>, r: PlayerRec): seq<Position>
    requires QuarterTurnInvariant(g) && SlotsIn(r.following, |ps|)
  {
    if Anchored(r) then
      var targets := TargetsOf(g, ps, r);
      if r.reactionTime > 0.0 then
        var perceived := PerceivedTargetsOf(g, ps, r);
        [targets.0, targets.1] + [perceived.0, perceived.1]
      else [targets.0, targets.1]
    else []
  }

  /** The players after `calculateNewTargets`. */
  function NewTargets(g: Geometry, ps: seq<PlayerRec>): (qs: seq<PlayerRec>)
    requires QuarterTurnInvariant(g) && AllSlotsIn(ps)
    ensures |qs| == |ps|
  {
    seq(|ps|, i requires 0 <= i < |ps| => Retargeted(g, ps, ps[i]))
  }

  /** The points the first `k` turns of `calculateNewTargets` feed to the bounding box. */
  function TargetPoints(g: Geometry, ps: seq<PlayerRec>, k: nat): seq<Position>
    requires QuarterTurnInvariant(g) && AllSlotsIn(ps) && k <= |ps|
  {
    if k == 0 then [] else TargetPoints(g, ps, k - 1) + RetargetPoints(g, ps, ps[k - 1])
  }

  /** `calculateNewTargets` changes only targets: a player gets a target
      exactly when it is following, the target is the preferred apex over its
      anchors, and it perceives that same target without a reaction delay, or
      the preferred apex over where its anchors were `reactionTime` ago with one. */
  lemma NewTargetsRule(g: Geometry, ps: seq<PlayerRec>, limit: nat, i: nat)
    requires QuarterTurnInvariant(g) && WellFormed(ps, limit) && i < |ps|
    ensures var q := NewTargets(g, ps)[i];
            && q.(target := ps[i].target, perceivedTarget := ps[i].perceivedTarget) == ps[i]
            && (q.target.Some? <==> Anchored(ps[i]))
            && (q.perceivedTarget.Some? <==> Anchored(ps[i]))
            && (Anchored(ps[i]) ==>
                  q.target.value == CalculateTargets(g, ps[i].position,
                                                     ps[ps[i].following.0].position,
                                                     ps[ps[i].following.1].position).0)
            && (Anchored(ps[i]) && ps[i].reactionTime <= 0.0 ==> q.perceivedTarget == q.target)
            && (Anchored(ps[i]) && ps[i].reactionTime > 0.0 ==>
                  q.perceivedTarget.value
                    == CalculateTargets(g, ps[i].position,
                                        HistoricalPosition(ps[ps[i].following.0], ps[i].reactionTime),
                                        HistoricalPosition(ps[ps[i].following.1], ps[i].reactionTime)).0)
  {
  }

  /** `calculateNewTargets` keeps the array well formed. */
  lemma NewTargetsKeepsWellFormed(g: Geometry, ps: seq<PlayerRec>, limit: nat)
    requires QuarterTurnInvariant(g) && WellFormed(ps, limit)
    ensures WellFormed(NewTargets(g, ps), limit)
  {
    var qs := NewTargets(g, ps);
    forall i | 0 <= i < |qs|
      ensures qs[i].id == i && SlotsIn(qs[i].following, |qs|) && Proper(qs[i].following, i)
      ensures |qs[i].history| <= limit && qs[i].speed >= 0.0
    {
      assert qs[i] == Retargeted(g, ps, ps[i]);
    }
  }

  /** Recomputing targets twice is recomputing them once: the rule reads only
      positions, histories, slots, activity and reaction times, none of which
      it changes. */
  lemma NewTargetsIdempotent(g: Geometry, ps: seq<PlayerRec>, limit: nat)
    requires QuarterTurnInvariant(g) && WellFormed(ps, limit)
    ensures AllSlotsIn(NewTargets(g, ps))
    ensures NewTargets(g, NewTargets(g, ps)) == NewTargets(g, ps)
  {
    var qs := NewTargets(g, ps);
    NewTargetsKeepsWellFormed(g, ps, limit);
    forall i | 0 <= i < |qs| ensures Retargeted(g, qs, qs[i]) == qs[i] {
      var r := ps[i];
      if Anchored(r) {
        var f0 := r.following.0;
        var f1 := r.following.1;
        assert qs[f0] == Retargeted(g, ps, ps[f0]);
        assert qs[f1] == Retargeted(g, ps, ps[f1]);
        assert HistoricalPosition(qs[f0], r.reactionTime) == HistoricalPosition(ps[f0], r.reactionTime);
        assert HistoricalPosition(qs[f1], r.reactionTime) == HistoricalPosition(ps[f1], r.reactionTime);
      }
    }
  }

  /** `export` ignores targets. */
  lemma {:induction false} ExportIgnoresTargets(g: Geometry, ps: seq<PlayerRec>)
    requires QuarterTurnInvariant(g) && AllSlotsIn(ps)
    ensures ExportRecords(NewTargets(g, ps)) == ExportRecords(ps)
  {
    var qs := NewTargets(g, ps);
    assert forall i :: 0 <= i < |ps| ==> qs[i].active == ps[i].active && ToRecord(qs[i]) == ToRecord(ps[i]);
    ExportSameRecords(qs, ps);
  }

  /** Arrays whose players agree on activity and exported fields export alike. */
  lemma {:induction false} ExportSameRecords(ps: seq<PlayerRec>, qs: seq<PlayerRec>)
    requires |ps| == |qs|
    requires forall i :: 0 <= i < |ps| ==> ps[i].active == qs[i].active && ToRecord(ps[i]) == ToRecord(qs[i])
    ensures ExportRecords(ps) == ExportRecords(qs)
  {
    if ps != [] {
      ExportSameRecords(ps[..|ps| - 1], qs[..|qs| - 1]);
    }
  }

  // ---------------------------------------------------------------- motion

  /** The players after `calculateNewPositions`. */
  function Tick(g: Geometry, ps: seq<PlayerRec>, elapsedMillis: real, limit: nat): (qs: seq<PlayerRec>)
    requires AllSpeedsNonNegative(ps) && elapsedMillis >= 0.0
    ensures |qs| == |ps|
  {
    seq(|ps|, i requires 0 <= i < |ps| => Advanced(g, ps[i], elapsedMillis, limit))
  }

  /** The positions `calculateNewPositions` feeds to the bounding box: the new
      position of each of the first `k` players that is active. */
  function PositionPoints(ps: seq<PlayerRec>, k: nat): seq<Position>
    requires k <= |ps|
  {
    if k == 0 then []
    else PositionPoints(ps, k - 1) + (if ps[k - 1].active then [ps[k - 1].position] else [])
  }

  /** A tick keeps the array well formed. */
  lemma TickKeepsWellFormed(g: Geometry, ps: seq<PlayerRec>, elapsedMillis: real, limit: nat)
    requires WellFormed(ps, limit) && elapsedMillis >= 0.0 && limit >= 1
    ensures WellFormed(Tick(g, ps, elapsedMillis, limit), limit)
  {
    var qs := Tick(g, ps, elapsedMillis, limit);
    forall i | 0 <= i < |qs|
      ensures qs[i].id == i && SlotsIn(qs[i].following, |qs|) && Proper(qs[i].following, i)
      ensures |qs[i].history| <= limit && qs[i].speed >= 0.0
    {
      RecordedNewestFirst(ps[i].history, (elapsedMillis, qs[i].position), limit);
    }
  }

  /** Once every following player has no reaction delay and its new target
      within one step's reach, nobody is moving after the update. */
  lemma ArrivalStopsMoving(g: Geometry, ps: seq<PlayerRec>, elapsedMillis: real, limit: nat)
    requires Lawful(g) && WellFormed(ps, limit) && elapsedMillis >= 0.0
    requires forall i :: 0 <= i < |ps| && Anchored(ps[i]) ==>
               && ps[i].reactionTime <= 0.0
               && Distance(g, Between(ps[i].position, NewTargets(g, ps)[i].target.value))
                    <= Reach(ps[i].speed, elapsedMillis)
    ensures !AnyMoving(Tick(g, NewTargets(g, ps), elapsedMillis, limit))
  {
    var qs := NewTargets(g, ps);
    NewTargetsKeepsWellFormed(g, ps, limit);
    var ts := Tick(g, qs, elapsedMillis, limit);
    forall i | 0 <= i < |ts|
      ensures !IsMovingRaw(ts[i].active, ts[i].target, ts[i].position)
    {
      NewTargetsRule(g, ps, limit, i);
      if Anchored(ps[i]) {
        StepArrivesIff(g, qs[i].position, qs[i].perceivedTarget.value, Reach(qs[i].speed, elapsedMillis));
      }
    }
  }

  /** `calculateMoving`: some active player has a target it is not on. */
  predicate AnyMoving(ps: seq<PlayerRec>) {
    exists i :: 0 <= i < |ps| && IsMovingRaw(ps[i].active, ps[i].target, ps[i].position)
  }

  /** After `update`, the bounding box holds both candidate targets (and both
      perceived candidates) of every following player and the new position of
      every active player. */
  lemma UpdateBoxCovers(g: Geometry, ps: seq<PlayerRec>, elapsedMillis: real, limit: nat, i: nat)
    requires QuarterTurnInvariant(g) && WellFormed(ps, limit) && elapsedMillis >= 0.0 && i < |ps|
    ensures var ts := Tick(g, NewTargets(g, ps), elapsedMillis, limit);
            var box := BoxOf(None, TargetPoints(g, ps, |ps|) + PositionPoints(ts, |ts|));
            && (ts[i].active ==> box.Some? && Inside(ts[i].position, box.value))
            && (forall p :: p in RetargetPoints(g, ps, ps[i]) ==> box.Some? && Inside(p, box.value))
  {
    NewTargetsKeepsWellFormed(g, ps, limit);
    var ts := Tick(g, NewTargets(g, ps), elapsedMillis, limit);
    var points := TargetPoints(g, ps, |ps|) + PositionPoints(ts, |ts|);
    BoxOfCovers(None, points);
    forall p | p in RetargetPoints(g, ps, ps[i]) ensures p in points {
      TargetPointsCover(g, ps, |ps|, i, p);
    }
    if ts[i].active {
      PositionPointsCover(ts, |ts|, i);
    }
    forall p | p in points ensures BoxOf(None, points).Some? && Inside(p, BoxOf(None, points).value) {
      var j :| 0 <= j < |points| && points[j] == p;
    }
  }

  /** The box `update` leaves is the smallest holding those points: any box
      that holds every active player's new position and every candidate fed
      to it holds the box. */
  lemma UpdateBoxIsSmallest(g: Geometry, ps: seq<PlayerRec>, elapsedMillis: real, limit: nat, c: Box)
    requires QuarterTurnInvariant(g) && WellFormed(ps, limit) && elapsedMillis >= 0.0
    requires var ts := Tick(g, NewTargets(g, ps), elapsedMillis, limit);
             forall i :: 0 <= i < |ts| && ts[i].active ==> Inside(ts[i].position, c)
    requires forall i, p :: 0 <= i < |ps| && p in RetargetPoints(g, ps, ps[i]) ==> Inside(p, c)
    ensures var ts := Tick(g, NewTargets(g, ps), elapsedMillis, limit);
            var box := BoxOf(None, TargetPoints(g, ps, |ps|) + PositionPoints(ts, |ts|));
            box.Some? ==> Within(box.value, c)
  {
    NewTargetsKeepsWellFormed(g, ps, limit);
    var ts := Tick(g, NewTargets(g, ps), elapsedMillis, limit);
    var targets := TargetPoints(g, ps, |ps|);
    var points := targets + PositionPoints(ts, |ts|);
    forall j | 0 <= j < |points| ensures Inside(points[j], c) {
      if j < |targets| {
        assert points[j] in targets;
        TargetPointsFrom(g, ps, |ps|, points[j]);
      } else {
        assert points[j] in PositionPoints(ts, |ts|);
        PositionPointsFrom(ts, |ts|, points[j]);
      }
    }
    BoxOfIsSmallest(None, points, c);
  }

  lemma {:induction false} TargetPointsFrom(g: Geometry, ps: seq<PlayerRec>, k: nat, p: Position)
    requires QuarterTurnInvariant(g) && AllSlotsIn(ps) && k <= |ps|
    requires p in TargetPoints(g, ps, k)
    ensures exists i :: 0 <= i < k && p in RetargetPoints(g, ps, ps[i])
  {
    if p !in TargetPoints(g, ps, k - 1) {
      assert p in RetargetPoints(g, ps, ps[k - 1]);
    } else {
      TargetPointsFrom(g, ps, k - 1, p);
    }
  }

  lemma {:induction false} PositionPointsFrom(ps: seq<PlayerRec>, k: nat, p: Position)
    requires k <= |ps| && p in PositionPoints(ps, k)
    ensures exists i :: 0 <= i < k && ps[i].active && p == ps[i].position
  {
    if p !in PositionPoints(ps, k - 1) {
      assert ps[k - 1].active && p == ps[k - 1].position;
    } else {
      PositionPointsFrom(ps, k - 1, p);
    }
  }

  lemma {:induction false} TargetPointsCover(g: Geometry, ps: seq<PlayerRec>, k: nat, i: nat, p: Position)
    requires QuarterTurnInvariant(g) && AllSlotsIn(ps) && i < k <= |ps|
    requires p in RetargetPoints(g, ps, ps[i])
    ensures p in TargetPoints(g, ps, k)
  {
    if i < k - 1 {
      TargetPointsCover(g, ps, k - 1, i, p);
    }
  }

  lemma {:induction false} PositionPointsCover(ps: seq<PlayerRec>, k: nat, i: nat)
    requires i < k <= |ps| && ps[i].active
    ensures ps[i].position in PositionPoints(ps, k)
  {
    if i < k - 1 {
      PositionPointsCover(ps, k - 1, i);
    }
  }

  // ---------------------------------------------------------------- structure

  /** The array `import` builds is well formed. */
  lemma ImportedWellFormed(records: seq<PlayerRecord>, limit: nat)
    requires Importable(records)
    ensures WellFormed(ImportedRecs(records), limit)
  {
    ImportedIndexed(records);
    var ps := ImportedRecs(records);
    forall i | 0 <= i < |ps| ensures ps[i].speed >= 0.0 {
      if Find(records, i).Some? {
        assert Find(records, i).value in records;
      }
    }
  }

  /** A well-formed array stays well formed when `addPlayer` appends a fresh
      player whose id is the old length. */
  lemma AddKeepsWellFormed(ps: seq<PlayerRec>, limit: nat, position: Position)
    requires WellFormed(ps, limit)
    ensures WellFormed(ps + [NewPlayerRec(|ps|, position)], limit)
  {
  }

  /** The players after `follow(playerId, i, x)` on the array: only that
      player's slots change, as `Player.follow` says. */
  function FollowedIn(ps: seq<PlayerRec>, playerId: PlayerId, i: FollowingIndex, x: PlayerId): (qs: seq<PlayerRec>)
    requires 0 <= playerId < |ps|
    ensures |qs| == |ps|
  {
    ps[playerId := ps[playerId].(following := Followed(ps[playerId].following, playerId, i, x))]
  }

  /** Following an id that names a player of the array, or the empty id,
      keeps the array well formed; every other player is left as it was. */
  lemma FollowKeepsWellFormed(ps: seq<PlayerRec>, limit: nat, playerId: PlayerId, i: FollowingIndex, x: PlayerId)
    requires WellFormed(ps, limit) && 0 <= playerId < |ps| && Resolvable(x, |ps|)
    ensures var qs := FollowedIn(ps, playerId, i, x);
            && WellFormed(qs, limit)
            && forall j :: 0 <= j < |ps| && j != playerId ==> qs[j] == ps[j]
  {
    FollowKeepsProper(ps[playerId].following, playerId, i, x);
  }

  /** The players after `deletePlayer(x)`: `x` made inactive, then every
      player stops following `x`. */
  function Deleted(ps: seq<PlayerRec>, x: PlayerId): (qs: seq<PlayerRec>)
    requires 0 <= x < |ps|
    ensures |qs| == |ps|
  {
    var deactivated := ps[x := ps[x].(active := false)];
    seq(|ps|, i requires 0 <= i < |ps| => StoppedFollowing(deactivated[i], x))
  }

  /** `deletePlayer(x)` leaves `x` inactive, empties every slot that named `x`, keeps every
      other slot, every other player's activity and everything but slots and
      targets, keeps both targets of every player still following, leaves every
      player that is no longer following without targets, and keeps the array
      well formed. */
  lemma DeleteCascades(ps: seq<PlayerRec>, limit: nat, x: PlayerId)
    requires WellFormed(ps, limit) && 0 <= x < |ps|
    ensures var qs := Deleted(ps, x);
            && WellFormed(qs, limit)
            && !qs[x].active
            && (forall i :: 0 <= i < |qs| ==>
                  && qs[i].following.0 != x && qs[i].following.1 != x
                  && (ps[i].following.0 == x ==> qs[i].following.0 == NO_PLAYER)
                  && (ps[i].following.1 == x ==> qs[i].following.1 == NO_PLAYER)
                  && (ps[i].following.0 != x ==> qs[i].following.0 == ps[i].following.0)
                  && (ps[i].following.1 != x ==> qs[i].following.1 == ps[i].following.1)
                  && (!Anchored(qs[i]) ==> qs[i].target == None && qs[i].perceivedTarget == None)
                  && (Anchored(qs[i]) ==> qs[i].target == ps[i].target)
                  && (Anchored(qs[i]) ==> qs[i].perceivedTarget == ps[i].perceivedTarget)
                  && (i != x ==> qs[i].active == ps[i].active)
                  && qs[i].(following := ps[i].following, target := ps[i].target,
                            perceivedTarget := ps[i].perceivedTarget, active := ps[i].active) == ps[i])
  {
    var qs := Deleted(ps, x);
    forall i | 0 <= i < |qs| ensures Proper(qs[i].following, i) {
      UnfollowKeepsProper(ps[i].following, i, x);
    }
  }
}
