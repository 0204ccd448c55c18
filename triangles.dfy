/**
 * The earlier formation engine of `src/triangles.ts`: the same target rule
 * as the current engine, a fixed step of `speed` per tick, no activity flag,
 * no history, and a bounding box rebuilt on every `update`.
 *
 * Whether a player is moving is decided there by object identity (`position
 * != target`), so positions are objects here too: a `Point` is the source's
 * immutable `Position` object, and `Point.at` its coordinates.
 */
module Triangles {
  import opened Wrappers
  import opened Geometry
  import opened Targets
  import opened Bounds

  type PlayerId = int

  /** The id stored in an empty following slot. */
  const NO_PLAYER: PlayerId := -1

  /** `Player.speed`: the distance a player covers per tick. */
  const SPEED: real := 1.0

  /** A `Position` object; the engine never changes one in place. */
  class Point {
    const at: Position

    constructor (at: Position)
      ensures this.at == at
    {
      this.at := at;
    }
  }

  /** Both following slots hold a player. */
  predicate Anchored(f: (PlayerId, PlayerId)) {
    f.0 != NO_PLAYER && f.1 != NO_PLAYER
  }

  class Player {
    const id: PlayerId
    var following: (PlayerId, PlayerId)
    var position: Point
    var target: Point?
    const speed: real

    /** `new Player(state, following)` with `id` and `position` set right after. */
    constructor (id: PlayerId, following: (PlayerId, PlayerId), position: Point)
      ensures this.id == id && this.following == following && this.position == position
      ensures target == null && speed == SPEED
    {
      this.id := id;
      this.following := following;
      this.position := position;
      target := null;
      speed := SPEED;
    }

    /** `isFollowing()`: both slots are set; there is no activity flag. */
    predicate IsFollowing()
      reads this`following
    {
      Anchored(following)
    }

    /** `isMoving()`: there is a target and the position is not that very object. */
    predicate IsMoving()
      reads this`position, this`target
    {
      target != null && position != target
    }

    /** The player's state as a value. */
    function Rec(): PlayerRec
      reads this`following, this`position, this`target
    {
      PlayerRec(following, position.at, TargetValue(target))
    }
  }

  /** The coordinates of a target, if there is one. */
  function TargetValue(t: Point?): Option<Position> {
    if t == null then None else Some(t.at)
  }

  datatype PlayerRec = PlayerRec(following: (PlayerId, PlayerId), position: Position, target: Option<Position>)

  /** The players' states as values, with each `Point` read as its coordinates. */
  function PointPlayerRecs(ps: seq<Player>): (rs: seq<PlayerRec>)
    reads ps
    ensures |rs| == |ps|
    ensures forall i :: 0 <= i < |ps| ==> rs[i] == ps[i].Rec()
  {
    seq(|ps|, i requires 0 <= i < |ps| reads ps => ps[i].Rec())
  }

  /** Every following player's slots name players of the array: what
      `calculateNewTargets` needs to look its anchors up. */
  predicate Resolved(rs: seq<PlayerRec>) {
    forall i :: 0 <= i < |rs| && Anchored(rs[i].following) ==>
      0 <= rs[i].following.0 < |rs| && 0 <= rs[i].following.1 < |rs|
  }

  /** (preferred, other) apex over the positions of player `i`'s anchors. */
  function TargetsFor(g: Geometry, rs: seq<PlayerRec>, i: nat): (Position, Position)
    requires QuarterTurnInvariant(g) && Resolved(rs) && i < |rs| && Anchored(rs[i].following)
  {
    CalculateTargets(g, rs[i].position, rs[rs[i].following.0].position, rs[rs[i].following.1].position)
  }

  /** Player `i` is following and `calculateTargets` hands it back its own position. */
  predicate HoldsStill(g: Geometry, rs: seq<PlayerRec>, i: nat)
    requires QuarterTurnInvariant(g) && Resolved(rs) && i < |rs|
  {
    var f := rs[i].following;
    Anchored(f) && PrefersSelf(g, rs[i].position, rs[f.0].position, rs[f.1].position)
  }

  /** The players after `calculateNewTargets`: a following player heads for
      its preferred apex, any other has no target. */
  function NewTargets(g: Geometry, rs: seq<PlayerRec>): (qs: seq<PlayerRec>)
    requires QuarterTurnInvariant(g) && Resolved(rs)
    ensures |qs| == |rs|
  {
    seq(|rs|, i requires 0 <= i < |rs| => Retargeted(g, rs, i))
  }

  /** Player `i` after its turn of `calculateNewTargets`. */
  function Retargeted(g: Geometry, rs: seq<PlayerRec>, i: nat): PlayerRec
    requires QuarterTurnInvariant(g) && Resolved(rs) && i < |rs|
  {
    rs[i].(target := if Anchored(rs[i].following) then Some(TargetsFor(g, rs, i).0) else None)
  }

  /** The players after `calculateNewPositions`: each targeted player takes one step of `SPEED`. */
  function NewPositions(g: Geometry, rs: seq<PlayerRec>): (qs: seq<PlayerRec>)
    ensures |qs| == |rs|
  {
    seq(|rs|, i requires 0 <= i < |rs| => Advanced(g, rs[i]))
  }

  /** A player after its turn of `calculateNewPositions`. */
  function Advanced(g: Geometry, r: PlayerRec): PlayerRec {
    if r.target.Some? then r.(position := StepToward(g, r.position, r.target.value, SPEED)) else r
  }

  /** The players after `update()`. */
  function Updated(g: Geometry, rs: seq<PlayerRec>): (qs: seq<PlayerRec>)
    requires QuarterTurnInvariant(g) && Resolved(rs)
    ensures |qs| == |rs|
  {
    NewPositions(g, NewTargets(g, rs))
  }

  /** The points player `i`'s turn of `calculateNewTargets` feeds to the box:
      both candidates when it is following, none otherwise. */
  function RetargetPoints(g: Geometry, rs: seq<PlayerRec>, i: nat): seq<Position>
    requires QuarterTurnInvariant(g) && Resolved(rs) && i < |rs|
  {
    if Anchored(rs[i].following) then [TargetsFor(g, rs, i).0, TargetsFor(g, rs, i).1] else []
  }

  /** The points the first `k` turns of `calculateNewTargets` feed to the box. */
  function TargetPoints(g: Geometry, rs: seq<PlayerRec>, k: nat): seq<Position>
    requires QuarterTurnInvariant(g) && Resolved(rs) && k <= |rs|
  {
    if k == 0 then [] else TargetPoints(g, rs, k - 1) + RetargetPoints(g, rs, k - 1)
  }

  /** The points the first `k` turns of `calculateNewPositions` feed to the box. */
  function PositionPoints(rs: seq<PlayerRec>, k: nat): seq<Position>
    requires k <= |rs|
  {
    if k == 0 then [] else PositionPoints(rs, k - 1) + [rs[k - 1].position]
  }

  /** The box `update()` leaves behind. */
  function UpdateBox(g: Geometry, rs: seq<PlayerRec>): Option<Box>
    requires QuarterTurnInvariant(g) && Resolved(rs)
  {
    BoxOf(None, TargetPoints(g, rs, |rs|) + PositionPoints(Updated(g, rs), |rs|))
  }

  lemma {:induction false} TargetPointsHold(g: Geometry, rs: seq<PlayerRec>, k: nat, i: nat)
    requires QuarterTurnInvariant(g) && Resolved(rs) && i < k <= |rs| && Anchored(rs[i].following)
    ensures TargetsFor(g, rs, i).0 in TargetPoints(g, rs, k)
    ensures TargetsFor(g, rs, i).1 in TargetPoints(g, rs, k)
  {
    if i < k - 1 {
      TargetPointsHold(g, rs, k - 1, i);
    }
  }

  lemma {:induction false} PositionPointsHold(rs: seq<PlayerRec>, k: nat, i: nat)
    requires i < k <= |rs|
    ensures rs[i].position in PositionPoints(rs, k)
  {
    if i < k - 1 {
      PositionPointsHold(rs, k - 1, i);
    }
  }

  lemma {:induction false} TargetPointsFrom(g: Geometry, rs: seq<PlayerRec>, k: nat, p: Position)
    requires QuarterTurnInvariant(g) && Resolved(rs) && k <= |rs|
    requires p in TargetPoints(g, rs, k)
    ensures exists i :: 0 <= i < k && Anchored(rs[i].following) &&
                        (p == TargetsFor(g, rs, i).0 || p == TargetsFor(g, rs, i).1)
  {
    if p !in TargetPoints(g, rs, k - 1) {
      assert Anchored(rs[k - 1].following);
    } else {
      TargetPointsFrom(g, rs, k - 1, p);
    }
  }

  lemma {:induction false} PositionPointsFrom(rs: seq<PlayerRec>, k: nat, p: Position)
    requires k <= |rs| && p in PositionPoints(rs, k)
    ensures exists i :: 0 <= i < k && p == rs[i].position
  {
    if p != rs[k - 1].position {
      PositionPointsFrom(rs, k - 1, p);
    }
  }

  /**
   * After `update()` the box holds every player's new position and both
   * candidate targets of every following player, and it is the smallest
   * box that does: any box holding all of them holds it.
   */
  lemma UpdateBoxCovers(g: Geometry, rs: seq<PlayerRec>, c: Box)
    requires QuarterTurnInvariant(g) && Resolved(rs)
    ensures var box := UpdateBox(g, rs);
            var us := Updated(g, rs);
            && (rs != [] ==> box.Some?)
            && (forall i :: 0 <= i < |rs| ==> box.Some? && Inside(us[i].position, box.value))
            && (forall i :: 0 <= i < |rs| && Anchored(rs[i].following) ==>
                  box.Some? && Inside(TargetsFor(g, rs, i).0, box.value) && Inside(TargetsFor(g, rs, i).1, box.value))
            && ((forall i :: 0 <= i < |rs| ==> Inside(us[i].position, c)) &&
                (forall i :: 0 <= i < |rs| && Anchored(rs[i].following) ==>
                   Inside(TargetsFor(g, rs, i).0, c) && Inside(TargetsFor(g, rs, i).1, c))
                ==> box.Some? ==> Within(box.value, c))
  {
    var us := Updated(g, rs);
    var ts := TargetPoints(g, rs, |rs|);
    var points := ts + PositionPoints(us, |rs|);
    BoxOfCovers(None, points);
    assert forall j :: 0 <= j < |points| ==> points[j] in points;
    forall i | 0 <= i < |rs| ensures us[i].position in points {
      PositionPointsHold(us, |rs|, i);
    }
    forall i | 0 <= i < |rs| && Anchored(rs[i].following)
      ensures TargetsFor(g, rs, i).0 in points && TargetsFor(g, rs, i).1 in points
    {
      TargetPointsHold(g, rs, |rs|, i);
    }
    if rs != [] {
      PositionPointsHold(us, |rs|, 0);
    }
    if (forall i :: 0 <= i < |rs| ==> Inside(us[i].position, c)) &&
       (forall i :: 0 <= i < |rs| && Anchored(rs[i].following) ==>
          Inside(TargetsFor(g, rs, i).0, c) && Inside(TargetsFor(g, rs, i).1, c)) {
      forall j | 0 <= j < |points| ensures Inside(points[j], c) {
        if j < |ts| {
          assert points[j] in ts;
          TargetPointsFrom(g, rs, |rs|, points[j]);
        } else {
          assert points[j] in PositionPoints(us, |rs|);
          PositionPointsFrom(us, |rs|, points[j]);
        }
      }
      BoxOfIsSmallest(None, points, c);
    }
  }

  /** One tick moves each targeted player by at most `SPEED`, and lands it
      exactly on its target when and only when the target was within `SPEED`. */
  lemma TickStepsBounded(g: Geometry, rs: seq<PlayerRec>, i: nat)
    requires Lawful(g) && i < |rs| && rs[i].target.Some?
    ensures var q := NewPositions(g, rs)[i];
            && Distance(g, Between(rs[i].position, q.position)) <= SPEED
            && (q.position == rs[i].target.value <==> Distance(g, Between(rs[i].position, rs[i].target.value)) <= SPEED)
  {
    StepWithinReach(g, rs[i].position, rs[i].target.value, SPEED);
    StepArrivesIff(g, rs[i].position, rs[i].target.value, SPEED);
  }

  /** `calculateTargets(player, a, b)` on `Position` objects: the apexes are new
      objects, while the collapsed case hands back `a` itself and the
      `PrefersSelf` branch the player's own position object. */
  method CalculateTargetPoints(g: Geometry, player: Point, a: Point, b: Point) returns (t0: Point, t1: Point)
    requires QuarterTurnInvariant(g)
    ensures (t0.at, t1.at) == CalculateTargets(g, player.at, a.at, b.at)
    ensures PrefersSelf(g, player.at, a.at, b.at) ==> t0 == player
    ensures !PrefersSelf(g, player.at, a.at, b.at) ==> t0 == a || fresh(t0)
  {
    var ab := Between(a.at, b.at);
    var target1: Point, target2: Point;
    if Distance(g, ab) < CLOSE_ENOUGH {
      target1, target2 := a, a;
    } else {
      var candidates := Candidates(g, a.at, b.at);
      target1 := new Point(candidates.0);
      target2 := new Point(candidates.1);
    }
    var target1Distance := Distance(g, Between(player.at, target1.at));
    var target2Distance := Distance(g, Between(player.at, target2.at));
    if target1Distance < target2Distance + HYSTERESIS {
      if target1Distance < CLOSE_ENOUGH {
        t0, t1 := player, target2;
      } else {
        t0, t1 := target1, target2;
      }
    } else {
      if target2Distance < CLOSE_ENOUGH {
        t0, t1 := player, target1;
      } else {
        t0, t1 := target2, target1;
      }
    }
  }

  /** The position objects of the players, in order. */
  function PositionsOf(ps: seq<Player>): (points: seq<Point>)
    reads ps
    ensures |points| == |ps| && forall i :: 0 <= i < |ps| ==> points[i] == ps[i].position
  {
    seq(|ps|, i requires 0 <= i < |ps| reads ps => ps[i].position)
  }

  /** The first `i` turns of `calculateNewTargets` over the players `before`
      are done: those players have their new targets, the rest of every
      player is as it was, and the box has taken in the candidates so far. */
  ghost predicate Retargeting(g: Geometry, ps: seq<Player>, box: BoundingBox, before: seq<PlayerRec>,
                              points: seq<Point>, start: Option<Box>, i: nat)
    reads ps, box
  {
    && QuarterTurnInvariant(g) && Resolved(before) && i <= |ps| == |before| == |points|
    && (forall j :: 0 <= j < |ps| ==> ps[j].position == points[j] && points[j].at == before[j].position)
    && (forall j :: 0 <= j < |ps| ==> ps[j].following == before[j].following)
    && (forall j :: 0 <= j < i ==> TargetValue(ps[j].target) == Retargeted(g, before, j).target)
    && box.Valid() && box.Value() == BoxOf(start, TargetPoints(g, before, i))
  }

  /** The first `i` turns of `calculateNewPositions` over the players
      `before` are done: those players stand at their new positions, with
      the moving flag to match, the others have not moved, and the box has
      taken in the new positions so far. */
  ghost predicate Advancing(g: Geometry, ps: seq<Player>, box: BoundingBox, before: seq<PlayerRec>,
                            points: seq<Point>, start: Option<Box>, i: nat)
    reads ps, box
  {
    && i <= |ps| == |before| == |points|
    && (forall j :: 0 <= j < |ps| ==> points[j].at == before[j].position)
    && (forall j :: 0 <= j < |ps| ==> TargetValue(ps[j].target) == before[j].target)
    && (forall j :: i <= j < |ps| ==> ps[j].position == points[j])
    && (forall j :: 0 <= j < i ==> ps[j].position.at == Advanced(g, before[j]).position)
    && (forall j :: 0 <= j < i ==>
          (ps[j].IsMoving() <==>
             ps[j].target != null && Distance(g, Between(before[j].position, ps[j].target.at)) > SPEED))
    && box.Valid() && box.Value() == BoxOf(start, PositionPoints(NewPositions(g, before), i))
  }

  /** Player ids are their indices (so the players are distinct objects),
      and every player has the one speed the source gives it. */
  predicate PointPlayersIndexed(ps: seq<Player>) {
    forall i :: 0 <= i < |ps| ==> ps[i].id == i && ps[i].speed == SPEED
  }

  class State {
    const geometry: Geometry
    var players: seq<Player>
    var boundingBox: BoundingBox?

    ghost predicate Valid()
      reads this`players
    {
      QuarterTurnInvariant(geometry) && PointPlayersIndexed(players)
    }

    function Snapshot(): seq<PlayerRec>
      reads this`players, players
    {
      PointPlayerRecs(players)
    }

    constructor (geometry: Geometry)
      requires QuarterTurnInvariant(geometry)
      ensures this.geometry == geometry && Valid() && players == [] && boundingBox == null
    {
      this.geometry := geometry;
      players := [];
      boundingBox := null;
    }

    /** `addPlayer(following0, following1, x, y)`: append a player whose id is
        the old length; its slots are not checked. */
    method AddPlayer(following0: PlayerId, following1: PlayerId, x: real, y: real)
      requires Valid()
      modifies this`players
      ensures Valid() && |players| == |old(players)| + 1 && players[..|old(players)|] == old(players)
      ensures fresh(players[|old(players)|])
      ensures Snapshot() == old(Snapshot()) + [PlayerRec((following0, following1), Position(x, y), None)]
    {
      var position := new Point(Position(x, y));
      var player := new Player(|players|, (following0, following1), position);
      players := players + [player];
      assert players[..|old(players)|] == old(players);
    }

    /** `calculateNewTargets()`: every following player heads for its preferred
        apex, every other player has no target; both candidates of each
        following player go to the box. */
    method CalculateNewTargets()
      requires Valid() && Resolved(Snapshot()) && boundingBox != null && boundingBox.Valid()
      modifies players`target, boundingBox
      ensures Snapshot() == NewTargets(geometry, old(Snapshot()))
      ensures boundingBox.Valid()
      ensures boundingBox.Value() == BoxOf(old(boundingBox.Value()), TargetPoints(geometry, old(Snapshot()), |players|))
    {
      RetargetAll(geometry, players, boundingBox);
    }

    /** The loop of `calculateNewTargets`. */
    static method RetargetAll(g: Geometry, ps: seq<Player>, box: BoundingBox)
      requires QuarterTurnInvariant(g) && PointPlayersIndexed(ps) && Resolved(PointPlayerRecs(ps)) && box.Valid()
      modifies ps`target, box
      ensures PointPlayerRecs(ps) == NewTargets(g, old(PointPlayerRecs(ps)))
      ensures box.Valid() && box.Value() == BoxOf(old(box.Value()), TargetPoints(g, old(PointPlayerRecs(ps)), |ps|))
    {
      ghost var before := PointPlayerRecs(ps);
      ghost var points := PositionsOf(ps);
      for i := 0 to |ps|
        invariant Retargeting(g, ps, box, before, points, old(box.Value()), i)
      {
        RetargetStep(g, ps, i, ps[i], box, before, points, old(box.Value()));
      }
      forall j | 0 <= j < |ps| ensures ps[j].Rec() == Retargeted(g, before, j) {
        assert ps[j].following == before[j].following && ps[j].position == points[j];
      }
    }

    /** Player `i`'s turn in `calculateNewTargets`, and what it leaves of the loop's invariant. */
    static method RetargetStep(g: Geometry, ps: seq<Player>, i: nat, player: Player, box: BoundingBox,
                               ghost before: seq<PlayerRec>, ghost points: seq<Point>, ghost start: Option<Box>)
      requires PointPlayersIndexed(ps) && i < |ps| && player == ps[i]
      requires Retargeting(g, ps, box, before, points, start, i)
      modifies player`target, box
      ensures Retargeting(g, ps, box, before, points, start, i + 1)
    {
      RetargetPlayer(g, ps, i, player, box, before, points, start);
    }

    /** Player `i`'s turn in `calculateNewTargets`, against the players of `before`. */
    static method RetargetPlayer(g: Geometry, ps: seq<Player>, i: nat, player: Player, box: BoundingBox,
                                 ghost before: seq<PlayerRec>, ghost points: seq<Point>, ghost start: Option<Box>)
      requires QuarterTurnInvariant(g) && Resolved(before) && i < |ps| == |before| == |points| && player == ps[i]
      requires forall j :: 0 <= j < |ps| ==> ps[j].position == points[j]
      requires forall j :: 0 <= j < |ps| ==> points[j].at == before[j].position
      requires player.following == before[i].following
      requires box.Valid() && box.Value() == BoxOf(start, TargetPoints(g, before, i))
      modifies player`target, box
      ensures TargetValue(player.target) == Retargeted(g, before, i).target
      ensures HoldsStill(g, before, i) ==> player.target == player.position
      ensures box.Valid() && box.Value() == BoxOf(start, TargetPoints(g, before, i + 1))
    {
      BoxOfAppend(start, TargetPoints(g, before, i), RetargetPoints(g, before, i));
      if player.IsFollowing() {
        var t0, t1 := CalculateTargetPoints(g, player.position, ps[player.following.0].position,
                                             ps[player.following.1].position);
        box.Expand(t0.at);
        box.Expand(t1.at);
        BoxOfSnoc(old(box.Value()), [t0.at], t1.at);
        BoxOfSnoc(old(box.Value()), [], t0.at);
        player.target := t0;
      } else {
        player.target := null;
      }
    }

    /** `calculateNewPositions()`: each targeted player steps toward its
        target, landing on the target object itself when within reach; every
        new position goes to the box. */
    method CalculateNewPositions()
      requires Valid() && boundingBox != null && boundingBox.Valid()
      modifies players`position, boundingBox
      ensures Snapshot() == NewPositions(geometry, old(Snapshot()))
      ensures forall i :: 0 <= i < |players| ==>
                (players[i].IsMoving() <==>
                   players[i].target != null &&
                   Distance(geometry, Between(old(Snapshot())[i].position, players[i].target.at)) > SPEED)
      ensures boundingBox.Valid()
      ensures boundingBox.Value() == BoxOf(old(boundingBox.Value()), PositionPoints(Snapshot(), |players|))
    {
      AdvanceAll(geometry, players, boundingBox);
    }

    /** The loop of `calculateNewPositions`. */
    static method AdvanceAll(g: Geometry, ps: seq<Player>, box: BoundingBox)
      requires PointPlayersIndexed(ps) && box.Valid()
      modifies ps`position, box
      ensures PointPlayerRecs(ps) == NewPositions(g, old(PointPlayerRecs(ps)))
      ensures forall i :: 0 <= i < |ps| ==>
                (ps[i].IsMoving() <==>
                   ps[i].target != null && Distance(g, Between(old(PointPlayerRecs(ps))[i].position, ps[i].target.at)) > SPEED)
      ensures box.Valid() && box.Value() == BoxOf(old(box.Value()), PositionPoints(PointPlayerRecs(ps), |ps|))
    {
      ghost var before := PointPlayerRecs(ps);
      ghost var points := PositionsOf(ps);
      for i := 0 to |ps|
        invariant Advancing(g, ps, box, before, points, old(box.Value()), i)
      {
        AdvanceStep(g, ps, i, ps[i], box, before, points, old(box.Value()));
      }
      forall j | 0 <= j < |ps| ensures ps[j].Rec() == Advanced(g, before[j]) {
        assert ps[j].following == before[j].following && TargetValue(ps[j].target) == before[j].target;
      }
    }

    /** Player `i`'s turn in `calculateNewPositions`, and what it leaves of the loop's invariant. */
    static method AdvanceStep(g: Geometry, ps: seq<Player>, i: nat, player: Player, box: BoundingBox,
                              ghost before: seq<PlayerRec>, ghost points: seq<Point>, ghost start: Option<Box>)
      requires PointPlayersIndexed(ps) && i < |ps| && player == ps[i]
      requires Advancing(g, ps, box, before, points, start, i)
      modifies player`position, box
      ensures Advancing(g, ps, box, before, points, start, i + 1)
    {
      AdvancePlayer(g, player, box);
      BoxOfSnoc(start, PositionPoints(NewPositions(g, before), i), Advanced(g, before[i]).position);
    }

    /** One player's turn in `calculateNewPositions`: a step of `speed`
        toward its target, or onto the target object itself when within
        reach; then the box takes in the position. */
    static method AdvancePlayer(g: Geometry, player: Player, box: BoundingBox)
      requires player.speed == SPEED && box.Valid()
      modifies player`position, box
      ensures player.position.at == Advanced(g, old(player.Rec())).position
      ensures player.IsMoving() <==>
                player.target != null && Distance(g, Between(old(player.position.at), player.target.at)) > SPEED
      ensures box.Valid() && box.Value() == Some(Expanded(old(box.Value()), player.position.at))
    {
      if player.target != null {
        var targetVector := Between(player.position.at, player.target.at);
        if Distance(g, targetVector) > player.speed {
          player.position := new Point(Add(player.position.at, Multiply(Normalize(g, targetVector), player.speed)));
        } else {
          player.position := player.target;
        }
      }
      box.Expand(player.position.at);
    }

    /** `update()`: a new box, then new targets, then new positions. */
    method Update()
      requires Valid() && Resolved(Snapshot())
      modifies this`boundingBox, players`target, players`position
      ensures Valid() && players == old(players)
      ensures Snapshot() == Updated(geometry, old(Snapshot()))
      ensures boundingBox != null && fresh(boundingBox) && boundingBox.Valid()
      ensures boundingBox.Value() == UpdateBox(geometry, old(Snapshot()))
      ensures forall i :: 0 <= i < |players| ==>
                (players[i].IsMoving() <==>
                   players[i].target != null && Distance(geometry, Between(old(Snapshot())[i].position, players[i].target.at)) > SPEED)
    {
      ghost var before := Snapshot();
      var box := new BoundingBox();
      RetargetAll(geometry, players, box);
      AdvanceAll(geometry, players, box);
      BoxOfAppend(None, TargetPoints(geometry, before, |players|), PositionPoints(Snapshot(), |players|));
      boundingBox := box;
    }
  }
}
