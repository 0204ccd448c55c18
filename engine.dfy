/**
 * The `State` class of `src/model.ts`: the players array, the moving flag
 * and the last bounding box, with the operations the editor and the
 * animation loop call. Each operation is proved to do what the rules in
 * `Formation` and `Transfer` say.
 */
module Engine {
  import opened Wrappers
  import opened Geometry
  import opened Targets
  import opened Bounds
  import opened Players
  import opened History
  import opened Transfer
  import opened Formation

  /** The players' states as values. */
  function Recs(ps: seq<Player>): (rs: seq<PlayerRec>)
    reads ps
    ensures |rs| == |ps|
    ensures forall i :: 0 <= i < |ps| ==> rs[i] == ps[i].Rec()
  {
    seq(|ps|, i requires 0 <= i < |ps| reads ps => ps[i].Rec())
  }

  /** Each player's id is its index (ids are fixed at construction). */
  predicate Indexed(ps: seq<Player>) {
    forall i :: 0 <= i < |ps| ==> ps[i].id == i
  }

  class State {
    const geometry: Geometry
    const historyLength: nat
    var players: seq<Player>
    /** The `boundingBox` store: `null` until the first `update`. */
    var boundingBox: BoundingBox?
    var moving: bool

    ghost predicate Valid()
      reads this`players, players
    {
      && QuarterTurnInvariant(geometry)
      && historyLength >= 1
      && Indexed(players)
      && WellFormed(Recs(players), historyLength)
    }

    /** All players as values. */
    function Snapshot(): seq<PlayerRec>
      reads this`players, players
    {
      Recs(players)
    }

    constructor (g: Geometry)
      requires QuarterTurnInvariant(g)
      ensures Valid()
      ensures geometry == g && historyLength == HISTORY_LENGTH
      ensures players == [] && boundingBox == null && moving
    {
      geometry := g;
      historyLength := HISTORY_LENGTH;
      players := [];
      boundingBox := null;
      moving := true;
    }

    /** `getHistoricalPosition`. */
    static method GetHistoricalPosition(player: Player, reactionTimeSeconds: real) returns (pos: Position)
      ensures pos == HistoricalPosition(player.Rec(), reactionTimeSeconds)
    {
      var reactionTimeMillis := reactionTimeSeconds * 1000.0;
      var timeInPast := 0.0;
      var history := player.history;
      pos := player.position;
      var i := 0;
      while i != |history| && timeInPast < reactionTimeMillis
        invariant 0 <= i <= |history|
        invariant Walk(history[i..], pos, timeInPast, reactionTimeMillis)
               == HistoricalPosition(player.Rec(), reactionTimeSeconds)
        decreases |history| - i
      {
        assert history[i..][1..] == history[i + 1..];
        var elapsedMillis;
        elapsedMillis, pos := history[i].0, history[i].1;
        timeInPast := timeInPast + elapsedMillis;
        i := i + 1;
      }
    }

    /** `calculateNewTargets(boundingBox)`; `box` may be null. */
    method CalculateNewTargets(box: BoundingBox?)
      requires Valid()
      requires box != null ==> box.Valid()
      modifies players, box
      ensures Valid()
      ensures Snapshot() == NewTargets(geometry, old(Snapshot()))
      ensures box != null ==>
                box.Valid() && box.Value() == BoxOf(old(box.Value()), TargetPoints(geometry, old(Snapshot()), |players|))
    {
      ghost var before := Snapshot();
      RetargetAll(geometry, players, box);
      NewTargetsKeepsWellFormed(geometry, before, historyLength);
    }

    /** The loop of `calculateNewTargets`: each player in turn, against the
        positions and histories of the array as it was before the loop. */
    static method RetargetAll(g: Geometry, ps: seq<Player>, box: BoundingBox?)
      requires QuarterTurnInvariant(g) && Indexed(ps) && AllSlotsIn(Recs(ps))
      requires box != null ==> box.Valid()
      modifies ps, box
      ensures Recs(ps) == NewTargets(g, old(Recs(ps)))
      ensures box != null ==>
                box.Valid() && box.Value() == BoxOf(old(box.Value()), TargetPoints(g, old(Recs(ps)), |ps|))
    {
      ghost var before := Recs(ps);
      for i := 0 to |ps|
        invariant forall j :: 0 <= j < i ==> ps[j].Rec() == Retargeted(g, before, before[j])
        invariant forall j :: i <= j < |ps| ==> ps[j].Rec() == before[j]
        invariant forall j :: 0 <= j < |ps| ==>
                    ps[j].position == before[j].position && ps[j].history == before[j].history
        invariant box != null ==>
                    box.Valid() && box.Value() == BoxOf(old(box.Value()), TargetPoints(g, before, i))
      {
        RetargetPlayer(g, ps, i, box, before);
        if box != null {
          BoxOfAppend(old(box.Value()), TargetPoints(g, before, i), RetargetPoints(g, before, before[i]));
        }
      }
      assert Recs(ps) == NewTargets(g, before);
    }

    /** Player `i`'s turn in `calculateNewTargets`, against the positions and
        histories of `before`. */
    static method RetargetPlayer(g: Geometry, ps: seq<Player>, i: nat, box: BoundingBox?, ghost before: seq<PlayerRec>)
      requires QuarterTurnInvariant(g) && i < |ps| == |before| && AllSlotsIn(before)
      requires forall j :: 0 <= j < |ps| ==>
                 ps[j].position == before[j].position && ps[j].history == before[j].history
      requires ps[i].Rec() == before[i]
      requires box != null ==> box.Valid()
      modifies ps[i], box
      ensures ps[i].Rec() == Retargeted(g, before, before[i])
      ensures box != null ==>
                box.Valid() && box.Value() == BoxOf(old(box.Value()), RetargetPoints(g, before, before[i]))
    {
      var target, perceived := PlayerTargets(g, ps, i, box, before);
      ps[i].SetTargets(target, perceived);
    }

    /** The two targets player `i` gets in `calculateNewTargets`, and the
        candidates fed to `box` on the way. */
    static method PlayerTargets(g: Geometry, ps: seq<Player>, i: nat, box: BoundingBox?, ghost before: seq<PlayerRec>)
      returns (target: Option<Position>, perceived: Option<Position>)
      requires QuarterTurnInvariant(g) && i < |ps| == |before| && AllSlotsIn(before)
      requires forall j :: 0 <= j < |ps| ==>
                 ps[j].position == before[j].position && ps[j].history == before[j].history
      requires ps[i].Rec() == before[i]
      requires box != null ==> box.Valid()
      modifies box
      ensures target == Retargeted(g, before, before[i]).target
      ensures perceived == Retargeted(g, before, before[i]).perceivedTarget
      ensures box != null ==>
                box.Valid() && box.Value() == BoxOf(old(box.Value()), RetargetPoints(g, before, before[i]))
    {
      var player := ps[i];
      if !player.IsFollowing() {
        return None, None;
      }
      ghost var r := before[i];
      var a := ps[player.following.0];
      var b := ps[player.following.1];
      var targets := ChooseTargets(g, player.position, a.position, b.position, box);
      assert targets == TargetsOf(g, before, r);
      target := Some(targets.0);
      perceived := target;
      if player.reactionTime > 0.0 {
        var pa := GetHistoricalPosition(a, player.reactionTime);
        var pb := GetHistoricalPosition(b, player.reactionTime);
        var perceivedTargets := ChooseTargets(g, player.position, pa, pb, box);
        assert perceivedTargets == PerceivedTargetsOf(g, before, r);
        perceived := Some(perceivedTargets.0);
        if box != null {
          BoxOfAppend(old(box.Value()), [targets.0, targets.1], [perceivedTargets.0, perceivedTargets.1]);
        }
      }
    }

    /** `calculateTargets(player, a, b)` followed by expanding `box` by both targets. */
    static method ChooseTargets(g: Geometry, player: Position, a: Position, b: Position, box: BoundingBox?)
      returns (targets: (Position, Position))
      requires QuarterTurnInvariant(g)
      requires box != null ==> box.Valid()
      modifies box
      ensures targets == CalculateTargets(g, player, a, b)
      ensures box != null ==> box.Valid() && box.Value() == BoxOf(old(box.Value()), [targets.0, targets.1])
    {
      targets := CalculateTargets(g, player, a, b);
      if box != null {
        box.Expand(targets.0);
        BoxOfSnoc(old(box.Value()), [], targets.0);
        box.Expand(targets.1);
        BoxOfSnoc(old(box.Value()), [targets.0], targets.1);
      }
    }

    /** `calculateNewPositions(elapsedMillis, boundingBox)`; `box` may be null. */
    method CalculateNewPositions(elapsedMillis: real, box: BoundingBox?)
      requires Valid() && elapsedMillis >= 0.0
      requires box != null ==> box.Valid()
      modifies players, box
      ensures Valid()
      ensures Snapshot() == Tick(geometry, old(Snapshot()), elapsedMillis, historyLength)
      ensures box != null ==>
                box.Valid() && box.Value() == BoxOf(old(box.Value()), PositionPoints(Snapshot(), |players|))
    {
      ghost var before := Snapshot();
      AdvanceAll(geometry, players, elapsedMillis, historyLength, box);
      TickKeepsWellFormed(geometry, before, elapsedMillis, historyLength);
    }

    /** The loop of `calculateNewPositions`. */
    static method AdvanceAll(g: Geometry, ps: seq<Player>, elapsedMillis: real, limit: nat, box: BoundingBox?)
      requires Indexed(ps) && AllSpeedsNonNegative(Recs(ps)) && elapsedMillis >= 0.0
      requires box != null ==> box.Valid()
      modifies ps, box
      ensures Recs(ps) == Tick(g, old(Recs(ps)), elapsedMillis, limit)
      ensures box != null ==>
                box.Valid() && box.Value() == BoxOf(old(box.Value()), PositionPoints(Recs(ps), |ps|))
    {
      ghost var before := Recs(ps);
      ghost var after := Tick(g, before, elapsedMillis, limit);
      assert AllSpeedsNonNegative(before);
      for i := 0 to |ps|
        invariant forall j :: 0 <= j < i ==> ps[j].Rec() == after[j]
        invariant forall j :: i <= j < |ps| ==> ps[j].Rec() == before[j]
        invariant box != null ==>
                    box.Valid() && box.Value() == BoxOf(old(box.Value()), PositionPoints(after, i))
      {
        assert ps[i].speed == before[i].speed;
        AdvancePlayer(g, ps[i], elapsedMillis, limit, box);
        if box != null {
          ghost var added := if after[i].active then [after[i].position] else [];
          assert box.Value() == BoxOf(BoxOf(old(box.Value()), PositionPoints(after, i)), added);
          assert PositionPoints(after, i + 1) == PositionPoints(after, i) + added;
          BoxOfAppend(old(box.Value()), PositionPoints(after, i), added);
        }
      }
      assert Recs(ps) == after;
    }

    /** One player's turn in `calculateNewPositions`: move it, then expand
        `box` by its new position if it is active. */
    static method AdvancePlayer(g: Geometry, player: Player, elapsedMillis: real, limit: nat, box: BoundingBox?)
      requires player.speed >= 0.0 && elapsedMillis >= 0.0
      requires box != null ==> box.Valid()
      modifies player, box
      ensures player.Rec() == Advanced(g, old(player.Rec()), elapsedMillis, limit)
      ensures box != null ==>
                && box.Valid()
                && box.Value() == BoxOf(old(box.Value()), if player.active then [player.position] else [])
    {
      player.Advance(g, elapsedMillis, limit);
      if box != null && player.active {
        box.Expand(player.position);
        BoxOfSnoc(old(box.Value()), [], player.position);
      }
    }

    /** `calculateMoving`. */
    method CalculateMoving()
      requires Valid()
      modifies this`moving
      ensures Valid()
      ensures moving == AnyMoving(Snapshot())
    {
      moving := exists i | 0 <= i < |players| ::
                  IsMovingRaw(players[i].active, players[i].target, players[i].position);
    }

    /** `update(elapsedMillis)`: one animation tick. */
    method Update(elapsedMillis: real)
      requires Valid() && elapsedMillis >= 0.0
      modifies this`boundingBox, this`moving, players
      ensures Valid()
      ensures Snapshot() == Tick(geometry, NewTargets(geometry, old(Snapshot())), elapsedMillis, historyLength)
      ensures moving == AnyMoving(Snapshot())
      ensures boundingBox != null && fresh(boundingBox)
      ensures boundingBox.Value()
           == BoxOf(None, TargetPoints(geometry, old(Snapshot()), |players|) + PositionPoints(Snapshot(), |players|))
    {
      var box := MovePlayers(elapsedMillis);
      Publish(box);
    }

    /** The last two steps of `update`: recompute the moving flag, then
        replace the `boundingBox` store's value with the new box. */
    method Publish(box: BoundingBox)
      requires Valid()
      modifies this`boundingBox, this`moving
      ensures Valid()
      ensures moving == AnyMoving(Snapshot())
      ensures boundingBox == box
    {
      CalculateMoving();
      boundingBox := box;
    }

    /** The first two steps of `update`: new targets, then new positions,
        both accumulated into a new bounding box. */
    method MovePlayers(elapsedMillis: real) returns (box: BoundingBox)
      requires Valid() && elapsedMillis >= 0.0
      modifies players
      ensures Valid() && fresh(box)
      ensures Snapshot() == Tick(geometry, NewTargets(geometry, old(Snapshot())), elapsedMillis, historyLength)
      ensures box.Value()
           == BoxOf(None, TargetPoints(geometry, old(Snapshot()), |players|) + PositionPoints(Snapshot(), |players|))
    {
      ghost var before := Snapshot();
      box := new BoundingBox();
      CalculateNewTargets(box);
      CalculateNewPositions(elapsedMillis, box);
      BoxOfAppend(None, TargetPoints(geometry, before, |before|), PositionPoints(Snapshot(), |players|));
    }

    /** `_addPlayer(players, position)`: append a new player whose id is the old length. */
    static method AddPlayerTo(players: seq<Player>, position: Position) returns (grown: seq<Player>, player: Player)
      ensures fresh(player)
      ensures grown == players + [player]
      ensures player.Rec() == NewPlayerRec(|players|, position)
    {
      player := new Player(|players|, position);
      grown := players + [player];
    }

    /** `addPlayer(position)`. */
    method AddPlayer(position: Position) returns (player: Player)
      requires Valid()
      modifies this
      ensures Valid() && fresh(player)
      ensures players == old(players) + [player]
      ensures Snapshot() == old(Snapshot()) + [NewPlayerRec(|old(players)|, position)]
      ensures moving == old(moving) && boundingBox == old(boundingBox)
    {
      players, player := AddPlayerTo(players, position);
      AddKeepsWellFormed(old(Snapshot()), historyLength, position);
    }

    /** `deletePlayer(playerId)`. */
    method DeletePlayer(playerId: PlayerId)
      requires Valid() && 0 <= playerId < |players|
      modifies players
      ensures Valid()
      ensures Snapshot() == Deleted(old(Snapshot()), playerId)
    {
      ghost var before := Snapshot();
      var ps := players;
      assert Indexed(ps);
      ps[playerId].Delete();
      StopFollowingAll(ps, playerId);
      assert Recs(ps) == Deleted(before, playerId);
      DeleteCascades(before, historyLength, playerId);
    }

    /** The cascade loop of `deletePlayer`: every player stops following `x`. */
    static method StopFollowingAll(ps: seq<Player>, x: PlayerId)
      requires Indexed(ps)
      modifies ps
      ensures forall j :: 0 <= j < |ps| ==> ps[j].Rec() == StoppedFollowing(old(ps[j].Rec()), x)
    {
      for i := 0 to |ps|
        invariant forall j :: 0 <= j < i ==> ps[j].Rec() == StoppedFollowing(old(ps[j].Rec()), x)
        invariant forall j :: i <= j < |ps| ==> ps[j].Rec() == old(ps[j].Rec())
      {
        ps[i].StopFollowing(x);
      }
    }

    /** `setPosition(playerId, position)`: move a player, then recompute
        targets and the moving flag. */
    method SetPosition(playerId: PlayerId, position: Position)
      requires Valid() && 0 <= playerId < |players|
      modifies this`moving, players
      ensures Valid() && players == old(players)
      ensures Snapshot()
           == NewTargets(geometry, old(Snapshot())[playerId := old(Snapshot())[playerId].(position := position)])
      ensures moving == AnyMoving(Snapshot())
      ensures boundingBox == old(boundingBox)
    {
      players[playerId].position := position;
      assert Snapshot() == old(Snapshot())[playerId := old(Snapshot())[playerId].(position := position)];
      CalculateNewTargets(null);
      CalculateMoving();
    }

    /** `setReactionTime()`: called once a reaction time has changed; recompute
        targets and the moving flag. */
    method SetReactionTime()
      requires Valid()
      modifies this`moving, players
      ensures Valid() && players == old(players)
      ensures Snapshot() == NewTargets(geometry, old(Snapshot()))
      ensures moving == AnyMoving(Snapshot())
      ensures boundingBox == old(boundingBox)
    {
      CalculateNewTargets(null);
      CalculateMoving();
    }

    /** `follow(playerId, followingIndex, followingPlayerId, update)`: set one
        slot, then recompute targets when `update` (the moving flag is left alone). */
    method Follow(playerId: PlayerId, followingIndex: FollowingIndex, followingPlayerId: PlayerId, update: bool)
      requires Valid() && 0 <= playerId < |players|
      requires Resolvable(followingPlayerId, |players|)
      modifies players
      ensures Valid()
      ensures var followed := FollowedIn(old(Snapshot()), playerId, followingIndex, followingPlayerId);
              Snapshot() == if update then NewTargets(geometry, followed) else followed
    {
      ghost var before := Snapshot();
      players[playerId].Follow(followingIndex, followingPlayerId);
      FollowKeepsWellFormed(before, historyLength, playerId, followingIndex, followingPlayerId);
      assert Snapshot() == FollowedIn(before, playerId, followingIndex, followingPlayerId);
      if update {
        CalculateNewTargets(null);
      }
    }

    /** `export()`: the records of the active players, in ascending id order. */
    function Export(): (out: seq<PlayerRecord>)
      requires Valid()
      reads this, players
      ensures StrictlyAscending(out)
      ensures forall x :: x in out <==>
                exists i :: 0 <= i < |players| && Snapshot()[i].active && ToRecord(Snapshot()[i]) == x
    {
      var out := ExportRecords(Snapshot());
      ExportAscending(Snapshot());
      assert forall x :: x in out <==>
               exists i :: 0 <= i < |players| && Snapshot()[i].active && ToRecord(Snapshot()[i]) == x by {
        forall x ensures x in out <==>
                 exists i :: 0 <= i < |players| && Snapshot()[i].active && ToRecord(Snapshot()[i]) == x {
          ExportedExactlyActive(Snapshot(), x);
        }
      }
      out
    }

    /** The build loop of `import`: walk the records in id order, pushing an
        inactive placeholder at (0, 0) for every missing id and then the
        record's own player. */
    static method BuildPlayers(sorted: seq<PlayerRecord>) returns (ps: seq<Player>)
      requires StrictlyAscending(sorted) && forall r :: r in sorted ==> r.id >= 0
      ensures |ps| == Span(sorted)
      ensures forall i :: 0 <= i < |ps| ==> fresh(ps[i]) && ps[i].id == i
      ensures forall i :: 0 <= i < |ps| ==> ps[i].Rec() == BuiltAt(sorted, i)
    {
      ps := [];
      var nextPlayerId := 0;
      for k := 0 to |sorted|
        invariant nextPlayerId == |ps| == if k == 0 then 0 else sorted[k - 1].id + 1
        invariant forall i :: 0 <= i < |ps| ==> fresh(ps[i]) && ps[i].id == i
        invariant forall i :: 0 <= i < |ps| ==> ps[i].Rec() == BuiltAt(sorted[..k], i)
      {
        ps, nextPlayerId := BuildRecord(ps, sorted, k);
      }
      assert sorted[..|sorted|] == sorted;
      SpanOfAscending(sorted);
    }

    /** One pass of the build loop of `import`: placeholders up to the id of
        record `k`, then that record's player. */
    static method BuildRecord(ps: seq<Player>, sorted: seq<PlayerRecord>, k: nat)
      returns (grown: seq<Player>, nextPlayerId: PlayerId)
      requires StrictlyAscending(sorted) && k < |sorted| && forall r :: r in sorted ==> r.id >= 0
      requires |ps| == if k == 0 then 0 else sorted[k - 1].id + 1
      requires forall i :: 0 <= i < |ps| ==> ps[i].id == i && ps[i].Rec() == BuiltAt(sorted[..k], i)
      ensures nextPlayerId == |grown| == sorted[k].id + 1 && grown[..|ps|] == ps
      ensures forall i :: |ps| <= i < |grown| ==> fresh(grown[i])
      ensures forall i :: 0 <= i < |grown| ==> grown[i].id == i && grown[i].Rec() == BuiltAt(sorted[..k + 1], i)
    {
      assert sorted[k] in sorted;
      assert k > 0 ==> sorted[k - 1].id < sorted[k].id;
      grown, nextPlayerId := AddPlaceholders(ps, sorted[k].id);
      ghost var filled := grown;
      var player;
      grown, player := AddPlayerTo(grown, sorted[k].position);
      player.speed := sorted[k].speed;
      player.reactionTime := sorted[k].reactionTime;
      nextPlayerId := nextPlayerId + 1;
      forall i | 0 <= i < |grown| ensures grown[i].id == i && grown[i].Rec() == BuiltAt(sorted[..k + 1], i) {
        BuiltPrefixStep(sorted, k, i);
        if i < |filled| {
          assert grown[i] == filled[i];
          if i < |ps| {
            assert filled[i] == ps[i];
          }
        }
      }
    }

    /** The gap-filling `while` of `import`: push inactive placeholders at
        (0, 0) until the next id is `id`. */
    static method AddPlaceholders(ps: seq<Player>, id: PlayerId) returns (grown: seq<Player>, nextPlayerId: PlayerId)
      requires |ps| <= id
      ensures nextPlayerId == |grown| == id && grown[..|ps|] == ps
      ensures forall i :: |ps| <= i < id ==> fresh(grown[i]) && grown[i].id == i && grown[i].Rec() == Placeholder(i)
    {
      grown, nextPlayerId := ps, |ps|;
      while nextPlayerId != id
        invariant nextPlayerId == |grown| <= id && grown[..|ps|] == ps
        invariant forall i :: |ps| <= i < |grown| ==>
                    fresh(grown[i]) && grown[i].id == i && grown[i].Rec() == Placeholder(i)
        decreases id - nextPlayerId
      {
        var player;
        grown, player := AddPlayerTo(grown, Position(0.0, 0.0));
        player.active := false;
        nextPlayerId := nextPlayerId + 1;
      }
    }

    /** The wiring loop of `import`: each record's player follows the
        record's two ids, slot 0 first. */
    static method WirePlayers(ps: seq<Player>, sorted: seq<PlayerRecord>)
      requires Indexed(ps) && DistinctIds(sorted) && forall r :: r in sorted ==> 0 <= r.id < |ps|
      requires forall i :: 0 <= i < |ps| ==> ps[i].Rec() == BuiltAt(sorted, i)
      modifies ps
      ensures forall i :: 0 <= i < |ps| ==> ps[i].Rec() == ImportedAt(sorted, i)
    {
      for k := 0 to |sorted|
        invariant forall i :: 0 <= i < |ps| ==>
                    ps[i].Rec() == if Find(sorted[..k], i).Some? then ImportedAt(sorted, i) else BuiltAt(sorted, i)
      {
        var id := sorted[k].id;
        assert sorted[k] in sorted;
        DistinctPrefixMiss(sorted, k);
        FindsMember(sorted, sorted[k]);
        ps[id].Follow(0, sorted[k].following.0);
        ps[id].Follow(1, sorted[k].following.1);
        forall i | 0 <= i < |ps| ensures Find(sorted[..k + 1], i).Some? == (i == id || Find(sorted[..k], i).Some?) {
          FindPrefixStep(sorted, k, i);
        }
      }
      assert sorted[..|sorted|] == sorted;
    }

    /** `import(records)`: build a new players array from the records and
        swap it in only at the end, then recompute targets and the moving
        flag. The old players are left as they were. */
    method Import(records: seq<PlayerRecord>)
      requires Valid() && Importable(records)
      modifies this
      ensures Valid()
      ensures forall p :: p in players ==> fresh(p)
      ensures Snapshot() == NewTargets(geometry, ImportedRecs(records))
      ensures moving == AnyMoving(Snapshot())
      ensures boundingBox == old(boundingBox)
    {
      var ps := ImportPlayers(records);
      players := ps;
      ImportedWellFormed(records, historyLength);
      assert forall i :: 0 <= i < |players| ==> players[i] in ps;
      assert forall i :: 0 <= i < |players| ==> fresh(players[i]);
      CalculateNewTargets(null);
      CalculateMoving();
    }

    /** The building half of `import`: sort, build every player, then wire
        the anchors, all in a new array. */
    static method ImportPlayers(records: seq<PlayerRecord>) returns (ps: seq<Player>)
      requires Importable(records)
      ensures forall p :: p in ps ==> fresh(p)
      ensures Indexed(ps)
      ensures Recs(ps) == ImportedRecs(records)
    {
      var sorted := SortById(records);
      SortByIdSorts(records);
      SameRecordsSameImport(records, sorted);
      ps := BuildPlayers(sorted);
      assert forall p :: p in ps ==> fresh(p);
      WirePlayers(ps, sorted);
    }
  }

  /** The free function `addPlayer(state, following0, following1, x, y)`: add
      a player, then fill its two slots without recomputing targets. A slot
      naming the new player itself, or repeating the first slot, stays empty. */
  method AddFollowingPlayer(state: State, following0: PlayerId, following1: PlayerId, position: Position)
    returns (player: Player)
    requires state.Valid()
    requires Resolvable(following0, |state.players| + 1) && Resolvable(following1, |state.players| + 1)
    modifies state, state.players
    ensures state.Valid() && fresh(player)
    ensures state.players == old(state.players) + [player]
    ensures state.Snapshot()[..|old(state.players)|] == old(state.Snapshot())
    ensures var n := |old(state.players)|;
            var f0 := if following0 == n then NO_PLAYER else following0;
            var f1 := if following1 == n || following1 == f0 then NO_PLAYER else following1;
            state.Snapshot()[n] == NewPlayerRec(n, position).(following := (f0, f1))
    ensures state.moving == old(state.moving) && state.boundingBox == old(state.boundingBox)
  {
    player := state.AddPlayer(position);
    assert state.players[|state.players| - 1] == player;
    state.Follow(player.id, 0, following0, false);
    state.Follow(player.id, 1, following1, false);
  }

  /** One more record seen: the lookup over `sorted[..k + 1]`. */
  lemma FindPrefixStep(sorted: seq<PlayerRecord>, k: nat, i: PlayerId)
    requires k < |sorted|
    ensures Find(sorted[..k + 1], i)
         == if Find(sorted[..k], i).Some? then Find(sorted[..k], i) else if sorted[k].id == i then Some(sorted[k]) else None
  {
    assert sorted[..k + 1] == sorted[..k] + [sorted[k]];
    FindAppend(sorted[..k], sorted[k], i);
  }

  /** One more record built: below the previous record's id nothing changes,
      between the two ids lie placeholders, and then the record's player. */
  lemma BuiltPrefixStep(sorted: seq<PlayerRecord>, k: nat, i: PlayerId)
    requires StrictlyAscending(sorted) && k < |sorted| && 0 <= i <= sorted[k].id
    ensures BuiltAt(sorted[..k + 1], i)
         == if i == sorted[k].id then Built(sorted[k])
            else if k == 0 || sorted[k - 1].id < i then Placeholder(i)
            else BuiltAt(sorted[..k], i)
  {
    FindPrefixStep(sorted, k, i);
    if i != sorted[k].id && (k == 0 || sorted[k - 1].id < i) {
      forall x | x in sorted[..k] ensures x.id != i {
        var j :| 0 <= j < k && sorted[..k][j] == x;
        assert sorted[j] == x;
      }
    }
  }

  /** With distinct ids, a record's id is not among the records before it. */
  lemma DistinctPrefixMiss(sorted: seq<PlayerRecord>, k: nat)
    requires DistinctIds(sorted) && k < |sorted|
    ensures Find(sorted[..k], sorted[k].id) == None
  {
    forall x | x in sorted[..k] ensures x.id != sorted[k].id {
      var j :| 0 <= j < k && sorted[..k][j] == x;
      assert sorted[j] == x;
    }
  }

  /** The span of an ascending list is one past its last id. */
  lemma SpanOfAscending(sorted: seq<PlayerRecord>)
    requires StrictlyAscending(sorted) && forall r :: r in sorted ==> r.id >= 0
    ensures Span(sorted) == if sorted == [] then 0 else sorted[|sorted| - 1].id + 1
  {
    if sorted != [] {
      var last := sorted[|sorted| - 1];
      assert last in sorted;
      var r :| r in sorted && r.id == Span(sorted) - 1;
      var j :| 0 <= j < |sorted| && sorted[j] == r;
      assert r.id <= last.id;
    }
  }

  /** Every id of `a` is an id of `b`: `a` spans no further. */
  lemma SpanAtMost(a: seq<PlayerRecord>, b: seq<PlayerRecord>)
    requires forall r :: r in b ==> r.id >= 0
    requires forall r :: r in a ==> r in b
    ensures Span(a) <= Span(b)
  {
    if a != [] {
      assert forall r :: r in a ==> r.id >= 0;
      var n := Span(a);
      assert exists r :: r in a && r.id == n - 1;
      var r :| r in a && r.id == n - 1;
      assert r in b;
    }
  }

  /** A sorted copy of the records imports to the same array. */
  lemma SameRecordsSameImport(records: seq<PlayerRecord>, sorted: seq<PlayerRecord>)
    requires Importable(records)
    requires StrictlyAscending(sorted) && forall x :: x in sorted <==> x in records
    ensures forall r :: r in sorted ==> r.id >= 0
    ensures Span(sorted) == Span(records)
    ensures forall i :: 0 <= i < Span(records) ==> ImportedAt(sorted, i) == ImportedAt(records, i)
  {
    SpanAtMost(records, sorted);
    SpanAtMost(sorted, records);
    assert DistinctIds(sorted);
    forall i | 0 <= i < Span(records)
      ensures ImportedAt(sorted, i) == ImportedAt(records, i)
    {
      SameRecordsSameFind(records, sorted, i);
    }
  }

  /** Two lists of distinct ids holding the same records find the same record under every id. */
  lemma SameRecordsSameFind(records: seq<PlayerRecord>, sorted: seq<PlayerRecord>, i: PlayerId)
    requires DistinctIds(records) && DistinctIds(sorted)
    requires forall x :: x in sorted <==> x in records
    ensures Find(sorted, i) == Find(records, i)
  {
    if Find(records, i).Some? {
      FindsMember(sorted, Find(records, i).value);
    } else {
      assert forall x :: x in sorted ==> x.id != i;
    }
  }
}
