/**
 * `Player` of `src/model.ts`: a formation member with two following slots,
 * a position, the targets computed for it, and a most-recent-first history
 * of the positions it reached. Every `WritableValue` field of the source is
 * a plain field here; `selected` is the flag the edit controller toggles.
 */
module Players {
  import opened Wrappers
  import opened Geometry

  type PlayerId = int

  /** The id stored in an empty following slot. */
  const NO_PLAYER: PlayerId := -1

  const DEFAULT_SPEED: real := 0.5
  const DEFAULT_REACTION_TIME: real := 0.0

  /** Which of the two following slots. */
  type FollowingIndex = i: int | 0 <= i < 2

  /** The two following slots (`getFollowingIds()`). */
  type Following = (PlayerId, PlayerId)

  /** One history entry: (elapsed milliseconds, position reached). */
  type HistoryEntry = (real, Position)

  function Slot(f: Following, i: FollowingIndex): PlayerId {
    if i == 0 then f.0 else f.1
  }

  /** The slots after `follow(i, x)` on the player with id `self`: refused when
      `x` is the player itself or already held in either slot; otherwise slot
      `i` becomes `x` and the other slot is kept. */
  function Followed(f: Following, self: PlayerId, i: FollowingIndex, x: PlayerId): (r: Following)
    ensures x == self || f.0 == x || f.1 == x ==> r == f
    ensures x != self && f.0 != x && f.1 != x ==> Slot(r, i) == x && Slot(r, 1 - i) == Slot(f, 1 - i)
  {
    if x != self && f.0 != x && f.1 != x then
      if i == 0 then (x, f.1) else (f.0, x)
    else f
  }

  /** No slot names the player itself, and the two slots never name the same player. */
  predicate Proper(f: Following, self: PlayerId) {
    f.0 != self && f.1 != self && (f.0 == f.1 ==> f.0 == NO_PLAYER)
  }

  /** `follow` keeps the slots proper. */
  lemma FollowKeepsProper(f: Following, self: PlayerId, i: FollowingIndex, x: PlayerId)
    requires Proper(f, self)
    ensures Proper(Followed(f, self, i, x), self)
  {
  }

  /** The slots after the clearing loop of `stopFollowing(x)`. */
  function Unfollowed(f: Following, x: PlayerId): (r: Following)
    ensures x != NO_PLAYER ==> r.0 != x && r.1 != x
    ensures f.0 == x ==> r.0 == NO_PLAYER
    ensures f.1 == x ==> r.1 == NO_PLAYER
    ensures f.0 != x ==> r.0 == f.0
    ensures f.1 != x ==> r.1 == f.1
  {
    (if f.0 == x then NO_PLAYER else f.0, if f.1 == x then NO_PLAYER else f.1)
  }

  /** Clearing slots keeps them proper. */
  lemma UnfollowKeepsProper(f: Following, self: PlayerId, x: PlayerId)
    requires Proper(f, self) && self != NO_PLAYER
    ensures Proper(Unfollowed(f, x), self)
  {
  }

  /** A player's whole state as a value. */
  datatype PlayerRec = PlayerRec(
    id: PlayerId,
    following: Following,
    position: Position,
    target: Option<Position>,
    perceivedTarget: Option<Position>,
    speed: real,
    reactionTime: real,
    active: bool,
    history: seq<HistoryEntry>,
    selected: bool)

  /** `isFollowing()`: active, with both slots filled. */
  predicate Anchored(r: PlayerRec) {
    r.active && r.following.0 != NO_PLAYER && r.following.1 != NO_PLAYER
  }

  /** `Player.isMovingRaw`: an active player whose target is set and differs from its position. */
  predicate IsMovingRaw(active: bool, target: Option<Position>, position: Position) {
    active && target.Some? && position != target.value
  }

  /** A freshly constructed player: both slots empty, default speed and
      reaction time, active, no targets, empty history. */
  function NewPlayerRec(id: PlayerId, position: Position): PlayerRec {
    PlayerRec(id, (NO_PLAYER, NO_PLAYER), position, None, None,
              DEFAULT_SPEED, DEFAULT_REACTION_TIME, true, [], false)
  }

  /** The player after `stopFollowing(x)`: the slots holding `x` are cleared,
      and a player left not following loses both targets. */
  function StoppedFollowing(r: PlayerRec, x: PlayerId): (s: PlayerRec)
    ensures x != NO_PLAYER ==> s.following.0 != x && s.following.1 != x
    ensures r.following.0 == x ==> s.following.0 == NO_PLAYER
    ensures r.following.1 == x ==> s.following.1 == NO_PLAYER
    ensures r.following.0 != x ==> s.following.0 == r.following.0
    ensures r.following.1 != x ==> s.following.1 == r.following.1
    ensures !Anchored(s) ==> s.target == None && s.perceivedTarget == None
    ensures Anchored(s) ==> s == r.(following := s.following)
    ensures s.(following := r.following, target := r.target, perceivedTarget := r.perceivedTarget) == r
  {
    var cleared := r.(following := Unfollowed(r.following, x));
    if Anchored(cleared) then cleared else cleared.(target := None, perceivedTarget := None)
  }

  /** The history after `unshift(entry)` followed by `pop()` while it holds more than `limit` entries. */
  function Recorded(h: seq<HistoryEntry>, entry: HistoryEntry, limit: nat): seq<HistoryEntry> {
    var grown := [entry] + h;
    if |grown| > limit then grown[..limit] else grown
  }

  /** The history stays most-recent-first and bounded: the new entry is at
      the front, the older entries follow in order, and the oldest beyond
      `limit` are dropped. */
  lemma RecordedNewestFirst(h: seq<HistoryEntry>, entry: HistoryEntry, limit: nat)
    requires limit >= 1
    ensures var r := Recorded(h, entry, limit);
            && |r| == (if |h| + 1 <= limit then |h| + 1 else limit)
            && r[0] == entry
            && r[1..] == h[..|r| - 1]
  {
  }

  /** The player after its turn in `calculateNewPositions`: with a perceived
      target it moves at most `speed * elapsedMillis / 10` toward it (onto it
      when within that reach) and records the move in its history; without
      one it is left alone. */
  function Advanced(g: Geometry, r: PlayerRec, elapsedMillis: real, limit: nat): PlayerRec
    requires r.speed >= 0.0 && elapsedMillis >= 0.0
  {
    if r.perceivedTarget.Some? then
      var p := StepToward(g, r.position, r.perceivedTarget.value, Reach(r.speed, elapsedMillis));
      r.(position := p, history := Recorded(r.history, (elapsedMillis, p), limit))
    else r
  }

  /** How far a player may move in one tick: speed in m/s, coordinates in cm. */
  function Reach(speed: real, elapsedMillis: real): (d: real)
    requires speed >= 0.0 && elapsedMillis >= 0.0
    ensures d >= 0.0
  {
    speed * elapsedMillis / 10.0
  }

  /** One tick of motion: no overshoot, an exact snap within reach, a bounded
      most-recent-first history entry only for a player with a perceived
      target, and nothing else changed. */
  lemma AdvancedMoves(g: Geometry, r: PlayerRec, elapsedMillis: real, limit: nat)
    requires Lawful(g) && r.speed >= 0.0 && elapsedMillis >= 0.0 && limit >= 1
    ensures var s := Advanced(g, r, elapsedMillis, limit);
            var reach := Reach(r.speed, elapsedMillis);
            && s.(position := r.position, history := r.history) == r
            && (r.perceivedTarget.None? ==> s == r)
            && (r.perceivedTarget.Some? ==>
                  && Distance(g, Between(r.position, s.position)) <= reach
                  && (s.position == r.perceivedTarget.value <==>
                        Distance(g, Between(r.position, r.perceivedTarget.value)) <= reach)
                  && s.history[0] == (elapsedMillis, s.position)
                  && |s.history| <= limit
                  && s.history[1..] == r.history[..|s.history| - 1])
  {
    if r.perceivedTarget.Some? {
      var reach := Reach(r.speed, elapsedMillis);
      var p := StepToward(g, r.position, r.perceivedTarget.value, reach);
      StepWithinReach(g, r.position, r.perceivedTarget.value, reach);
      StepArrivesIff(g, r.position, r.perceivedTarget.value, reach);
      RecordedNewestFirst(r.history, (elapsedMillis, p), limit);
    }
  }

  class Player {
    const id: PlayerId
    var following: Following
    var position: Position
    var target: Option<Position>
    var speed: real
    var reactionTime: real
    var perceivedTarget: Option<Position>
    var active: bool
    var history: seq<HistoryEntry>
    var selected: bool

    /** The player's state as a value. */
    function Rec(): PlayerRec
      reads this
    {
      PlayerRec(id, following, position, target, perceivedTarget,
                speed, reactionTime, active, history, selected)
    }

    /** `new Player(position)`, with the id the caller assigns right after. */
    constructor (id: PlayerId, position: Position)
      ensures Rec() == NewPlayerRec(id, position)
    {
      this.id := id;
      following := (NO_PLAYER, NO_PLAYER);
      this.position := position;
      target := None;
      speed := DEFAULT_SPEED;
      reactionTime := DEFAULT_REACTION_TIME;
      perceivedTarget := None;
      active := true;
      history := [];
      selected := false;
    }

    function GetFollowingIds(): Following
      reads this
    {
      following
    }

    predicate IsFollowing()
      reads this
    {
      Anchored(Rec())
    }

    /** `follow(followingIndex, followingPlayerId)`. */
    method Follow(followingIndex: FollowingIndex, followingPlayerId: PlayerId)
      modifies this
      ensures followingPlayerId == id || followingPlayerId == old(following.0) || followingPlayerId == old(following.1) ==>
                Rec() == old(Rec())
      ensures followingPlayerId != id && followingPlayerId != old(following.0) && followingPlayerId != old(following.1) ==>
                && Slot(following, followingIndex) == followingPlayerId
                && Slot(following, 1 - followingIndex) == Slot(old(following), 1 - followingIndex)
      ensures Rec() == old(Rec()).(following := Followed(old(following), id, followingIndex, followingPlayerId))
    {
      if followingPlayerId != id && following.0 != followingPlayerId && following.1 != followingPlayerId {
        if followingIndex == 0 {
          following := (followingPlayerId, following.1);
        } else {
          following := (following.0, followingPlayerId);
        }
      }
    }

    /** `stopFollowing(playerId)`: clear each slot holding `playerId`, then
        drop both targets if no longer following. */
    method StopFollowing(playerId: PlayerId)
      modifies this
      ensures Rec() == StoppedFollowing(old(Rec()), playerId)
    {
      for followingIndex := 0 to 2
        invariant following == if followingIndex == 0 then old(following)
                               else if followingIndex == 1 then (Unfollowed(old(following), playerId).0, old(following.1))
                               else Unfollowed(old(following), playerId)
        invariant Rec() == old(Rec()).(following := following)
      {
        if Slot(following, followingIndex) == playerId {
          following := if followingIndex == 0 then (NO_PLAYER, following.1) else (following.0, NO_PLAYER);
        }
      }
      if !IsFollowing() {
        target := None;
        perceivedTarget := None;
      }
    }

    /** `delete()`: mark the player inactive. */
    method Delete()
      modifies this
      ensures Rec() == old(Rec()).(active := false)
    {
      active := false;
    }

    /** The two stores `calculateNewTargets` writes for one player. */
    method SetTargets(newTarget: Option<Position>, newPerceivedTarget: Option<Position>)
      modifies this
      ensures Rec() == old(Rec()).(target := newTarget, perceivedTarget := newPerceivedTarget)
    {
      target := newTarget;
      perceivedTarget := newPerceivedTarget;
    }

    /** One player's turn in `calculateNewPositions` (the bounding box aside). */
    method Advance(g: Geometry, elapsedMillis: real, limit: nat)
      requires speed >= 0.0 && elapsedMillis >= 0.0
      modifies this
      ensures Rec() == Advanced(g, old(Rec()), elapsedMillis, limit)
    {
      if perceivedTarget.Some? {
        var targetVector := Between(position, perceivedTarget.value);
        var distance := Reach(speed, elapsedMillis);
        if Distance(g, targetVector) > distance {
          position := Add(position, Multiply(Normalize(g, targetVector), distance));
        } else {
          position := perceivedTarget.value;
        }
        var grown := [(elapsedMillis, position)] + history;
        var h := grown;
        while |h| > limit
          invariant |h| <= |grown| && h == grown[..|h|]
          invariant |grown| > limit ==> |h| >= limit
          invariant |grown| <= limit ==> h == grown
        {
          h := h[..|h| - 1];
        }
        history := h;
      }
    }
  }
}
