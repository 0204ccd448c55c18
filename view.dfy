/**
 * `EditingState` of `src/view.ts`: which player the editor has selected,
 * whether the following selectors are shown, and whether a player is being
 * dragged. Its editing operations forward to the formation engine. Every
 * svelte store is a plain field here, and `StateDisplay` is the engine
 * `State` itself.
 */
module View {
  import opened Geometry
  import opened Players
  import opened Formation
  import opened Engine

  class EditingState {
    const state: State
    var selectedPlayer: Player?
    var showFollowingSelectors: bool
    var dragging: bool

    /** The engine state is well formed. */
    ghost predicate Valid()
      reads this, state`players, state.players
    {
      state.Valid()
    }

    /** `new EditingState(state)`: nothing selected, no selectors, not dragging. */
    constructor (state: State)
      requires state.Valid()
      ensures this.state == state && Valid()
      ensures selectedPlayer == null && !showFollowingSelectors && !dragging
    {
      this.state := state;
      selectedPlayer := null;
      showFollowingSelectors := false;
      dragging := false;
    }

    /** `isSelected(player)`: `player` is the selected player. */
    predicate IsSelected(player: Player)
      reads this`selectedPlayer
    {
      selectedPlayer == player
    }

    /** `isSelectable(player)`: any player while nothing is dragged, and only
        the selected one during a drag. */
    predicate IsSelectable(player: Player)
      reads this`selectedPlayer, this`dragging
    {
      !dragging || IsSelected(player)
    }

    /** `startEditing(player)`. */
    method StartEditing(player: Player)
      modifies this`selectedPlayer, this`showFollowingSelectors
      ensures selectedPlayer == player && showFollowingSelectors
      ensures IsSelected(player) && forall q: Player :: IsSelected(q) <==> q == player
    {
      selectedPlayer := player;
      showFollowingSelectors := true;
    }

    /** `stopEditing()`. */
    method StopEditing()
      modifies this`selectedPlayer, this`showFollowingSelectors
      ensures selectedPlayer == null && !showFollowingSelectors
      ensures forall q: Player :: !IsSelected(q)
    {
      selectedPlayer := null;
      showFollowingSelectors := false;
    }

    /** `startDragging()`: from now on only the selected player is selectable. */
    method StartDragging()
      modifies this`dragging
      ensures dragging
      ensures forall q: Player :: IsSelectable(q) <==> IsSelected(q)
    {
      dragging := true;
    }

    /** `stopDragging()`: every player is selectable again. */
    method StopDragging()
      modifies this`dragging
      ensures !dragging
      ensures forall q: Player :: IsSelectable(q)
    {
      dragging := false;
    }

    /** `highlight(player)`: select `player` without touching the selectors or the drag. */
    method Highlight(player: Player)
      modifies this`selectedPlayer
      ensures selectedPlayer == player && IsSelectable(player)
      ensures forall q: Player :: IsSelected(q) <==> q == player
    {
      selectedPlayer := player;
    }

    /** `setSelectedIsFollowing(followingIndex, followedPlayer)`: when a player
        is selected, make slot `followingIndex` of the selected player follow
        `followedPlayer` and recompute targets; the selection stays as it was. */
    method SetSelectedIsFollowing(followingIndex: FollowingIndex, followedPlayer: Player)
      requires Valid()
      requires selectedPlayer != null ==> 0 <= selectedPlayer.id < |state.players|
      requires selectedPlayer != null ==> 0 <= followedPlayer.id < |state.players|
      modifies state.players
      ensures Valid() && state.players == old(state.players)
      ensures selectedPlayer == null ==> state.Snapshot() == old(state.Snapshot())
      ensures selectedPlayer != null ==>
                state.Snapshot() == NewTargets(state.geometry,
                  FollowedIn(old(state.Snapshot()), selectedPlayer.id, followingIndex, followedPlayer.id))
    {
      if selectedPlayer != null {
        state.Follow(selectedPlayer.id, followingIndex, followedPlayer.id, true);
      }
    }

    /** `setPosition(player, position)`: move `player` and recompute targets
        and the moving flag. */
    method SetPosition(player: Player, position: Position)
      requires Valid() && 0 <= player.id < |state.players|
      modifies state`moving, state.players
      ensures Valid() && state.players == old(state.players)
      ensures state.Snapshot() == NewTargets(state.geometry,
                old(state.Snapshot())[player.id := old(state.Snapshot())[player.id].(position := position)])
      ensures state.moving == AnyMoving(state.Snapshot())
    {
      state.SetPosition(player.id, position);
    }

    /** `add(position)`: add a player at `position` and start editing it. */
    method Add(position: Position) returns (player: Player)
      requires Valid()
      modifies state, this`selectedPlayer, this`showFollowingSelectors
      ensures Valid() && fresh(player)
      ensures state.players == old(state.players) + [player]
      ensures state.Snapshot() == old(state.Snapshot()) + [NewPlayerRec(|old(state.players)|, position)]
      ensures selectedPlayer == player && showFollowingSelectors && dragging == old(dragging)
      ensures state.moving == old(state.moving) && state.boundingBox == old(state.boundingBox)
    {
      player := state.AddPlayer(position);
      StartEditing(player);
    }

    /** `delete(player)`: delete `player` in the engine, then clear the
        selection; the following selectors are left as they were. */
    method Delete(player: Player)
      requires Valid() && 0 <= player.id < |state.players|
      modifies state.players, this`selectedPlayer
      ensures Valid() && state.players == old(state.players)
      ensures state.Snapshot() == Deleted(old(state.Snapshot()), player.id)
      ensures selectedPlayer == null && forall q: Player :: !IsSelected(q)
    {
      state.DeletePlayer(player.id);
      selectedPlayer := null;
    }
  }
}
