# Triangles: a verified model of the formation engine

Triangles is a browser toy in which players on a pitch each follow two other
players and try to stand where the three of them form an equilateral
triangle. On every animation frame the engine works out, for every player
that follows two others, the two apexes of the equilateral triangles over
the segment between them, picks one (preferring the first apex unless it is
at least one unit farther than the second, and standing still when the
chosen apex is within one unit), and moves each player a bounded step
toward its target. The editor lets a user select, add, move and delete
players and change whom they follow; the whole formation can be exported
as records and imported again.

This project models, in Dafny:

- `Geometry`: positions and vectors over the reals, with `Math.hypot` and
  `sin(π/3)` as parameters, and the step of at most `reach` toward a point.
- `Targets`: `calculateTargets`, the choice of the preferred and the other
  apex (`src/model.ts`, identical in `src/triangles.ts`).
- `Bounds`: `BoundingBox.expand`, as a value function and as a class with
  in-place corners.
- `Players`: the `Player` class of `src/model.ts` (following slots,
  targets, speed, reaction time, activity, history of moves) with its value
  snapshot `PlayerRec`.
- `History`: `getHistoricalPosition`, where a player with a reaction time
  perceives its anchors.
- `Formation`: the rules of `calculateNewTargets`, `calculateNewPositions`,
  `calculateMoving`, `deletePlayer` and `follow` as functions on the array
  of players, with the invariant `WellFormed` they keep.
- `Transfer`: `export` and `import` on records instead of JSON text.
- `Engine`: the `State` class of `src/model.ts`, whose methods change the
  players in place and are proved equal to the rules of `Formation` and
  `Transfer`.
- `Controller`: the modal edit controller of `src/controller.ts`.
- `View`: `EditingState` of `src/view.ts`.
- `Triangles`: the earlier engine of `src/triangles.ts`, where positions are
  objects and "moving" is decided by object identity.

## Model

| member | source | states |
|---|---|---|
| Geometry.StepToward | src/model.ts:479-486 | definition of the step toward a point; `StepWithinReach`, `StepArrivesIff` and `StepProgress` state its properties |
| Geometry.StepWithinReach | src/model.ts:474-486 | one step toward a point never covers more than `reach` |
| Geometry.StepArrivesIff | src/model.ts:479-486 | the step lands exactly on the target if and only if the target was within `reach` |
| Geometry.StepProgress | src/model.ts:479-486 | each step shortens the remaining distance by exactly `reach`, never below zero |
| Geometry.StepsConverge | src/model.ts:472-501 | after `k` steps toward a fixed target the remaining distance is the initial one less `k * reach`, floored at zero |
| Geometry.ArrivesWithinSteps | src/model.ts:472-501 | with a positive reach, a fixed target is reached once `k * reach` covers the initial distance |
| Targets.CalculateTargets | src/model.ts:397-426 | definition of the preferred and the other apex (identical at src/triangles.ts:276-305); the lemmas below state its properties |
| Targets.PrefersSelfIsHere | src/model.ts:417-425 | in the stand-still branch the preferred target is the player's own position; otherwise it is one of the two candidates and at least `CLOSE_ENOUGH` away |
| Targets.CollapsedAnchors | src/model.ts:403-406 | anchors closer than `CLOSE_ENOUGH` make both candidates the first anchor; the preferred target is that anchor or, when it is close, the player itself |
| Targets.PreferredAndOther | src/model.ts:397-426 | the pair is the two candidates (as a multiset), preferred first, where the preferred one is replaced by the player's position exactly when it lies within `CLOSE_ENOUGH` |
| Targets.BiasTowardTarget1 | src/model.ts:420-425 | for distinct candidates, the second is the other target exactly when the first is less than one unit farther than the second |
| Targets.PreferredWithinMargin | src/model.ts:420-425 | the preferred target is never one unit or more farther than the other target |
| Targets.PreferredIsHereOrFar | src/model.ts:421-425 | the preferred target is the player's own position or at least `CLOSE_ENOUGH` away |
| Targets.OnCandidateHoldsStill | src/model.ts:417-425 | a player standing on either candidate is told to stay where it is |
| Bounds.Expanded | src/model.ts:206-218 | the expanded box holds the new point and the old box |
| Bounds.ExpandedIsSmallest | src/model.ts:206-218 | any box holding the old box and the point holds the expanded box |
| Bounds.BoxOfCovers | src/model.ts:206-218 | expanding by a sequence of points holds every point and the starting box |
| Bounds.BoxOfIsSmallest | src/model.ts:206-218 | the accumulated box is the smallest one holding the start box and every point |
| Bounds.BoundingBox.constructor | src/model.ts:193-195 | a new box has no corners yet |
| Bounds.BoundingBox.Expand | src/model.ts:206-218 | the corners after `expand` are those of `Expanded` of the old box |
| Players.Player.GetFollowingIds | src/model.ts:52-54 | definition: the two following ids |
| Players.Player.IsFollowing | src/model.ts:91-93 | definition: active with both slots filled |
| Players.IsMovingRaw | src/model.ts:95-99 | definition: active with a target different from the position; `CalculateMoving` and `ArrivalStopsMoving` use it |
| Players.Followed | src/model.ts:68-73 | `follow` is refused for the player itself or an id already held in either slot; otherwise it sets the given slot and keeps the other |
| Players.FollowKeepsProper | src/model.ts:68-73 | `follow` keeps the slots proper: never the player itself, never the same player twice |
| Players.Unfollowed | src/model.ts:75-80 | after the clearing loop every slot that held the removed id is empty (`NO_PLAYER`) and every other slot is kept |
| Players.UnfollowKeepsProper | src/model.ts:75-80 | clearing slots keeps them proper |
| Players.StoppedFollowing | src/model.ts:75-85 | `stopFollowing` empties (`NO_PLAYER`) exactly the slots holding the id and keeps the other slots, and a player left not following loses both targets; nothing else changes |
| Players.Recorded | src/model.ts:487-495 | definition of the history update; `RecordedNewestFirst` states its properties |
| Players.RecordedNewestFirst | src/model.ts:487-495 | the history gets the new entry at its front, keeps the older entries in order and drops the oldest beyond the length limit |
| Players.Reach | src/model.ts:477-478 | the distance allowed per tick (`speed * elapsedMillis / 10`) is non-negative |
| Players.Advanced | src/model.ts:473-496 | definition of one player's turn of motion; `AdvancedMoves` states its properties |
| Players.AdvancedMoves | src/model.ts:473-496 | one tick moves a player with a perceived target by at most its reach, onto the target exactly when within reach, and records the move; a player without one is unchanged |
| Players.Player.constructor | src/model.ts:36-50 | a new player has empty slots, speed 0.5, reaction time 0, no targets, empty history and is active |
| Players.Player.Follow | src/model.ts:68-73 | the player's slots become `Followed` of the old ones; nothing else changes |
| Players.Player.StopFollowing | src/model.ts:75-85 | the player becomes `StoppedFollowing` of its old state |
| Players.Player.Delete | src/model.ts:87-89 | only the activity flag changes, to false |
| Players.Player.SetTargets | src/model.ts:450-467 | only the target and the perceived target change |
| Players.Player.Advance | src/model.ts:473-496 | the player becomes `Advanced` of its old state |
| History.HistoricalPosition | src/model.ts:428-439 | definition of the perceived position as a recursive walk; `HistoricalPositionIsFirstReach` characterises it |
| History.HistoricalPositionIsFirstReach | src/model.ts:428-439 | the perceived position is the player's own when there is no history or no reaction time, and otherwise the position of the first history entry at which the summed elapsed time reaches the reaction time (or the oldest entry) |
| Formation.Retargeted | src/model.ts:441-469 | a player's turn of `calculateNewTargets` changes nothing but its two targets |
| Formation.NewTargets | src/model.ts:441-470 | the array keeps its length; `NewTargetsRule` states the rule |
| Formation.NewTargetsRule | src/model.ts:441-469 | a player gets a target exactly when it is following, the target is the preferred apex over its anchors' positions, and it perceives that same target without a reaction time, or with one the preferred apex over its anchors' historical positions |
| Formation.NewTargetsKeepsWellFormed | src/model.ts:441-470 | recomputing targets keeps the array well formed |
| Formation.NewTargetsIdempotent | src/model.ts:441-470 | recomputing targets twice gives the same array as once |
| Formation.ExportIgnoresTargets | src/model.ts:559-577 | recomputing targets does not change what `export` writes |
| Formation.Tick | src/model.ts:472-501 | the array keeps its length; `AdvancedMoves` states the per-player rule |
| Formation.TickKeepsWellFormed | src/model.ts:472-501 | a tick of motion keeps the array well formed |
| Formation.AnyMoving | src/model.ts:503-509 | definition of the moving flag; `ArrivalStopsMoving` states when it is false |
| Formation.ArrivalStopsMoving | src/model.ts:503-509 | when every follower's target is within its reach and it reacts at once, nobody is moving after `update` |
| Formation.UpdateBoxCovers | src/model.ts:511-517 | after `update` the box holds every active player's new position and every candidate target of every follower |
| Formation.UpdateBoxIsSmallest | src/model.ts:511-517 | any box holding every active player's new position and every candidate fed to the box during `update` holds the box |
| Formation.ImportedWellFormed | src/model.ts:579-602 | an imported array is well formed |
| Formation.AddKeepsWellFormed | src/model.ts:519-524 | appending a new player keeps the array well formed |
| Formation.FollowedIn | src/model.ts:546-550 | the array keeps its length; `FollowKeepsWellFormed` states the rest |
| Formation.FollowKeepsWellFormed | src/model.ts:546-557 | `follow` keeps the array well formed and leaves every other player unchanged |
| Formation.Deleted | src/model.ts:530-533 | the array keeps its length; `DeleteCascades` states the rest |
| Formation.DeleteCascades | src/model.ts:530-533 | after `deletePlayer(x)`, `x` is inactive and every other player keeps its activity, every slot that named `x` becomes empty (`NO_PLAYER`), other slots are kept, players still following keep both targets, players no longer following have no targets, nothing else changes, and the array stays well formed |
| Transfer.ExportRecords | src/model.ts:559-577 | `export` writes at most one record per player |
| Transfer.ExportedExactlyActive | src/model.ts:562-572 | a record is exported exactly when it is the record of an active player |
| Transfer.ExportAscending | src/model.ts:562-572 | players indexed by id export in strictly ascending id order |
| Transfer.SortById | src/model.ts:583 | definition of the sort by id; `SortByIdSorts` states its properties |
| Transfer.SortByIdSorts | src/model.ts:583 | the sort by id is an ascending permutation, strictly ascending when ids are distinct |
| Transfer.Span | src/model.ts:585-597 | the imported array's length is one past the largest id |
| Transfer.Find | src/model.ts:586-597 | the lookup finds a record with that id, or there is none |
| Transfer.Wiring | src/model.ts:599-602 | the two `follow` calls of `import` leave proper slots |
| Transfer.WiringRestores | src/model.ts:599-602 | wiring reproduces a record's slots exactly when those slots were proper |
| Transfer.ImportedRecs | src/model.ts:579-602 | definition of the array `import` builds; `ImportedIndexed`, `ImportedRecordPlayers` and `ImportedGaps` state its properties |
| Transfer.ImportedIndexed | src/model.ts:583-602 | the imported array is indexed by id, with proper, resolvable slots, no history and no targets |
| Transfer.ImportedRecordPlayers | src/model.ts:592-601 | each record's player sits at its id, active, with the record's position, speed and reaction time |
| Transfer.ImportedGaps | src/model.ts:587-591 | every id no record carries becomes an inactive placeholder at (0, 0) |
| Transfer.ExportedAfterImport | src/model.ts:559-609 | after `import`, exactly the imported records are exported, when their slots were proper |
| Transfer.ExportAfterImport | src/model.ts:559-609 | `export` after `import` gives back the records sorted by id, when their slots were proper |
| Engine.State.constructor | src/model.ts:390-394 | a new state has no players, no box, a history limit of 2000 and the moving flag set |
| Engine.State.GetHistoricalPosition | src/model.ts:428-439 | the loop computes the perceived position of `HistoricalPositionIsFirstReach` |
| Engine.State.CalculateNewTargets | src/model.ts:441-470 | the players become `NewTargets` of the old array, the box (when given) grows by every candidate, and the array stays well formed |
| Engine.State.RetargetAll | src/model.ts:442-469 | the loop over the players computes `NewTargets` of the array as it was before the loop |
| Engine.State.RetargetPlayer | src/model.ts:443-468 | one player's turn sets its targets to those of `Retargeted` |
| Engine.State.PlayerTargets | src/model.ts:443-463 | the targets of one turn, and the candidates fed to the box |
| Engine.State.ChooseTargets | src/model.ts:444-449 | `calculateTargets` followed by expanding the box by both results |
| Engine.State.CalculateNewPositions | src/model.ts:472-501 | the players become `Tick` of the old array and the box grows by every active player's new position |
| Engine.State.AdvanceAll | src/model.ts:473-500 | the loop over the players computes `Tick` |
| Engine.State.AdvancePlayer | src/model.ts:474-499 | one player's turn is `Advanced`, and the box grows by its position when it is active |
| Engine.State.CalculateMoving | src/model.ts:503-509 | the moving flag is set exactly when some active player has a target it is not on |
| Engine.State.Update | src/model.ts:511-517 | targets then positions are recomputed, the moving flag reflects the result, and the new box is the one `UpdateBoxCovers` describes |
| Engine.State.MovePlayers | src/model.ts:512-514 | a fresh box, new targets, then new positions |
| Engine.State.Publish | src/model.ts:515-516 | the moving flag is recomputed and the box is published |
| Engine.State.AddPlayerTo | src/model.ts:519-524 | the new player is appended with the old length as its id |
| Engine.State.AddPlayer | src/model.ts:526-528 | the array grows by one fresh default player; targets, moving flag and box are untouched |
| Engine.State.DeletePlayer | src/model.ts:530-533 | the players become `Deleted` of the old array and the array stays well formed |
| Engine.State.StopFollowingAll | src/model.ts:532 | every player stops following the deleted id |
| Engine.State.SetPosition | src/model.ts:535-539 | the player's position is replaced, targets are recomputed and the moving flag reflects the result |
| Engine.State.SetReactionTime | src/model.ts:541-544 | targets are recomputed and the moving flag reflects the result |
| Engine.State.Follow | src/model.ts:552-557 | one slot is set by `follow`, and targets are recomputed only when `update` holds |
| Engine.State.Export | src/model.ts:559-577 | the exported records are exactly those of the active players, in strictly ascending id order |
| Engine.State.BuildPlayers | src/model.ts:585-597 | the build loop yields one fresh player per id up to the largest, built from its record or a placeholder |
| Engine.State.BuildRecord | src/model.ts:586-597 | one record's turn adds placeholders for the missing ids, then the record's player |
| Engine.State.AddPlaceholders | src/model.ts:587-591 | the gap-filling loop appends inactive players at (0, 0) up to the record's id |
| Engine.State.WirePlayers | src/model.ts:599-602 | the wiring loop gives every record's player the slots of `Wiring` |
| Engine.State.ImportPlayers | src/model.ts:580-602 | the new array is fresh, indexed by id and equal to `ImportedRecs` of the records |
| Engine.State.Import | src/model.ts:579-609 | the players become `NewTargets` of the imported array and the moving flag reflects the result |
| Engine.SameRecordsSameImport | src/model.ts:583 | sorting the records does not change the imported array |
| Engine.AddFollowingPlayer | src/model.ts:612-616 | a new player is added whose slots are the two given ids, except one naming the new player or repeating the first, which stays empty; nothing else changes |
| Controller.Next | src/controller.ts:10-66 | definition of the controller each handler returns; the handler methods are proved against it |
| Controller.SelectedAfter | src/controller.ts:10-66 | definition of each handler's effect on a selection flag; the lemmas below state its properties |
| Controller.UntouchedUnchanged | src/controller.ts:10-66 | no handler changes the selection of a player other than the edited one and the event's one |
| Controller.EditedStaysSelected | src/controller.ts:25-55 | the player being edited after any event is selected |
| Controller.LeavingDeselects | src/controller.ts:35-43 | leaving the edited player, to nothing or to another, clears its selection |
| Controller.HoverIgnoredWhileEditing | src/controller.ts:10-23 | while editing, hovering changes neither the controller nor any selection |
| Controller.EditingInstance | src/controller.ts:29-33 | starting to edit a player selects it |
| Controller.HandleClickBackground | src/controller.ts:35-38 | a background click while editing deselects the edited player and returns to no selection; otherwise nothing happens |
| Controller.HandleClick | src/controller.ts:40-43 | a click deselects the edited player, if any, then edits and selects the clicked one |
| Controller.HandleMouseOver | src/controller.ts:57-60 | hovering selects the player when nothing is edited |
| Controller.HandleMouseOut | src/controller.ts:62-65 | leaving a player deselects it when nothing is edited |
| Controller.EditController.constructor | src/controller.ts:69 | the controller starts with no selection |
| Controller.EditController.ClickBackground | src/controller.ts:71-74 | forwards the event, keeps the returned controller, and the edited player stays selected |
| Controller.EditController.Click | src/controller.ts:76-79 | forwards the event, keeps the returned controller, and the edited player stays selected |
| Controller.EditController.MouseOver | src/controller.ts:81-84 | forwards the event, keeps the returned controller, and the edited player stays selected |
| Controller.EditController.MouseOut | src/controller.ts:86-89 | forwards the event, keeps the returned controller, and the edited player stays selected |
| View.EditingState.constructor | src/view.ts:5-13 | a new editing state has no selection, no selectors shown and no drag |
| View.EditingState.IsSelected | src/view.ts:37-42 | definition: the player is the selected one |
| View.EditingState.IsSelectable | src/view.ts:44-50 | definition: nothing is dragged, or the player is the selected one |
| View.EditingState.StartEditing | src/view.ts:15-18 | the player becomes the only selected one and the selectors are shown |
| View.EditingState.StopEditing | src/view.ts:20-23 | nothing is selected and the selectors are hidden |
| View.EditingState.StartDragging | src/view.ts:25-27 | during a drag exactly the selected player is selectable |
| View.EditingState.StopDragging | src/view.ts:29-31 | after a drag every player is selectable |
| View.EditingState.Highlight | src/view.ts:33-35 | the player becomes the only selected one and is selectable |
| View.EditingState.SetSelectedIsFollowing | src/view.ts:87-94 | with a selection, the selected player follows the given one in the given slot and targets are recomputed; without one nothing changes |
| View.EditingState.SetPosition | src/view.ts:96-98 | the engine moves the player and recomputes targets and the moving flag |
| View.EditingState.Add | src/view.ts:100-102 | a new player is added and becomes the edited, selected one; the engine's moving flag and box are untouched |
| View.EditingState.Delete | src/view.ts:104-107 | the engine deletes the player and nothing is selected afterwards |
| Triangles.Point.constructor | src/triangles.ts:271 | a position object holds the given coordinates |
| Triangles.Player.constructor | src/triangles.ts:6-31 | a new player has the given slots, no target and speed 1 |
| Triangles.Player.IsMoving | src/triangles.ts:22-24 | definition: a target that is not the position object itself; `AdvancePlayer` states when it holds |
| Triangles.NewTargets | src/triangles.ts:307-322 | definition of the targets after `calculateNewTargets`; `CalculateNewTargets` is proved against it |
| Triangles.NewPositions | src/triangles.ts:324-341 | definition of the positions after `calculateNewPositions`; `TickStepsBounded` states its properties |
| Triangles.Updated | src/triangles.ts:343-347 | the array keeps its length; `UpdateBoxCovers` and `TickStepsBounded` state the rest |
| Triangles.UpdateBoxCovers | src/triangles.ts:343-347 | after `update` the box holds every new position and both candidates of every follower, and is the smallest box that does |
| Triangles.TickStepsBounded | src/triangles.ts:324-341 | a targeted player moves at most one unit, onto its target exactly when it was within one unit |
| Triangles.CalculateTargetPoints | src/triangles.ts:276-305 | the coordinates are those of `calculateTargets`; in the stand-still branch the preferred target is the player's own position object |
| Triangles.State.constructor | src/triangles.ts:264-266 | a new state has no players and no box |
| Triangles.State.AddPlayer | src/triangles.ts:268-273 | a player with the given slots and a new position object is appended |
| Triangles.State.CalculateNewTargets | src/triangles.ts:307-322 | every follower's target becomes its preferred apex, any other player's is cleared, and the box grows by every candidate |
| Triangles.State.RetargetAll | src/triangles.ts:308-321 | the loop computes `NewTargets` of the array as it was before the loop |
| Triangles.State.RetargetPlayer | src/triangles.ts:309-320 | one player's turn sets its target; a player told to stay gets its own position object as target |
| Triangles.State.CalculateNewPositions | src/triangles.ts:324-341 | each targeted player steps toward its target, is moving afterwards exactly when it was more than one unit away, and the box grows by every new position |
| Triangles.State.AdvanceAll | src/triangles.ts:325-340 | the loop computes `NewPositions`, with the same moving rule |
| Triangles.State.AdvancePlayer | src/triangles.ts:326-339 | one player's step; it lands on the very target object exactly when within one unit |
| Triangles.State.Update | src/triangles.ts:343-347 | a fresh box, then new targets, then new positions; the box is the one `UpdateBoxCovers` describes, and a player is moving exactly when it has a target more than one unit from where it stood before the update |

## Left out

- Floating point: coordinates, speeds and times are reals. `Math.hypot` and `sin(π/3)` are parameters, constrained only by the laws the proofs need: non-negative, invariant under a quarter turn, and homogeneous.
- The view box (`calculateViewBox`, zoom modes, scaling and centring of the box) is display arithmetic and is not part of this model.
- Svelte stores, subscriptions, `WritableValue`, `Triggerable`, `StateDisplay`, the `finished` flag and `selectedIsFollowing` are notification plumbing. Each store is a plain field here.
- JSON text: `export` and `import` work on records. Parsing, printing and malformed JSON are not modelled.
- The `Denque` history is a sequence, newest entry first.
- The seeded formation of `createStateDisplay` is data, not an operation.
- `src/store.ts` and `src/style.ts` are not part of this model.
- Engine.State.Update: requires a non-negative elapsed time and non-negative speeds. With negative values the source computes a negative reach, and `normalize` may divide by zero.
- Engine.State.Import: requires distinct non-negative ids (otherwise the gap-filling loop never ends), following ids that name a slot of the new array, and non-negative speeds. The source checks none of this.
- Engine.State.DeletePlayer: requires the id to name a player of the array. The source indexes the array unchecked and throws on a missing id.
- Engine.State.SetPosition: requires the id to name a player of the array. The source indexes the array unchecked and throws on a missing id.
- Engine.State.Follow: requires `playerId` to name a player of the array. The source indexes the array unchecked and throws on a missing id.
- View.EditingState.SetPosition: requires the player's id to name a player of the engine's array, since the engine's `setPosition` throws otherwise.
- View.EditingState.Delete: requires the player's id to name a player of the engine's array, since the engine's `deletePlayer` throws otherwise.
- View.EditingState.SetSelectedIsFollowing: requires, when a player is selected, both ids to name players of the engine's array, since the engine's `follow` throws otherwise.
- Engine.State.Follow: requires the followed id to be empty or a player of the array. The source accepts any id, but the next target computation would then read a missing player.
- Engine.AddFollowingPlayer: requires both followed ids to be empty or players of the array after the addition, for the same reason as `Engine.State.Follow`. The source's helper accepts any ids; its only callers (src/model.ts:679-684) are commented out.
- Triangles.State.CalculateNewTargets: requires every follower's slots to name players of the array. The source would read a missing player otherwise.
- Triangles.State.RetargetAll: does not state, across the whole loop, that a player told to stay gets its own position object as target. `RetargetPlayer` states this for each player's turn.
- Controller: `Editing.INSTANCE` is a shared singleton whose `player` field is overwritten. Here it is the value `Editing(player)`, so aliasing of that singleton is not modelled.

Behaviour of the code worth noting:

- The choice between the two apexes has no memory of the previous choice. The comment at src/model.ts:420 calls it a hysteresis zone, but it is a fixed bias toward the first apex by one unit (`BiasTowardTarget1`).
- `addPlayer` does not recompute targets.
- `follow` with `update` does not recompute the moving flag.
- `deletePlayer` recomputes neither targets nor the moving flag.
- `import` does no validation, although the comment at src/model.ts:604 assumes that everything is good by then.
- `EditingState.delete` clears the selection but leaves the following selectors shown.
