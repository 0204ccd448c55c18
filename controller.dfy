/**
 * The edit controller of `src/controller.ts`: a two-state machine
 * (`NoSelection`, `Editing(player)`) driven by pointer events, which toggles
 * the `selected` flag of the players it touches. Each handler returns the
 * controller that handles the next event; `EditController` keeps it.
 */
module Controller {
  import opened Players

  /** The controller in charge: `NoSelection.INSTANCE`, or `Editing.INSTANCE`
      holding the player being edited. */
  datatype Mode = NoSelection | Editing(player: Player)

  /** The four events of `ModalController`. */
  datatype Event = ClickBackground | Click(player: Player) | MouseOver(player: Player) | MouseOut(player: Player)

  /** The controller the handler of `e` returns in state `m`. */
  function Next(m: Mode, e: Event): Mode {
    match e
    case ClickBackground => NoSelection
    case Click(p) => Editing(p)
    case MouseOver(_) => m
    case MouseOut(_) => m
  }

  /** The `selected` flag of `q` after the handler of `e` in state `m`,
      given that it was `was` before. */
  function SelectedAfter(m: Mode, e: Event, q: Player, was: bool): bool {
    match e
    case ClickBackground => if m.Editing? && m.player == q then false else was
    case Click(p) => if q == p then true else if m.Editing? && m.player == q then false else was
    case MouseOver(p) => if m.NoSelection? && q == p then true else was
    case MouseOut(p) => if m.NoSelection? && q == p then false else was
  }

  /** The players whose flag a handler may set: the edited one and the event's one. */
  function Touched(m: Mode, e: Event): set<Player> {
    (if m.Editing? then {m.player} else {}) + (if e.ClickBackground? then {} else {e.player})
  }

  /** No player outside `Touched` changes its flag. */
  lemma UntouchedUnchanged(m: Mode, e: Event, q: Player, was: bool)
    requires q !in Touched(m, e)
    ensures SelectedAfter(m, e, q, was) == was
  {
  }

  /** Every handler keeps the edited player selected: the player the next
      controller edits is selected after the event, if the edited player
      was selected before it. */
  lemma EditedStaysSelected(m: Mode, e: Event, was: bool)
    requires Next(m, e).Editing?
    requires m.Editing? && m.player == Next(m, e).player ==> was
    ensures SelectedAfter(m, e, Next(m, e).player, was)
  {
  }

  /** Leaving a player (back to `NoSelection`, or on to another player)
      always clears its flag. */
  lemma LeavingDeselects(m: Mode, e: Event, was: bool)
    requires m.Editing? && Next(m, e) != m
    ensures !SelectedAfter(m, e, m.player, was)
  {
  }

  /** While editing, hovering changes neither the controller nor any flag. */
  lemma HoverIgnoredWhileEditing(m: Mode, e: Event, q: Player, was: bool)
    requires m.Editing? && (e.MouseOver? || e.MouseOut?)
    ensures Next(m, e) == m && SelectedAfter(m, e, q, was) == was
  {
  }

  /** `Editing.instance(player)`: select `player` and hand over to the editing controller. */
  method EditingInstance(player: Player) returns (r: Mode)
    modifies player`selected
    ensures r == Editing(player) && player.selected
  {
    player.selected := true;
    r := Editing(player);
  }

  /** `clickBackground()`: while editing, clear the edited player's flag and
      return to `NoSelection`; otherwise the inherited no-op. */
  method HandleClickBackground(m: Mode) returns (r: Mode)
    modifies Touched(m, ClickBackground)`selected
    ensures r == Next(m, ClickBackground)
    ensures forall q :: q in Touched(m, ClickBackground) ==>
              q.selected == SelectedAfter(m, ClickBackground, q, old(q.selected))
  {
    match m
    case Editing(edited) =>
      edited.selected := false;
      r := NoSelection;
    case NoSelection =>
      r := m;
  }

  /** `click(player)`: while editing, clear the edited player's flag first;
      in either state, start editing `player`. */
  method HandleClick(m: Mode, player: Player) returns (r: Mode)
    modifies Touched(m, Click(player))`selected
    ensures r == Next(m, Click(player))
    ensures forall q :: q in Touched(m, Click(player)) ==>
              q.selected == SelectedAfter(m, Click(player), q, old(q.selected))
  {
    match m
    case Editing(edited) =>
      edited.selected := false;
      r := EditingInstance(player);
    case NoSelection =>
      r := EditingInstance(player);
  }

  /** `mouseOver(player)`: highlight `player` when nothing is being edited. */
  method HandleMouseOver(m: Mode, player: Player) returns (r: Mode)
    modifies Touched(m, MouseOver(player))`selected
    ensures r == Next(m, MouseOver(player))
    ensures forall q :: q in Touched(m, MouseOver(player)) ==>
              q.selected == SelectedAfter(m, MouseOver(player), q, old(q.selected))
  {
    match m
    case NoSelection =>
      player.selected := true;
      r := m;
    case Editing(_) =>
      r := m;
  }

  /** `mouseOut(player)`: clear the highlight when nothing is being edited. */
  method HandleMouseOut(m: Mode, player: Player) returns (r: Mode)
    modifies Touched(m, MouseOut(player))`selected
    ensures r == Next(m, MouseOut(player))
    ensures forall q :: q in Touched(m, MouseOut(player)) ==>
              q.selected == SelectedAfter(m, MouseOut(player), q, old(q.selected))
  {
    match m
    case NoSelection =>
      player.selected := false;
      r := m;
    case Editing(_) =>
      r := m;
  }

  /** `EditController`: forwards every event to the controller in charge and
      keeps the one returned. */
  class EditController {
    var controller: Mode

    /** The player being edited is selected. */
    ghost predicate Valid()
      reads this, if controller.Editing? then {controller.player} else {}
    {
      controller.Editing? ==> controller.player.selected
    }

    /** A fresh controller starts with nothing selected for editing. */
    constructor ()
      ensures controller == NoSelection && Valid()
    {
      controller := NoSelection;
    }

    method ClickBackground() returns (r: Mode)
      requires Valid()
      modifies this`controller, Touched(controller, Event.ClickBackground)`selected
      ensures Valid()
      ensures r == controller == Next(old(controller), Event.ClickBackground)
      ensures forall q :: q in Touched(old(controller), Event.ClickBackground) ==>
                q.selected == SelectedAfter(old(controller), Event.ClickBackground, q, old(q.selected))
    {
      controller := HandleClickBackground(controller);
      r := controller;
    }

    method Click(player: Player) returns (r: Mode)
      requires Valid()
      modifies this`controller, Touched(controller, Event.Click(player))`selected
      ensures Valid()
      ensures r == controller == Next(old(controller), Event.Click(player))
      ensures forall q :: q in Touched(old(controller), Event.Click(player)) ==>
                q.selected == SelectedAfter(old(controller), Event.Click(player), q, old(q.selected))
    {
      controller := HandleClick(controller, player);
      r := controller;
    }

    method MouseOver(player: Player) returns (r: Mode)
      requires Valid()
      modifies this`controller, Touched(controller, Event.MouseOver(player))`selected
      ensures Valid()
      ensures r == controller == Next(old(controller), Event.MouseOver(player))
      ensures forall q :: q in Touched(old(controller), Event.MouseOver(player)) ==>
                q.selected == SelectedAfter(old(controller), Event.MouseOver(player), q, old(q.selected))
    {
      controller := HandleMouseOver(controller, player);
      r := controller;
    }

    method MouseOut(player: Player) returns (r: Mode)
      requires Valid()
      modifies this`controller, Touched(controller, Event.MouseOut(player))`selected
      ensures Valid()
      ensures r == controller == Next(old(controller), Event.MouseOut(player))
      ensures forall q :: q in Touched(old(controller), Event.MouseOut(player)) ==>
                q.selected == SelectedAfter(old(controller), Event.MouseOut(player), q, old(q.selected))
    {
      controller := HandleMouseOut(controller, player);
      r := controller;
    }
  }
}
