/** The top-level switcher (src/minimal_tui.c): a panel listing the modules,
    the module view that forwards keys to the chosen module, and the exit
    state that stops the main loop at the next render. */
module Tui {
  import opened Keys
  import opened Store

  datatype UiState = Panel | ModuleView | SettingsView | Exit

  /** The modules of the module table, in panel order. */
  datatype ModuleId = HabitsModule | TasksModule | PomodoroModule | SettingsModule

  /** The size of the modules slot array of MinimalTui. */
  const NUM_MODULES: int := 5
  /** The number of modules in the table; only this many slots are filled. */
  const NUM_MODULES_IMPL: int := 4
  const ALL_MODULES: seq<ModuleId> := [HabitsModule, TasksModule, PomodoroModule, SettingsModule]

  /** The smallest terminal the renderer draws in. */
  const MIN_COLS: int := 60
  const MIN_ROWS: int := 20

  /** The fields of MinimalTui that the switcher updates, as a value. */
  datatype Screen = Screen(state: UiState, selected: int, running: bool, active: Option<ModuleId>)

  /** The result of one key: the new fields, and the module the key is handed
      to, if any. */
  datatype Routed = Routed(screen: Screen, forwardTo: Option<ModuleId>)

  /** What every reachable switcher state satisfies: the panel selection is a
      module of the table, a module is active exactly in the module view, and
      it is the selected one. */
  predicate ScreenValid(s: Screen) {
    0 <= s.selected < NUM_MODULES_IMPL
    && (s.state == Panel ==> s.active == None)
    && (s.state == ModuleView ==> s.active == Some(ALL_MODULES[s.selected]))
    && (s.state == SettingsView ==> s.active == None)
  }

  /** minimal_tui_init: the panel, module 0 selected, running, nothing active. */
  function InitialScreen(): (s: Screen)
    ensures ScreenValid(s) && s.state == Panel && s.running
  {
    Screen(Panel, 0, true, None)
  }

  /** minimal_tui_handle_input. In the panel the arrows move the selection
      round the table, Enter opens the selected module and q exits; in the
      module view b returns to the panel, q exits and any other key goes to
      the active module; in the other states keys are ignored. */
  function Route(s: Screen, ch: int): (r: Routed)
    requires 0 <= s.selected < NUM_MODULES_IMPL
    ensures 0 <= r.screen.selected < NUM_MODULES_IMPL
    ensures ScreenValid(s) ==> ScreenValid(r.screen)
    ensures r.screen.running == s.running
    ensures r.forwardTo.Some? <==> s.state == ModuleView && ch != Code('b') && ch != Code('q') && s.active.Some?
    ensures r.forwardTo.Some? ==> r.screen == s && r.forwardTo == s.active
  {
    match s.state
    case Panel =>
      if ch == KEY_UP then
        Routed(s.(selected := (s.selected - 1 + NUM_MODULES_IMPL) % NUM_MODULES_IMPL), None)
      else if ch == KEY_DOWN then
        Routed(s.(selected := (s.selected + 1) % NUM_MODULES_IMPL), None)
      else if ch == NEWLINE || ch == KEY_ENTER then
        Routed(s.(state := ModuleView, active := Some(ALL_MODULES[s.selected])), None)
      else if ch == Code('q') then
        Routed(s.(state := Exit), None)
      else Routed(s, None)
    case ModuleView =>
      if ch == Code('b') then Routed(s.(state := Panel, active := None), None)
      else if ch == Code('q') then Routed(s.(state := Exit), None)
      else if s.active.Some? then Routed(s, s.active)
      else Routed(s, None)
    case SettingsView => Routed(s, None)
    case Exit => Routed(s, None)
  }

  /** The part of minimal_tui_render that changes the record: in the exit
      state, on a terminal of at least 60x20, the main loop is told to stop. */
  function RenderStep(s: Screen, rows: int, cols: int): (r: Screen)
    ensures r.state == s.state && r.selected == s.selected && r.active == s.active
    ensures !r.running <==> !s.running || (s.state == Exit && cols >= MIN_COLS && rows >= MIN_ROWS)
  {
    if cols < MIN_COLS || rows < MIN_ROWS then s
    else if s.state == Exit then s.(running := false)
    else s
  }

  // ---------------------------------------------------------------------------
  // Properties

  /** Up then down, and down then up, in the panel give the selection back. */
  lemma UpDownInverse(s: Screen)
    requires 0 <= s.selected < NUM_MODULES_IMPL && s.state == Panel
    ensures Route(Route(s, KEY_UP).screen, KEY_DOWN).screen == s
    ensures Route(Route(s, KEY_DOWN).screen, KEY_UP).screen == s
  {
  }

  /** n presses of down. */
  function Downs(s: Screen, n: nat): (r: Screen)
    requires 0 <= s.selected < NUM_MODULES_IMPL && s.state == Panel
    ensures 0 <= r.selected < NUM_MODULES_IMPL && r.state == Panel
  {
    if n == 0 then s else Route(Downs(s, n - 1), KEY_DOWN).screen
  }

  /** Down walks the table in order: after n presses the selection is n
      places further round, so every module is reached and four presses
      come back to the start. */
  lemma {:induction false} DownsWalk(s: Screen, n: nat)
    requires 0 <= s.selected < NUM_MODULES_IMPL && s.state == Panel
    ensures Downs(s, n) == s.(selected := (s.selected + n) % NUM_MODULES_IMPL)
  {
    if n > 0 {
      DownsWalk(s, n - 1);
      WrapStep(s.selected + n - 1);
    }
  }

  lemma WrapStep(a: int)
    requires a >= 0
    ensures (a % NUM_MODULES_IMPL + 1) % NUM_MODULES_IMPL == (a + 1) % NUM_MODULES_IMPL
  {
  }

  /** Four presses of down come back to the start. */
  lemma DownsCycle(s: Screen)
    requires 0 <= s.selected < NUM_MODULES_IMPL && s.state == Panel
    ensures Downs(s, NUM_MODULES_IMPL as nat) == s
  {
    DownsWalk(s, NUM_MODULES_IMPL as nat);
    Wrap(s.selected + NUM_MODULES_IMPL);
  }

  /** The number of down presses from module a to module m. */
  function Distance(a: int, m: int): int {
    if a <= m then m - a else m - a + NUM_MODULES_IMPL
  }

  /** Every module of the table is reached by pressing down. */
  lemma DownsReach(s: Screen, m: int)
    requires 0 <= s.selected < NUM_MODULES_IMPL && s.state == Panel && 0 <= m < NUM_MODULES_IMPL
    ensures Downs(s, Distance(s.selected, m)).selected == m
  {
    DownsWalk(s, Distance(s.selected, m));
    DistanceArrives(s.selected, m);
  }

  lemma DistanceArrives(a: int, m: int)
    requires 0 <= a < NUM_MODULES_IMPL && 0 <= m < NUM_MODULES_IMPL
    ensures 0 <= Distance(a, m) < NUM_MODULES_IMPL
    ensures (a + Distance(a, m)) % NUM_MODULES_IMPL == m
  {
    Wrap(a + Distance(a, m));
  }

  lemma Wrap(x: int)
    requires 0 <= x < 2 * NUM_MODULES_IMPL
    ensures x % NUM_MODULES_IMPL == if x < NUM_MODULES_IMPL then x else x - NUM_MODULES_IMPL
  {
  }

  /** Enter opens the selected module and b comes back to the panel as it was. */
  lemma EnterThenBack(s: Screen)
    requires ScreenValid(s) && s.state == Panel
    ensures var open := Route(s, NEWLINE).screen;
      && open.state == ModuleView && open.active == Some(ALL_MODULES[s.selected])
      && Route(open, Code('b')).screen == s
  {
  }

  /** q exits from the panel and from a module; the exit state ignores every
      key, and the next render on a large enough terminal stops the loop. */
  lemma QuitStops(s: Screen, ch: int, rows: int, cols: int)
    requires 0 <= s.selected < NUM_MODULES_IMPL && (s.state == Panel || s.state == ModuleView)
    requires rows >= MIN_ROWS && cols >= MIN_COLS
    ensures var e := Route(s, Code('q')).screen;
      && e.state == Exit && Route(e, ch).screen == e && Route(e, ch).forwardTo == None
      && !RenderStep(e, rows, cols).running
  {
  }

  /** On a terminal smaller than 60x20 rendering changes nothing, even on exit. */
  lemma SmallTerminalKeepsRunning(s: Screen, rows: int, cols: int)
    requires cols < MIN_COLS || rows < MIN_ROWS
    ensures RenderStep(s, rows, cols) == s
  {
  }

  // ---------------------------------------------------------------------------
  // The record

  /** The MinimalTui record: the switcher fields, updated in place, and the
      module slot array filled at start-up. The window manager and the tick
      clock are not part of this model. */
  class MinimalTui {
    var state: UiState
    var selected: int
    var running: bool
    var activeModule: Option<ModuleId>
    const modules: array<Option<ModuleId>>

    function State(): Screen
      reads this
    {
      Screen(state, selected, running, activeModule)
    }

    /** The slots hold the module table in order; the fifth slot is never filled. */
    predicate SlotsFilled()
      reads modules
    {
      modules.Length == NUM_MODULES
      && (forall i :: 0 <= i < NUM_MODULES_IMPL ==> modules[i] == Some(ALL_MODULES[i]))
    }

    /** minimal_tui_init, with the copy of the module table into the slots. */
    constructor ()
      ensures State() == InitialScreen() && SlotsFilled() && modules[NUM_MODULES_IMPL] == None
    {
      var slots := new Option<ModuleId>[NUM_MODULES](_ => None);
      var i := 0;
      while i < NUM_MODULES_IMPL
        invariant 0 <= i <= NUM_MODULES_IMPL
        invariant forall j :: 0 <= j < i ==> slots[j] == Some(ALL_MODULES[j])
        invariant forall j :: i <= j < NUM_MODULES ==> slots[j] == None
      {
        slots[i] := Some(ALL_MODULES[i]);
        i := i + 1;
      }
      modules := slots;
      state := Panel;
      selected := 0;
      running := true;
      activeModule := None;
    }

    /** minimal_tui_handle_input. The call into the active module's handler
        is returned as forwardTo rather than made. */
    method HandleInput(ch: int) returns (forwardTo: Option<ModuleId>)
      requires SlotsFilled() && 0 <= selected < NUM_MODULES_IMPL
      modifies this
      ensures Routed(State(), forwardTo) == Route(old(State()), ch)
    {
      forwardTo := None;
      if state == Panel {
        if ch == KEY_UP {
          selected := (selected - 1 + NUM_MODULES_IMPL) % NUM_MODULES_IMPL;
        } else if ch == KEY_DOWN {
          selected := (selected + 1) % NUM_MODULES_IMPL;
        } else if ch == NEWLINE || ch == KEY_ENTER {
          state := ModuleView;
          activeModule := modules[selected];
        } else if ch == Code('q') {
          state := Exit;
        }
      } else if state == ModuleView {
        if ch == Code('b') {
          state := Panel;
          activeModule := None;
        } else if ch == Code('q') {
          state := Exit;
        } else if activeModule.Some? {
          forwardTo := activeModule;
        }
      }
    }

    /** The record part of minimal_tui_render on a terminal of rows x cols. */
    method Render(rows: int, cols: int)
      modifies this
      ensures State() == RenderStep(old(State()), rows, cols)
    {
      if cols < MIN_COLS || rows < MIN_ROWS {
        return;
      }
      if state == Exit {
        running := false;
        return;
      }
    }

    /** minimal_tui_is_running. */
    function IsRunning(): (r: bool)
      reads this
      ensures r == State().running
    {
      running
    }
  }
}
