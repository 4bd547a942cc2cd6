/** The habit editor (modules/habit_manager.c): habits with a streak and a
    done-today flag, the key handler in its three modes, the daily rollover
    and the external toggle. */
module Habits {
  import opened Keys
  import opened Store
  import opened Cursor
  import opened Editor
  import opened Lists

  /** A habit: its id, its name, its current streak and whether it is done today. */
  datatype Habit = Habit(id: int, name: string, streak: int, doneToday: bool)

  // ---------------------------------------------------------------------------
  // Initial state

  /** habits_init as the model uses it: no heads, head 0 and the head itself
      selected, both modes off. */
  function InitialHabits(): (s: EditorState<Habit>)
    ensures WellFormed(s) && |s.heads| == 0 && !s.editMode && !s.moveMode
  {
    EditorState([], 0, -1, false, false)
  }

  /** habits_init as written: it selects item 0, although there is no item. */
  function InitialHabitsAsWritten(): (s: EditorState<Habit>)
    ensures |s.heads| == 0 && !s.editMode && !s.moveMode && !SelectionValid(s)
  {
    EditorState([], 0, 0, false, false)
  }

  /** The written initial selection names an item that does not exist. Once a
      load has added a head without items and E+I has entered edit mode, R+I
      computes insertion point 1 in a head holding no items, so the new habit
      is written past the head's live items. */
  lemma InitialSelectionAsWrittenIsInvalid()
    ensures !SelectionValid(InitialHabitsAsWritten())
    ensures var s := InitialHabitsAsWritten().(heads := [Head(0, "Health", [])], editMode := true);
      && s.selectedTask + 1 > |s.heads[s.selectedHead].tasks|
      && !SelectionValid(s)
  {
  }

  /** The same loaded state built from the corrected start is well formed and
      R+I puts the habit first. */
  lemma InitialSelectionCorrected()
    ensures var s := InitialHabits().(heads := [Head(0, "Health", [])], editMode := true);
      && WellFormed(s) && InsertPos(s) == 0
  {
  }

  /** habits_init on the record. */
  method Init(d: ListData<Habit>)
    modifies d
    ensures d.State() == InitialHabits()
  {
    d.heads := [];
    d.selectedHead := 0;
    d.selectedTask := -1;
    d.editMode := false;
    d.moveMode := false;
  }

  // ---------------------------------------------------------------------------
  // Space in normal mode

  /** Flip done-today; the streak grows when the habit becomes done and shrinks,
      never below zero, when it is undone. */
  function Toggle(x: Habit): (r: Habit)
    ensures r.id == x.id && r.name == x.name && r.doneToday == !x.doneToday
    ensures x.streak >= 0 ==> r.streak >= 0
    ensures r.doneToday ==> r.streak == x.streak + 1
    ensures !r.doneToday ==> r.streak == if x.streak > 0 then x.streak - 1 else x.streak
  {
    var done := !x.doneToday;
    x.(doneToday := done, streak := if done then x.streak + 1 else if x.streak > 0 then x.streak - 1 else x.streak)
  }

  /** Toggling twice restores the habit, except that undoing a done habit with
      streak 0 cannot take the streak below 0. */
  lemma ToggleTwice(x: Habit)
    ensures x.streak >= 0 && (!x.doneToday || x.streak > 0) ==> Toggle(Toggle(x)) == x
    ensures x.doneToday && x.streak == 0 ==> Toggle(Toggle(x)) == x.(streak := 1)
  {
  }

  /** Replace the habit at (h, t). */
  function SetHabit(heads: seq<Head<Habit>>, h: int, t: int, x: Habit): (r: seq<Head<Habit>>)
    requires 0 <= h < |heads| && 0 <= t < |heads[h].tasks|
    ensures |r| == |heads| && |r[h].tasks| == |heads[h].tasks| && r[h].tasks[t] == x
    ensures forall j :: 0 <= j < |heads| && j != h ==> r[j] == heads[j]
    ensures r[h].id == heads[h].id && r[h].name == heads[h].name
    ensures forall k :: 0 <= k < |heads[h].tasks| && k != t ==> r[h].tasks[k] == heads[h].tasks[k]
  {
    heads[h := heads[h].(tasks := heads[h].tasks[t := x])]
  }

  /** Space on the selected habit. */
  function ToggleSelected(s: EditorState<Habit>): (r: EditorState<Habit>)
    requires WellFormed(s) && OnItem(s)
    ensures WellFormed(r) && OnItem(r)
    ensures r.selectedHead == s.selectedHead && r.selectedTask == s.selectedTask
    ensures r.editMode == s.editMode && r.moveMode == s.moveMode
    ensures |r.heads| == |s.heads| && forall j :: 0 <= j < |s.heads| && j != s.selectedHead ==> r.heads[j] == s.heads[j]
    ensures var h, t := s.selectedHead, s.selectedTask;
      && r.heads[h].id == s.heads[h].id && r.heads[h].name == s.heads[h].name
      && |r.heads[h].tasks| == |s.heads[h].tasks|
      && (forall k :: 0 <= k < |s.heads[h].tasks| && k != t ==> r.heads[h].tasks[k] == s.heads[h].tasks[k])
      && r.heads[h].tasks[t] == Toggle(s.heads[h].tasks[t])
  {
    s.(heads := SetHabit(s.heads, s.selectedHead, s.selectedTask,
                         Toggle(s.heads[s.selectedHead].tasks[s.selectedTask])))
  }

  // ---------------------------------------------------------------------------
  // The key handler

  /** The habit R+I chord may run: there is a selected head with room. */
  predicate CanInsert(s: EditorState<Habit>)
    requires SelectionValid(s)
  {
    |s.heads| > 0 && |s.heads[s.selectedHead].tasks| < MAX_TASKS_PER_HEAD
  }

  /** The R+I guard as written: the selected head index is not negative and the
      array slot at that index has room. With no heads, slot 0 lies beyond the
      live heads; stale gives the count that slot holds. */
  predicate CanInsertAsWritten(s: EditorState<Habit>, stale: int)
    ensures |s.heads| == 0 && s.selectedHead == 0 ==> (CanInsertAsWritten(s, stale) <==> stale < MAX_TASKS_PER_HEAD)
  {
    s.selectedHead >= 0
    && (if s.selectedHead < |s.heads| then |s.heads[s.selectedHead].tasks| else stale) < MAX_TASKS_PER_HEAD
  }

  /** The array slot behind a head index that no live head uses: all
      MAX_TASKS_PER_HEAD cells of its item array, live or stale, and its count. */
  datatype Slot = Slot(cells: seq<Habit>, count: int)

  /** The cells a slot would show as items: the first count. */
  function SlotItems(slot: Slot): (r: seq<Habit>)
    requires 0 <= slot.count <= |slot.cells|
    ensures |r| == slot.count && forall k :: 0 <= k < slot.count ==> r[k] == slot.cells[k]
  {
    slot.cells[..slot.count]
  }

  /** R+I under the written guard from a state with no heads: the insertion
      point follows the selection, the cells from it up to the count shift up
      when it lies below the count, the count grows, the habit numbered by the
      new count is written at the insertion point and selected. All of it
      happens in the slot behind the selected index, which no live head shows. */
  function InsertIntoMissingHeadAsWritten(s: EditorState<Habit>, slot: Slot, name: string): (r: (EditorState<Habit>, Slot))
    requires |s.heads| == 0 && -1 <= s.selectedTask < MAX_TASKS_PER_HEAD - 1
    requires |slot.cells| == MAX_TASKS_PER_HEAD && 0 <= slot.count < MAX_TASKS_PER_HEAD
    requires |name| > 0
    ensures r.0 == s.(selectedTask := s.selectedTask + 1)
    ensures |r.1.cells| == MAX_TASKS_PER_HEAD && r.1.count == slot.count + 1
    ensures r.1.cells[s.selectedTask + 1] == Habit(slot.count + 1, name, 0, false)
    ensures s.selectedTask + 1 <= slot.count ==>
              SlotItems(r.1) == InsertAt(SlotItems(slot), s.selectedTask + 1, Habit(slot.count + 1, name, 0, false))
    ensures s.selectedTask + 1 > slot.count ==> SlotItems(r.1) == SlotItems(slot) + [slot.cells[slot.count]]
  {
    var pos := if s.selectedTask == -1 then 0 else s.selectedTask + 1;
    var x := Habit(slot.count + 1, name, 0, false);
    assert pos == s.selectedTask + 1;
    var after := Slot(ShiftWrite(slot.cells, pos, slot.count, x), slot.count + 1);
    WriteAfterShift(slot.cells, pos, slot.count, x);
    assert SlotItems(after) == ShiftWrite(slot.cells, pos, slot.count, x)[..slot.count + 1];
    assert SlotItems(slot) == slot.cells[..slot.count];
    (s.(selectedTask := pos), after)
  }

  /** The memmove of the cells from pos up to the count one place up, when
      pos lies below the count, then the write of x at pos. */
  function ShiftWrite<T>(c: seq<T>, pos: nat, n: nat, x: T): (r: seq<T>)
    requires pos < |c| && n < |c|
    ensures |r| == |c| && r[pos] == x
  {
    var moved := if pos < n then c[..pos + 1] + c[pos..n] + c[n + 1..] else c;
    moved[pos := x]
  }

  /** Below the count the shift and write show the insertion; past the count
      the shown cells are the old ones plus the stale cell at the count. */
  lemma WriteAfterShift<T>(c: seq<T>, pos: nat, n: nat, x: T)
    requires pos < |c| && n < |c|
    ensures pos <= n ==> ShiftWrite(c, pos, n, x)[..n + 1] == InsertAt(c[..n], pos, x)
    ensures pos > n ==> ShiftWrite(c, pos, n, x)[..n + 1] == c[..n] + [c[n]]
  {
    var w := ShiftWrite(c, pos, n, x);
    if pos < n {
      var moved := c[..pos + 1] + c[pos..n] + c[n + 1..];
      assert w == moved[pos := x];
      var e := InsertAt(c[..n], pos, x);
      forall k | 0 <= k < n + 1
        ensures w[..n + 1][k] == e[k]
      {
        if k > pos {
          assert moved[k] == c[pos..n][k - pos - 1];
        }
      }
    }
  }

  /** The written guard lets R+I through on a fresh start in edit mode: the
      zeroed slot 0 has room, the insertion point is 1, the slot then shows
      its zeroed first cell as its one item while the typed habit sits past
      the count, and the selection names item 1 of a head that does not
      exist. The corrected guard refuses. */
  lemma GuardAdmitsMissingHead()
    ensures var s, zero := InitialHabitsAsWritten().(editMode := true), Slot(seq(MAX_TASKS_PER_HEAD, _ => Habit(0, "", 0, false)), 0);
      && CanInsertAsWritten(s, zero.count)
      && var r := InsertIntoMissingHeadAsWritten(s, zero, "Run");
      && r.0.heads == [] && r.0.selectedTask == 1 && !SelectionValid(r.0)
      && SlotItems(r.1) == [Habit(0, "", 0, false)]
      && r.1.cells[1] == Habit(1, "Run", 0, false)
    ensures !CanInsert(InitialHabits().(editMode := true))
  {
  }

  /** Where the two guards differ: only with no heads. */
  lemma GuardsAgreeWithHeads(s: EditorState<Habit>, stale: int)
    requires SelectionValid(s) && |s.heads| > 0
    ensures CanInsert(s) <==> CanInsertAsWritten(s, stale)
  {
  }

  /** A new habit at position count: id count + 1, streak 0, not done. */
  function NewHabit(s: EditorState<Habit>, name: string): Habit
    requires SelectionValid(s) && |s.heads| > 0
  {
    Habit(|s.heads[s.selectedHead].tasks| + 1, name, 0, false)
  }

  /** The R chord: R+U adds a head, R+I inserts a habit after the selection. */
  function ChordR(s: EditorState<Habit>, next: int, text: string): (r: EditorState<Habit>)
    requires WellFormed(s)
    ensures WellFormed(r)
  {
    if IsLetter(next, 'U', 'u') then AddHead(s, text)
    else if IsLetter(next, 'I', 'i') && CanInsert(s) && text != "" then InsertItem(s, NewHabit(s, text))
    else s
  }

  /** D: delete the selected head, or the selected habit. */
  function Delete(s: EditorState<Habit>): (r: EditorState<Habit>)
    requires WellFormed(s) && !s.moveMode
    ensures WellFormed(r)
  {
    if s.selectedTask == -1 then
      if |s.heads| > 0 then DeleteHead(s) else s
    else DeleteItem(s)
  }

  /** One key press: ch is the key, next the second key of an E or R chord,
      text what the name prompt returns. */
  function Step(s: EditorState<Habit>, ch: int, next: int, text: string): (r: EditorState<Habit>)
    requires WellFormed(s)
    ensures WellFormed(r)
  {
    if s.editMode then
      if s.moveMode then MoveStep(s, ch)
      else if IsLetter(ch, 'R', 'r') then FinishChord(ChordR(s, next, text))
      else if IsLetter(ch, 'D', 'd') then Delete(s)
      else EditStep(s, ch, next)
    else if ch == SPACE && Total(s.heads) > 0 then
      EnsureSelectedSpec(s);
      ToggleSelected(EnsureSelected(s))
    else NormalStep(s, ch, next)
  }

  /** Space in normal mode touches only the selected habit: done-today flips,
      the streak moves by one (never below zero), nothing else changes. */
  lemma SpaceTogglesOnlySelected(s: EditorState<Habit>, next: int, text: string)
    requires WellFormed(s) && !s.editMode && Total(s.heads) > 0
    ensures var e, r := EnsureSelected(s), Step(s, SPACE, next, text);
      && OnItem(e)
      && r.selectedHead == e.selectedHead && r.selectedTask == e.selectedTask
      && !r.editMode && !r.moveMode
      && |r.heads| == |s.heads|
      && (forall j :: 0 <= j < |s.heads| && j != e.selectedHead ==> r.heads[j] == s.heads[j])
      && (forall k :: 0 <= k < |s.heads[e.selectedHead].tasks| && k != e.selectedTask ==>
            r.heads[e.selectedHead].tasks[k] == s.heads[e.selectedHead].tasks[k])
      && var x, y := s.heads[e.selectedHead].tasks[e.selectedTask], r.heads[e.selectedHead].tasks[e.selectedTask];
         && y.doneToday == !x.doneToday && y.name == x.name
         && y.streak == (if y.doneToday then x.streak + 1 else if x.streak > 0 then x.streak - 1 else x.streak)
  {
    EnsureSelectedSpec(s);
  }

  /** With no habits at all, normal mode ignores every key except E+I. */
  lemma NoItemsOnlyEditChord(s: EditorState<Habit>, ch: int, next: int, text: string)
    requires WellFormed(s) && !s.editMode && Total(s.heads) == 0
    ensures Step(s, ch, next, text) ==
      if IsLetter(ch, 'E', 'e') && IsLetter(next, 'I', 'i') then s.(editMode := true) else s
  {
  }

  /** R+I followed by D on the new habit gives back the habits as they were. */
  lemma InsertThenDeleteHabit(s: EditorState<Habit>, ch: int, text: string)
    requires WellFormed(s) && s.editMode && !s.moveMode
    requires CanInsert(s) && text != ""
    ensures var i := Step(s, 'r' as int, 'i' as int, text);
      && OnItem(i) && i.editMode
      && i.heads[i.selectedHead].tasks[i.selectedTask] == NewHabit(s, text)
      && Step(i, 'd' as int, 0, "").heads == s.heads
  {
    InsertThenDeleteRestores(s, NewHabit(s, text));
    RIInserts(s, text);
    DDeletesItem(InsertItem(s, NewHabit(s, text)));
  }

  /** In edit mode R+I with a name, when the selected head has room, inserts
      the new habit after the selection and selects it. */
  lemma RIInserts(s: EditorState<Habit>, text: string)
    requires WellFormed(s) && s.editMode && !s.moveMode
    requires CanInsert(s) && text != ""
    ensures Step(s, 'r' as int, 'i' as int, text) == InsertItem(s, NewHabit(s, text))
  {
    var ins := InsertItem(s, NewHabit(s, text));
    assert !IsLetter('i' as int, 'U', 'u') && IsLetter('i' as int, 'I', 'i');
    assert ChordR(s, 'i' as int, text) == ins;
    assert IsLetter('r' as int, 'R', 'r');
    assert FinishChord(ins) == ins;
  }

  /** In edit mode D on a selected habit deletes that habit. */
  lemma DDeletesItem(s: EditorState<Habit>)
    requires WellFormed(s) && s.editMode && !s.moveMode && OnItem(s)
    ensures Step(s, 'd' as int, 0, "") == DeleteItem(s)
  {
    assert !IsLetter('d' as int, 'R', 'r') && IsLetter('d' as int, 'D', 'd');
    assert Delete(s) == DeleteItem(s);
  }

  /** move_mode is entered only from edit mode and only with a head to move. */
  lemma MoveModeEntry(s: EditorState<Habit>, ch: int, next: int, text: string)
    requires WellFormed(s) && !s.moveMode
    ensures Step(s, ch, next, text).moveMode ==> s.editMode && |s.heads| > 0 && IsLetter(ch, 'S', 's')
  {
  }

  /** The handler on the record. */
  method HandleInput(d: ListData<Habit>, ch: int, next: int, text: string)
    requires WellFormed(d.State())
    modifies d
    ensures d.State() == Step(old(d.State()), ch, next, text)
  {
    if d.editMode {
      if d.moveMode {
        d.MoveInput(ch);
      } else {
        EditInput(d, ch, next, text);
      }
    } else {
      NormalInput(d, ch, next);
    }
  }

  /** The edit-mode switch of the handler. */
  method EditInput(d: ListData<Habit>, ch: int, next: int, text: string)
    requires WellFormed(d.State()) && d.editMode && !d.moveMode
    modifies d
    ensures d.State() == Step(old(d.State()), ch, next, text)
  {
    if IsLetter(ch, 'R', 'r') {
      ChordInput(d, next, text);
    } else if IsLetter(ch, 'D', 'd') {
      DeleteInput(d);
    } else {
      d.EditKey(ch, next);
    }
  }

  /** D in edit mode: the selected head, or the selected habit, shifted out. */
  method DeleteInput(d: ListData<Habit>)
    requires WellFormed(d.State()) && !d.moveMode
    modifies d
    ensures d.State() == Delete(old(d.State()))
  {
    if d.selectedTask == -1 {
      if |d.heads| > 0 {
        d.DeleteHeadByLoop();
      }
    } else {
      d.DeleteItemByLoop();
    }
  }

  /** The R chord on the record: R+U or R+I, then move mode off and an item reselected. */
  method ChordInput(d: ListData<Habit>, next: int, text: string)
    requires WellFormed(d.State())
    modifies d
    ensures d.State() == FinishChord(ChordR(old(d.State()), next, text))
  {
    ChordBody(d, next, text);
    d.moveMode := false;
    d.EnsureTaskSelected();
  }

  /** The R+U and R+I bodies on the record. */
  method ChordBody(d: ListData<Habit>, next: int, text: string)
    requires WellFormed(d.State())
    modifies d
    ensures d.State() == ChordR(old(d.State()), next, text)
  {
    ghost var s := d.State();
    if IsLetter(next, 'U', 'u') {
      d.AppendHead(text);
    } else if IsLetter(next, 'I', 'i') && |d.heads| > 0 && |d.heads[d.selectedHead].tasks| < MAX_TASKS_PER_HEAD && text != "" {
      assert CanInsert(s);
      d.InsertAtSelection(Habit(|d.heads[d.selectedHead].tasks| + 1, text, 0, false));
    } else {
      assert ChordR(s, next, text) == s;
    }
  }

  /** The normal-mode branch of the handler: count the items, reselect, act. */
  method NormalInput(d: ListData<Habit>, ch: int, next: int)
    requires WellFormed(d.State()) && !d.editMode
    modifies d
    ensures d.State() == Step(old(d.State()), ch, next, "")
  {
    var total := CountTasks(d.heads);
    if total == 0 {
      if IsLetter(ch, 'E', 'e') && IsLetter(next, 'I', 'i') {
        d.editMode := true;
      }
      return;
    }
    EnsureSelectedSpec(d.State());
    d.EnsureTaskSelected();
    if IsLetter(ch, 'E', 'e') {
      if IsLetter(next, 'I', 'i') {
        d.editMode := true;
      }
    } else if ch == KEY_UP || ch == KEY_DOWN {
      d.NormalNavigate(ch);
    } else if ch == SPACE {
      var h, t := d.selectedHead, d.selectedTask;
      d.heads := SetHabit(d.heads, h, t, Toggle(d.heads[h].tasks[t]));
    }
  }

  // ---------------------------------------------------------------------------
  // Daily rollover and the external toggle

  /** One habit at the day boundary: the streak survives only if it was done. */
  function Rollover(x: Habit): (r: Habit)
    ensures !r.doneToday && r.id == x.id && r.name == x.name
    ensures r.streak == if x.doneToday then x.streak else 0
  {
    x.(streak := if x.doneToday then x.streak else 0, doneToday := false)
  }

  /** Every habit of every head rolled over. */
  function RolloverAll(heads: seq<Head<Habit>>): (r: seq<Head<Habit>>)
    ensures |r| == |heads|
    ensures forall h :: 0 <= h < |heads| ==>
      r[h].id == heads[h].id && r[h].name == heads[h].name && |r[h].tasks| == |heads[h].tasks|
    ensures forall h, t :: 0 <= h < |heads| && 0 <= t < |heads[h].tasks| ==> r[h].tasks[t] == Rollover(heads[h].tasks[t])
  {
    seq(|heads|, h requires 0 <= h < |heads| =>
      heads[h].(tasks := seq(|heads[h].tasks|, t requires 0 <= t < |heads[h].tasks| => Rollover(heads[h].tasks[t]))))
  }

  /** After the rollover nothing is done, a streak survives exactly where the
      habit was done, and heads, names and counts are unchanged. Running it a
      second time zeroes every streak. */
  lemma RolloverFacts(heads: seq<Head<Habit>>)
    ensures WithinCapacity(heads) ==> WithinCapacity(RolloverAll(heads))
    ensures forall h, t :: 0 <= h < |heads| && 0 <= t < |heads[h].tasks| ==>
      var x, y := heads[h].tasks[t], RolloverAll(heads)[h].tasks[t];
      !y.doneToday && y.name == x.name && (y.streak == x.streak <==> x.doneToday || x.streak == 0)
    ensures forall h, t :: 0 <= h < |heads| && 0 <= t < |heads[h].tasks| ==>
      RolloverAll(RolloverAll(heads))[h].tasks[t].streak == 0
  {
  }

  /** The inner loop of habits_daily_update: every habit of one head rolled
      over in place, in order. */
  method RolloverItems(tasks: seq<Habit>) returns (r: seq<Habit>)
    ensures |r| == |tasks|
    ensures forall k :: 0 <= k < |tasks| ==> r[k] == Rollover(tasks[k])
  {
    r := tasks;
    var t := 0;
    while t < |r|
      invariant 0 <= t <= |r| == |tasks|
      invariant forall k :: 0 <= k < t ==> r[k] == Rollover(tasks[k])
      invariant forall k :: t <= k < |r| ==> r[k] == tasks[k]
    {
      var x := r[t];
      if !x.doneToday {
        x := x.(streak := 0);
      }
      x := x.(doneToday := false);
      r := r[t := x];
      t := t + 1;
    }
  }

  /** habits_daily_update: the nested loop over heads and habits. */
  method DailyUpdate(d: ListData<Habit>)
    modifies d
    ensures d.heads == RolloverAll(old(d.heads))
    ensures d.selectedHead == old(d.selectedHead) && d.selectedTask == old(d.selectedTask)
    ensures d.editMode == old(d.editMode) && d.moveMode == old(d.moveMode)
  {
    var h := 0;
    while h < |d.heads|
      invariant 0 <= h <= |d.heads| && |d.heads| == |old(d.heads)|
      invariant forall j :: 0 <= j < h ==> d.heads[j] == RolloverAll(old(d.heads))[j]
      invariant forall j :: h <= j < |d.heads| ==> d.heads[j] == old(d.heads)[j]
      invariant d.selectedHead == old(d.selectedHead) && d.selectedTask == old(d.selectedTask)
      invariant d.editMode == old(d.editMode) && d.moveMode == old(d.moveMode)
    {
      var items := RolloverItems(d.heads[h].tasks);
      d.heads := d.heads[h := d.heads[h].(tasks := items)];
      assert d.heads[h].tasks == RolloverAll(old(d.heads))[h].tasks;
      h := h + 1;
    }
    assert d.heads == RolloverAll(old(d.heads));
  }

  /** habits_toggle_today: flip done-today of the habit at (h, t) when both
      indices are in range; the streak is not touched. */
  function ToggleToday(heads: seq<Head<Habit>>, h: int, t: int): (r: seq<Head<Habit>>)
    ensures !(0 <= h < |heads| && 0 <= t < |heads[h].tasks|) ==> r == heads
    ensures 0 <= h < |heads| && 0 <= t < |heads[h].tasks| ==>
      && |r| == |heads|
      && (forall j :: 0 <= j < |heads| && j != h ==> r[j] == heads[j])
      && r[h].id == heads[h].id && r[h].name == heads[h].name
      && |r[h].tasks| == |heads[h].tasks|
      && (forall k :: 0 <= k < |heads[h].tasks| && k != t ==> r[h].tasks[k] == heads[h].tasks[k])
      && r[h].tasks[t] == heads[h].tasks[t].(doneToday := !heads[h].tasks[t].doneToday)
  {
    if 0 <= h < |heads| && 0 <= t < |heads[h].tasks| then
      SetHabit(heads, h, t, heads[h].tasks[t].(doneToday := !heads[h].tasks[t].doneToday))
    else heads
  }

  /** habits_toggle_today on the record: only the addressed habit's
      done-today flag changes, and nothing at all for indices out of range. */
  method ToggleTodayAt(d: ListData<Habit>, h: int, t: int)
    modifies d
    ensures d.State() == old(d.State()).(heads := ToggleToday(old(d.heads), h, t))
  {
    if 0 <= h < |d.heads| && 0 <= t < |d.heads[h].tasks| {
      var x := d.heads[h].tasks[t];
      d.heads := d.heads[h := d.heads[h].(tasks := d.heads[h].tasks[t := x.(doneToday := !x.doneToday)])];
    }
  }

  /** Toggling the same habit twice from outside changes nothing. */
  lemma ToggleTodayTwice(heads: seq<Head<Habit>>, h: int, t: int)
    ensures ToggleToday(ToggleToday(heads, h, t), h, t) == heads
  {
    if 0 <= h < |heads| && 0 <= t < |heads[h].tasks| {
      var once := ToggleToday(heads, h, t);
      assert once[h].tasks[t].doneToday == !heads[h].tasks[t].doneToday;
      assert ToggleToday(once, h, t)[h] == heads[h];
    }
  }
}
