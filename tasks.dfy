/** The task editor (modules/task_manager.c): tasks with a completed flag,
    an unnamed head 0 for tasks outside any named head, and the key handler in
    its three modes. */
module Tasks {
  import opened Keys
  import opened Store
  import opened Cursor
  import opened Editor
  import opened Lists

  /** A task: its id, its description and whether it is completed. */
  datatype TaskItem = TaskItem(id: int, description: string, completed: bool)

  /** The task editor's invariant: the shared one, and head 0 always exists. */
  predicate TasksWellFormed(s: EditorState<TaskItem>) {
    WellFormed(s) && |s.heads| >= 1
  }

  /** tasks_init: one unnamed empty head, the selection on it, both modes off.
      tasks_init does not write the head's id; it is 0 in the zeroed record. */
  function InitialTasks(): (s: EditorState<TaskItem>)
    ensures TasksWellFormed(s) && |s.heads| == 1 && s.heads[0].name == "" && s.heads[0].tasks == []
    ensures s.selectedHead == 0 && s.selectedTask == -1 && !s.editMode && !s.moveMode
  {
    EditorState([Head(0, "", [])], 0, -1, false, false)
  }

  /** tasks_init on the record. */
  method Init(d: ListData<TaskItem>)
    modifies d
    ensures d.State() == InitialTasks()
  {
    d.heads := [Head(0, "", [])];
    d.selectedHead := 0;
    d.selectedTask := -1;
    d.editMode := false;
    d.moveMode := false;
  }

  /** Space on the selected task: completed flips. */
  function ToggleSelected(s: EditorState<TaskItem>): (r: EditorState<TaskItem>)
    requires TasksWellFormed(s) && OnItem(s)
    ensures TasksWellFormed(r) && OnItem(r)
    ensures r.selectedHead == s.selectedHead && r.selectedTask == s.selectedTask
    ensures r.editMode == s.editMode && r.moveMode == s.moveMode
    ensures |r.heads| == |s.heads| && forall j :: 0 <= j < |s.heads| && j != s.selectedHead ==> r.heads[j] == s.heads[j]
    ensures var h, t := s.selectedHead, s.selectedTask;
      && r.heads[h].id == s.heads[h].id && r.heads[h].name == s.heads[h].name
      && |r.heads[h].tasks| == |s.heads[h].tasks|
      && (forall k :: 0 <= k < |s.heads[h].tasks| && k != t ==> r.heads[h].tasks[k] == s.heads[h].tasks[k])
      && r.heads[h].tasks[t].id == s.heads[h].tasks[t].id
      && r.heads[h].tasks[t].description == s.heads[h].tasks[t].description
      && r.heads[h].tasks[t].completed == !s.heads[h].tasks[t].completed
  {
    var h, t := s.selectedHead, s.selectedTask;
    var x := s.heads[h].tasks[t];
    s.(heads := s.heads[h := s.heads[h].(tasks := s.heads[h].tasks[t := x.(completed := !x.completed)])])
  }

  /** R+I may run: the selected head has room. */
  predicate CanInsert(s: EditorState<TaskItem>)
    requires TasksWellFormed(s)
  {
    |s.heads[s.selectedHead].tasks| < MAX_TASKS_PER_HEAD
  }

  /** A new task at position count: id count + 1, not completed. */
  function NewTask(s: EditorState<TaskItem>, description: string): TaskItem
    requires TasksWellFormed(s)
  {
    TaskItem(|s.heads[s.selectedHead].tasks| + 1, description, false)
  }

  /** The R chord: R+U adds a head, R+I inserts a task after the selection. */
  function ChordR(s: EditorState<TaskItem>, next: int, text: string): (r: EditorState<TaskItem>)
    requires TasksWellFormed(s)
    ensures TasksWellFormed(r)
  {
    if IsLetter(next, 'U', 'u') then AddHead(s, text)
    else if IsLetter(next, 'I', 'i') && CanInsert(s) && text != "" then InsertItem(s, NewTask(s, text))
    else s
  }

  /** X: delete the selected task, or the selected head unless it is head 0. */
  function Delete(s: EditorState<TaskItem>): (r: EditorState<TaskItem>)
    requires TasksWellFormed(s) && !s.moveMode
    ensures TasksWellFormed(r)
  {
    if s.selectedTask == -1 then
      if s.selectedHead > 0 then DeleteHead(s) else s
    else DeleteItem(s)
  }

  // ---------------------------------------------------------------------------
  // Head 0

  /** The layout the rest of task_manager.c relies on (the renderer omits the
      header of head 0, X never deletes it, the loader files unnamed rows
      under it and the saver omits it when it is empty): head 0 is the unnamed
      head of standalone tasks and every other head has a name. */
  predicate StandaloneLayout(heads: seq<Head<TaskItem>>) {
    |heads| >= 1 && heads[0].name == "" && forall h :: 1 <= h < |heads| ==> heads[h].name != ""
  }

  /** A head move in move mode that exchanges head 0 with head 1. */
  predicate CrossesStandalone(s: EditorState<TaskItem>, ch: int) {
    s.selectedTask == -1 && ((ch == KEY_UP && s.selectedHead == 1) || (ch == KEY_DOWN && s.selectedHead == 0))
  }

  /** Move mode with head 0 held in place: a head swap involving head 0 does
      nothing, every other key acts as in the shared move mode. */
  function TaskMoveStep(s: EditorState<TaskItem>, ch: int): (r: EditorState<TaskItem>)
    requires TasksWellFormed(s) && s.moveMode
    ensures TasksWellFormed(r) && r.editMode && |r.heads| == |s.heads|
    ensures multiset(Flatten(r.heads)) == multiset(Flatten(s.heads))
    ensures r.moveMode <==> !(IsLetter(ch, 'S', 's') || ch == ESC)
    ensures CrossesStandalone(s, ch) ==> r == s
  {
    if CrossesStandalone(s, ch) then s else MoveStep(s, ch)
  }

  /** The names of the heads, in order. */
  function Names(heads: seq<Head<TaskItem>>): (r: seq<string>)
    ensures |r| == |heads| && forall h :: 0 <= h < |heads| ==> r[h] == heads[h].name
  {
    seq(|heads|, h requires 0 <= h < |heads| => heads[h].name)
  }

  /** Moving items changes no head's name; a head swap that leaves head 0 in
      place keeps the layout. */
  lemma TaskMoveKeepsLayout(s: EditorState<TaskItem>, ch: int)
    requires TasksWellFormed(s) && s.moveMode && StandaloneLayout(s.heads)
    ensures StandaloneLayout(TaskMoveStep(s, ch).heads)
  {
    var h, t := s.selectedHead, s.selectedTask;
    if CrossesStandalone(s, ch) || IsLetter(ch, 'S', 's') || ch == ESC {
    } else if ch == KEY_UP {
      assert TaskMoveStep(s, ch) == MoveUp(s);
      if t == -1 {
        if h > 0 {
          HeadSwapKeepsLayout(s.heads, h - 1);
        }
      } else {
        ItemUpKeepsNames(s);
      }
    } else if ch == KEY_DOWN {
      assert TaskMoveStep(s, ch) == MoveDown(s);
      if t == -1 {
        if h < |s.heads| - 1 {
          HeadSwapKeepsLayout(s.heads, h);
        }
      } else {
        ItemDownKeepsNames(s);
      }
    }
  }

  /** Exchanging two named heads keeps the layout. */
  lemma HeadSwapKeepsLayout(heads: seq<Head<TaskItem>>, i: nat)
    requires StandaloneLayout(heads) && 1 <= i && i + 1 < |heads|
    ensures StandaloneLayout(SwapAdjacent(heads, i))
  {
  }

  /** Moving an item up, within its head or into the previous one, renames no head. */
  lemma ItemUpKeepsNames(s: EditorState<TaskItem>)
    requires TasksWellFormed(s) && s.selectedTask != -1
    ensures Names(MoveUp(s).heads) == Names(s.heads)
  {
  }

  /** Moving an item down, within its head or into the next one, renames no head. */
  lemma ItemDownKeepsNames(s: EditorState<TaskItem>)
    requires TasksWellFormed(s) && s.selectedTask != -1
    ensures Names(MoveDown(s).heads) == Names(s.heads)
  {
  }

  /** One key press: ch is the key, next the second key of an E or R chord,
      text what the prompt returns. */
  function Step(s: EditorState<TaskItem>, ch: int, next: int, text: string): (r: EditorState<TaskItem>)
    requires TasksWellFormed(s)
    ensures TasksWellFormed(r)
  {
    if s.editMode then
      if s.moveMode then MoveStep(s, ch)
      else if IsLetter(ch, 'R', 'r') then FinishChord(ChordR(s, next, text))
      else if IsLetter(ch, 'X', 'x') then Delete(s)
      else EditStep(s, ch, next)
    else if ch == SPACE && Total(s.heads) > 0 then
      EnsureSelectedSpec(s);
      ToggleSelected(EnsureSelected(s))
    else NormalStep(s, ch, next)
  }

  /** One key press with head 0 held in place in move mode: the same as Step
      except that a head swap involving head 0 does nothing. */
  function CorrectedStep(s: EditorState<TaskItem>, ch: int, next: int, text: string): (r: EditorState<TaskItem>)
    requires TasksWellFormed(s)
    ensures TasksWellFormed(r)
    ensures s.editMode && s.moveMode && CrossesStandalone(s, ch) ==> r == s
    ensures !(s.editMode && s.moveMode && CrossesStandalone(s, ch)) ==> r == Step(s, ch, next, text)
  {
    if s.editMode && s.moveMode then TaskMoveStep(s, ch) else Step(s, ch, next, text)
  }

  /** With head 0 held in place every key keeps head 0 the unnamed head and
      every other head named. */
  lemma CorrectedStepKeepsLayout(s: EditorState<TaskItem>, ch: int, next: int, text: string)
    requires TasksWellFormed(s) && StandaloneLayout(s.heads)
    ensures StandaloneLayout(CorrectedStep(s, ch, next, text).heads)
  {
    if s.editMode && s.moveMode {
      TaskMoveKeepsLayout(s, ch);
    } else {
      StepOutsideMoveKeepsLayout(s, ch, next, text);
    }
  }

  /** Outside move mode every key keeps the layout. */
  lemma StepOutsideMoveKeepsLayout(s: EditorState<TaskItem>, ch: int, next: int, text: string)
    requires TasksWellFormed(s) && StandaloneLayout(s.heads) && !(s.editMode && s.moveMode)
    ensures StandaloneLayout(Step(s, ch, next, text).heads)
  {
    if s.editMode {
      if IsLetter(ch, 'R', 'r') {
        ChordKeepsLayout(s, next, text);
      } else if IsLetter(ch, 'X', 'x') {
        DeleteKeepsLayout(s);
      }
    } else if ch == SPACE && Total(s.heads) > 0 {
      EnsureSelectedSpec(s);
      var e := EnsureSelected(s);
      assert Names(ToggleSelected(e).heads) == Names(s.heads);
    }
  }

  lemma ChordKeepsLayout(s: EditorState<TaskItem>, next: int, text: string)
    requires TasksWellFormed(s) && StandaloneLayout(s.heads)
    ensures StandaloneLayout(ChordR(s, next, text).heads)
  {
    if IsLetter(next, 'U', 'u') {
      AddHeadKeepsLayout(s, text);
    } else if IsLetter(next, 'I', 'i') && CanInsert(s) && text != "" {
      InsertKeepsNames(s, NewTask(s, text));
    }
  }

  /** R+U appends a named head, or nothing: the layout is kept. */
  lemma AddHeadKeepsLayout(s: EditorState<TaskItem>, text: string)
    requires TasksWellFormed(s) && StandaloneLayout(s.heads)
    ensures StandaloneLayout(AddHead(s, text).heads)
  {
    var r := AddHead(s, text);
    assert forall h :: 0 <= h < |s.heads| ==> r.heads[h] == r.heads[..|s.heads|][h];
  }

  /** Inserting an item renames no head. */
  lemma InsertKeepsNames(s: EditorState<TaskItem>, x: TaskItem)
    requires TasksWellFormed(s) && CanInsert(s)
    ensures Names(InsertItem(s, x).heads) == Names(s.heads)
  {
    InsertItemFields(s, x);
  }

  lemma DeleteKeepsLayout(s: EditorState<TaskItem>)
    requires TasksWellFormed(s) && !s.moveMode && StandaloneLayout(s.heads)
    ensures StandaloneLayout(Delete(s).heads)
  {
    if s.selectedTask != -1 {
      assert Names(DeleteItem(s).heads) == Names(s.heads);
    }
  }

  /** X on a head removes it only when it is not head 0: later heads shift
      left, the selection is clamped, and at least one head remains. On head 0
      nothing happens. */
  lemma DeleteHeadKeepsHeadZero(s: EditorState<TaskItem>, next: int, text: string)
    requires TasksWellFormed(s) && s.editMode && !s.moveMode && s.selectedTask == -1
    ensures var r := Step(s, 'x' as int, next, text);
      && |r.heads| >= 1
      && (s.selectedHead == 0 ==> r == s)
      && (s.selectedHead > 0 ==>
            && r.heads == RemoveAt(s.heads, s.selectedHead)
            && r.selectedTask == -1
            && r.selectedHead == (if s.selectedHead < |r.heads| then s.selectedHead else |r.heads| - 1))
  {
  }

  /** Space in normal mode flips completed of the selected task and changes
      nothing else. */
  lemma SpaceTogglesOnlySelected(s: EditorState<TaskItem>, next: int, text: string)
    requires TasksWellFormed(s) && !s.editMode && Total(s.heads) > 0
    ensures var e, r := EnsureSelected(s), Step(s, SPACE, next, text);
      && OnItem(e)
      && r.selectedHead == e.selectedHead && r.selectedTask == e.selectedTask
      && !r.editMode && !r.moveMode
      && |r.heads| == |s.heads|
      && (forall j :: 0 <= j < |s.heads| && j != e.selectedHead ==> r.heads[j] == s.heads[j])
      && r.heads[e.selectedHead].name == s.heads[e.selectedHead].name
      && |r.heads[e.selectedHead].tasks| == |s.heads[e.selectedHead].tasks|
      && (forall k :: 0 <= k < |s.heads[e.selectedHead].tasks| && k != e.selectedTask ==>
            r.heads[e.selectedHead].tasks[k] == s.heads[e.selectedHead].tasks[k])
      && var x, y := s.heads[e.selectedHead].tasks[e.selectedTask], r.heads[e.selectedHead].tasks[e.selectedTask];
         y == x.(completed := !x.completed)
  {
    EnsureSelectedSpec(s);
  }

  /** R+I puts a task with id count + 1 that is not completed after the
      selection, selects it, and leaves move mode off; X then gives back the
      original tasks. */
  lemma InsertThenDeleteTask(s: EditorState<TaskItem>, text: string)
    requires TasksWellFormed(s) && s.editMode && !s.moveMode
    requires CanInsert(s) && text != ""
    ensures var i := Step(s, 'r' as int, 'i' as int, text);
      && OnItem(i) && i.editMode && !i.moveMode
      && i.selectedHead == s.selectedHead && i.selectedTask == InsertPos(s)
      && i.heads[i.selectedHead].tasks[i.selectedTask] == TaskItem(|s.heads[s.selectedHead].tasks| + 1, text, false)
      && Step(i, 'x' as int, 0, "").heads == s.heads
  {
    InsertThenDeleteRestores(s, NewTask(s, text));
    RIInserts(s, text);
    XDeletesItem(InsertItem(s, NewTask(s, text)));
  }

  /** In edit mode R+I with a description, when the selected head has room,
      inserts the new task after the selection and selects it. */
  lemma RIInserts(s: EditorState<TaskItem>, text: string)
    requires TasksWellFormed(s) && s.editMode && !s.moveMode
    requires CanInsert(s) && text != ""
    ensures Step(s, 'r' as int, 'i' as int, text) == InsertItem(s, NewTask(s, text))
  {
    var ins := InsertItem(s, NewTask(s, text));
    assert !IsLetter('i' as int, 'U', 'u') && IsLetter('i' as int, 'I', 'i');
    assert ChordR(s, 'i' as int, text) == ins;
    assert IsLetter('r' as int, 'R', 'r');
    assert FinishChord(ins) == ins;
  }

  /** In edit mode X on a selected task deletes that task. */
  lemma XDeletesItem(s: EditorState<TaskItem>)
    requires TasksWellFormed(s) && s.editMode && !s.moveMode && OnItem(s)
    ensures Step(s, 'x' as int, 0, "") == DeleteItem(s)
  {
    assert !IsLetter('x' as int, 'R', 'r') && IsLetter('x' as int, 'X', 'x');
    assert Delete(s) == DeleteItem(s);
  }

  /** R+U adds a head only below MAX_HEADS and with a name; either way the
      chord ends with move mode off and an item reselected when one exists. */
  lemma NewHeadChord(s: EditorState<TaskItem>, text: string)
    requires TasksWellFormed(s) && s.editMode && !s.moveMode
    ensures var r := Step(s, 'r' as int, 'u' as int, text);
      && !r.moveMode && r.editMode
      && |r.heads| == (if |s.heads| < MAX_HEADS && text != "" then |s.heads| + 1 else |s.heads|)
      && r.heads[..|s.heads|] == s.heads
      && (Total(s.heads) > 0 ==> OnItem(r))
  {
    var a := AddHead(s, text);
    TotalFlatten(s.heads);
    TotalFlatten(a.heads);
    EnsureSelectedSpec(a.(moveMode := false));
  }

  /** As written, head swaps in move mode carry the unnamed head away from
      index 0: with one standalone task t and an empty head "Work" selected,
      S and KEY_UP put "Work" first and the unnamed head second. */
  lemma UnnamedHeadCanMove()
    ensures var s := EditorState([Head(0, "", [TaskItem(1, "t", false)]), Head(2, "Work", [])], 1, -1, true, true);
      && TasksWellFormed(s) && StandaloneLayout(s.heads)
      && Step(s, KEY_UP, 0, "").heads == [Head(2, "Work", []), Head(0, "", [TaskItem(1, "t", false)])]
      && !StandaloneLayout(Step(s, KEY_UP, 0, "").heads)
  {
    var t := TaskItem(1, "t", false);
    var s: EditorState<TaskItem> := EditorState([Head(0, "", [t]), Head(2, "Work", [])], 1, -1, true, true);
    var swapped := [Head(2, "Work", []), Head(0, "", [t])];
    assert WithinCapacity(s.heads) && SelectionValid(s);
    assert TasksWellFormed(s);
    assert SwapAdjacent(s.heads, 0) == swapped;
    assert MoveUp(s).heads == swapped;
    assert MoveStep(s, KEY_UP) == MoveUp(s);
    assert Step(s, KEY_UP, 0, "") == MoveStep(s, KEY_UP);
    assert swapped[0].name != "";
  }

  /** With head 0 held in place the same key leaves the record as it was. */
  lemma UnnamedHeadStays()
    ensures var s := EditorState([Head(0, "", [TaskItem(1, "t", false)]), Head(2, "Work", [])], 1, -1, true, true);
      && TasksWellFormed(s) && CorrectedStep(s, KEY_UP, 0, "") == s
  {
    var s: EditorState<TaskItem> := EditorState([Head(0, "", [TaskItem(1, "t", false)]), Head(2, "Work", [])], 1, -1, true, true);
    assert WithinCapacity(s.heads) && SelectionValid(s);
    assert CrossesStandalone(s, KEY_UP);
    assert TaskMoveStep(s, KEY_UP) == s;
  }

  /** The handler on the record. */
  method HandleInput(d: ListData<TaskItem>, ch: int, next: int, text: string)
    requires TasksWellFormed(d.State())
    modifies d
    ensures d.State() == Step(old(d.State()), ch, next, text)
  {
    if d.editMode {
      if d.moveMode {
        d.MoveInput(ch);
      } else {
        EditInput(d, ch, next, text);
      }
    } else {
      NormalInput(d, ch, next);
    }
  }

  /** The edit-mode switch of the handler. */
  method EditInput(d: ListData<TaskItem>, ch: int, next: int, text: string)
    requires TasksWellFormed(d.State()) && d.editMode && !d.moveMode
    modifies d
    ensures d.State() == Step(old(d.State()), ch, next, text)
  {
    if IsLetter(ch, 'R', 'r') {
      ChordInput(d, next, text);
    } else if IsLetter(ch, 'X', 'x') {
      DeleteInput(d);
    } else {
      d.EditKey(ch, next);
    }
  }

  /** X in edit mode: the selected named head, or the selected task, shifted out. */
  method DeleteInput(d: ListData<TaskItem>)
    requires TasksWellFormed(d.State()) && !d.moveMode
    modifies d
    ensures d.State() == Delete(old(d.State()))
  {
    if d.selectedTask == -1 {
      if |d.heads| > 0 && d.selectedHead > 0 {
        d.DeleteHeadByMove();
      }
    } else {
      d.DeleteItemByMove();
    }
  }

  /** The R chord on the record: R+U or R+I, then move mode off and an item reselected. */
  method ChordInput(d: ListData<TaskItem>, next: int, text: string)
    requires TasksWellFormed(d.State())
    modifies d
    ensures d.State() == FinishChord(ChordR(old(d.State()), next, text))
  {
    ChordBody(d, next, text);
    d.moveMode := false;
    d.EnsureTaskSelected();
  }

  /** The R+U and R+I bodies on the record. */
  method ChordBody(d: ListData<TaskItem>, next: int, text: string)
    requires TasksWellFormed(d.State())
    modifies d
    ensures d.State() == ChordR(old(d.State()), next, text)
  {
    ghost var s := d.State();
    if IsLetter(next, 'U', 'u') {
      assert ChordR(s, next, text) == AddHead(s, text);
      d.AppendHead(text);
    } else if IsLetter(next, 'I', 'i') && |d.heads[d.selectedHead].tasks| < MAX_TASKS_PER_HEAD && text != "" {
      assert |d.heads| > 0 && CanInsert(s);
      assert ChordR(s, next, text) == InsertItem(s, NewTask(s, text));
      var x := TaskItem(|d.heads[d.selectedHead].tasks| + 1, text, false);
      assert x == NewTask(s, text);
      d.InsertAtSelection(x);
    } else {
      assert ChordR(s, next, text) == s;
    }
  }

  /** The normal-mode branch of the handler: count the items, reselect, act. */
  method NormalInput(d: ListData<TaskItem>, ch: int, next: int)
    requires TasksWellFormed(d.State()) && !d.editMode
    modifies d
    ensures d.State() == Step(old(d.State()), ch, next, "")
  {
    var total := CountTasks(d.heads);
    if total == 0 {
      if IsLetter(ch, 'E', 'e') && IsLetter(next, 'I', 'i') {
        d.editMode := true;
      }
      return;
    }
    EnsureSelectedSpec(d.State());
    d.EnsureTaskSelected();
    if IsLetter(ch, 'E', 'e') {
      if IsLetter(next, 'I', 'i') {
        d.editMode := true;
      }
    } else if ch == KEY_UP || ch == KEY_DOWN {
      d.NormalNavigate(ch);
    } else if ch == SPACE {
      var h, t := d.selectedHead, d.selectedTask;
      var x := d.heads[h].tasks[t];
      d.heads := d.heads[h := d.heads[h].(tasks := d.heads[h].tasks[t := x.(completed := !x.completed)])];
    }
  }
}
