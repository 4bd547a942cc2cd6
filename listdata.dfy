/** The mutable editor record (HabitData, TaskManagerData in structs.h): the
    fields every key handler updates in place, and the handler fragments the
    habit and task editors share. Each method is proved to leave the record in
    the state given by the matching function of Cursor or Editor. */
module Lists {
  import opened Keys
  import opened Store
  import opened Cursor
  import opened Editor

  /** The left-shift loop of the habit editor's deletions: every element
      after p moves one place left, then the count drops by one. */
  method ShiftOutByLoop<U>(s: seq<U>, p: nat) returns (r: seq<U>)
    requires p < |s|
    ensures r == RemoveAt(s, p)
  {
    r := s;
    var i := p;
    while i < |r| - 1
      invariant p <= i <= |r| - 1 && |r| == |s|
      invariant forall j :: 0 <= j < p ==> r[j] == s[j]
      invariant forall j :: p <= j < i ==> r[j] == s[j + 1]
      invariant forall j :: i <= j < |r| ==> r[j] == s[j]
    {
      r := r[i := r[i + 1]];
      i := i + 1;
    }
    r := r[..|r| - 1];
  }

  /** The memmove of the task editor's deletions: the elements after p move
      one place left in one step (the last slot keeps its old value), then
      the count drops by one. */
  method ShiftOutByMove<U>(s: seq<U>, p: nat) returns (r: seq<U>)
    requires p < |s|
    ensures r == RemoveAt(s, p)
  {
    r := s;
    if p < |s| - 1 {
      ShiftLeftRemoves(s, p);
      r := s[..p] + s[p + 1..] + [s[|s| - 1]];
    }
    r := r[..|r| - 1];
  }

  class ListData<T> {
    var heads: seq<Head<T>>
    var selectedHead: int
    var selectedTask: int
    var editMode: bool
    var moveMode: bool

    /** The record as a value. */
    function State(): EditorState<T>
      reads this
    {
      EditorState(heads, selectedHead, selectedTask, editMode, moveMode)
    }

    constructor (s: EditorState<T>)
      ensures State() == s
    {
      heads := s.heads;
      selectedHead := s.selectedHead;
      selectedTask := s.selectedTask;
      editMode := s.editMode;
      moveMode := s.moveMode;
    }

    /** ensure_task_selected, with its scan over the heads. */
    method EnsureTaskSelected()
      requires SelectionValid(State())
      modifies this
      ensures State() == EnsureSelected(old(State()))
    {
      if selectedTask != -1 && |heads| > 0 && |heads[selectedHead].tasks| > 0 {
        return;
      }
      if |heads| == 0 {
        return;
      }
      var i := 0;
      while i < |heads|
        invariant 0 <= i <= |heads|
        invariant State() == old(State())
        invariant FirstNonEmptyFrom(heads, i) == FirstNonEmptyFrom(heads, 0)
      {
        if |heads[i].tasks| > 0 {
          selectedHead := i;
          selectedTask := 0;
          return;
        }
        i := i + 1;
      }
    }

    /** The edit-mode keys both editors handle alike: E then I back to normal
        mode with an item reselected, S into move mode when there is a head,
        the arrows, and ESC. */
    method EditKey(ch: int, next: int)
      requires WellFormed(State()) && editMode && !moveMode
      modifies this
      ensures State() == EditStep(old(State()), ch, next)
    {
      if IsLetter(ch, 'E', 'e') {
        if IsLetter(next, 'I', 'i') {
          editMode := false;
          EnsureTaskSelected();
        }
      } else if IsLetter(ch, 'S', 's') {
        if |heads| > 0 {
          moveMode := true;
        }
      } else if ch == KEY_UP || ch == KEY_DOWN {
        EditNavigate(ch);
      } else if ch == ESC {
        editMode := false;
        moveMode := false;
      }
    }

    /** The move-mode branch of the input handler: swaps with a temporary and
        the transfers across a head boundary. */
    method MoveInput(ch: int)
      requires WellFormed(State()) && moveMode
      modifies this
      ensures State() == MoveStep(old(State()), ch)
    {
      if IsLetter(ch, 'S', 's') || ch == ESC {
        moveMode := false;
      } else if ch == KEY_UP {
        MoveUpInPlace();
      } else if ch == KEY_DOWN {
        MoveDownInPlace();
      }
    }

    method MoveUpInPlace()
      requires WellFormed(State()) && moveMode
      modifies this
      ensures State() == MoveUp(old(State()))
    {
      var h, t := selectedHead, selectedTask;
      if t == -1 {
        if h > 0 {
          var temp := heads[h];
          heads := heads[h := heads[h - 1]];
          heads := heads[h - 1 := temp];
          selectedHead := h - 1;
          assert heads == SwapAdjacent(old(heads), h - 1);
        }
      } else if t > 0 {
        var items := heads[h].tasks;
        var temp := items[t];
        items := items[t := items[t - 1]];
        items := items[t - 1 := temp];
        assert items == SwapAdjacent(heads[h].tasks, t - 1);
        heads := heads[h := heads[h].(tasks := items)];
        selectedTask := t - 1;
      } else if h > 0 {
        if |heads[h - 1].tasks| < MAX_TASKS_PER_HEAD {
          var moving := heads[h].tasks[0];
          heads := heads[h - 1 := heads[h - 1].(tasks := heads[h - 1].tasks + [moving])];
          heads := heads[h := heads[h].(tasks := heads[h].tasks[1..])];
          selectedHead := h - 1;
          selectedTask := |heads[h - 1].tasks| - 1;
          if |heads[h].tasks| == 0 {
            selectedTask := -1;
          }
        }
      }
    }

    method MoveDownInPlace()
      requires WellFormed(State()) && moveMode
      modifies this
      ensures State() == MoveDown(old(State()))
    {
      var h, t := selectedHead, selectedTask;
      if t == -1 {
        if h < |heads| - 1 {
          var temp := heads[h];
          heads := heads[h := heads[h + 1]];
          heads := heads[h + 1 := temp];
          selectedHead := h + 1;
          assert heads == SwapAdjacent(old(heads), h);
        }
      } else if t < |heads[h].tasks| - 1 {
        var items := heads[h].tasks;
        var temp := items[t];
        items := items[t := items[t + 1]];
        items := items[t + 1 := temp];
        assert items == SwapAdjacent(heads[h].tasks, t);
        heads := heads[h := heads[h].(tasks := items)];
        selectedTask := t + 1;
      } else if h < |heads| - 1 {
        if |heads[h + 1].tasks| < MAX_TASKS_PER_HEAD {
          var moving := heads[h].tasks[t];
          heads := heads[h + 1 := heads[h + 1].(tasks := [moving] + heads[h + 1].tasks)];
          heads := heads[h := heads[h].(tasks := heads[h].tasks[..t])];
          selectedHead := h + 1;
          selectedTask := 0;
        }
      }
    }

    /** KEY_UP and KEY_DOWN in edit mode (not moving). */
    method EditNavigate(ch: int)
      requires SelectionValid(State()) && (ch == KEY_UP || ch == KEY_DOWN)
      modifies this
      ensures State() == if ch == KEY_UP then EditUp(old(State())) else EditDown(old(State()))
    {
      if ch == KEY_UP {
        if selectedTask > 0 {
          selectedTask := selectedTask - 1;
        } else if selectedTask == 0 {
          selectedTask := -1;
        } else {
          if selectedHead > 0 {
            selectedHead := selectedHead - 1;
          } else {
            selectedHead := |heads| - 1;
          }
          if |heads| > 0 && |heads[selectedHead].tasks| > 0 {
            selectedTask := |heads[selectedHead].tasks| - 1;
          } else {
            selectedTask := -1;
          }
        }
      } else {
        if selectedTask == -1 {
          if |heads| > 0 && |heads[selectedHead].tasks| > 0 {
            selectedTask := 0;
          } else {
            if selectedHead < |heads| - 1 {
              selectedHead := selectedHead + 1;
            } else {
              selectedHead := 0;
            }
            selectedTask := -1;
          }
        } else if selectedTask < |heads[selectedHead].tasks| - 1 {
          selectedTask := selectedTask + 1;
        } else {
          if selectedHead < |heads| - 1 {
            selectedHead := selectedHead + 1;
          } else {
            selectedHead := 0;
          }
          selectedTask := -1;
        }
      }
    }

    /** KEY_UP and KEY_DOWN in normal mode, once an item is selected: step
        within the head, or scan for the neighbouring head with items and wrap
        around. */
    method NormalNavigate(ch: int)
      requires OnItem(State()) && (ch == KEY_UP || ch == KEY_DOWN)
      modifies this
      ensures State() == if ch == KEY_UP then NormalUp(old(State())) else NormalDown(old(State()))
    {
      if ch == KEY_UP {
        if selectedTask > 0 {
          selectedTask := selectedTask - 1;
        } else {
          var prev := ScanBackward(heads, selectedHead);
          if prev.None? {
            prev := ScanBackward(heads, |heads|);
          }
          if prev.Some? {
            selectedHead := prev.value;
            selectedTask := |heads[prev.value].tasks| - 1;
          }
        }
      } else {
        if selectedTask < |heads[selectedHead].tasks| - 1 {
          selectedTask := selectedTask + 1;
        } else {
          var next := ScanForward(heads, selectedHead + 1);
          if next.None? {
            next := ScanForward(heads, 0);
          }
          if next.Some? {
            selectedHead := next.value;
            selectedTask := 0;
          }
        }
      }
    }

    /** The R+U body: append a named empty head and select it. */
    method AppendHead(name: string)
      requires WellFormed(State())
      modifies this
      ensures State() == AddHead(old(State()), name)
    {
      if |heads| < MAX_HEADS {
        if name != "" {
          heads := heads + [Head(|heads| + 1, name, [])];
          selectedHead := |heads| - 1;
          selectedTask := -1;
        }
      }
    }

    /** The R+I body once the text is confirmed: shift the later items right
        (memmove) and write the new item at the insertion point. */
    method InsertAtSelection(x: T)
      requires WellFormed(State()) && |heads| > 0
      requires |heads[selectedHead].tasks| < MAX_TASKS_PER_HEAD
      modifies this
      ensures State() == InsertItem(old(State()), x)
    {
      var h := selectedHead;
      var pos := if selectedTask == -1 then 0 else selectedTask + 1;
      var items := heads[h].tasks;
      heads := heads[h := heads[h].(tasks := items[..pos] + [x] + items[pos..])];
      selectedTask := pos;
    }

    /** Deleting the selected head with the left-shift loop of the habit editor. */
    method DeleteHeadByLoop()
      requires WellFormed(State()) && !moveMode && selectedTask == -1 && |heads| > 0
      modifies this
      ensures State() == DeleteHead(old(State()))
    {
      heads := ShiftOutByLoop(heads, selectedHead);
      ClampHead();
    }

    /** Deleting the selected head with one memmove of the later heads (task editor). */
    method DeleteHeadByMove()
      requires WellFormed(State()) && !moveMode && selectedTask == -1 && |heads| > 0
      modifies this
      ensures State() == DeleteHead(old(State()))
    {
      heads := ShiftOutByMove(heads, selectedHead);
      ClampHead();
    }

    /** After a head is deleted: clamp the selected head into range. */
    method ClampHead()
      requires selectedTask == -1
      modifies this`selectedHead
      ensures selectedHead == if old(selectedHead) >= |heads| && |heads| > 0 then |heads| - 1
                              else if |heads| == 0 then 0 else old(selectedHead)
    {
      if selectedHead >= |heads| && |heads| > 0 {
        selectedHead := |heads| - 1;
      } else if |heads| == 0 {
        selectedHead := 0;
      }
    }

    /** Deleting the selected item with the left-shift loop of the habit editor. */
    method DeleteItemByLoop()
      requires WellFormed(State()) && OnItem(State())
      modifies this
      ensures State() == DeleteItem(old(State()))
    {
      DeleteItemFields(State());
      var h := selectedHead;
      var items := ShiftOutByLoop(heads[h].tasks, selectedTask);
      heads := heads[h := heads[h].(tasks := items)];
      ClampItem();
    }

    /** Deleting the selected item with one memmove of the later items (task editor). */
    method DeleteItemByMove()
      requires WellFormed(State()) && OnItem(State())
      modifies this
      ensures State() == DeleteItem(old(State()))
    {
      DeleteItemFields(State());
      var h := selectedHead;
      var items := ShiftOutByMove(heads[h].tasks, selectedTask);
      heads := heads[h := heads[h].(tasks := items)];
      ClampItem();
    }

    /** After an item is deleted: clamp the selected item, or select the head once it is empty. */
    method ClampItem()
      requires 0 <= selectedHead < |heads|
      modifies this`selectedTask
      ensures var n := |heads[selectedHead].tasks|;
        selectedTask == if n == 0 then -1 else if old(selectedTask) >= n then n - 1 else old(selectedTask)
    {
      if selectedTask >= |heads[selectedHead].tasks| {
        selectedTask := |heads[selectedHead].tasks| - 1;
      }
      if |heads[selectedHead].tasks| == 0 {
        selectedTask := -1;
      }
    }
  }
}
