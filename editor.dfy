/** The edit-mode and move-mode operations shared by the habit and task
    editors: adjacent swaps, transfers across a head boundary, head and item
    insertion and deletion, and the invariants they keep. */
module Editor {
  import opened Keys
  import opened Store
  import opened Cursor

  // ---------------------------------------------------------------------------
  // Move mode

  /** KEY_UP in move mode: a selected head swaps with the one above it; a
      selected item swaps with the one above it, or from index 0 goes to the
      end of the previous head when that head has room. */
  function MoveUp<T>(s: EditorState<T>): (r: EditorState<T>)
    requires SelectionValid(s) && |s.heads| > 0
    ensures |r.heads| == |s.heads| && r.editMode == s.editMode && r.moveMode == s.moveMode
    ensures SelectionValid(r)
  {
    var h, t := s.selectedHead, s.selectedTask;
    if t == -1 then
      if h > 0 then s.(heads := SwapAdjacent(s.heads, h - 1), selectedHead := h - 1) else s
    else if t > 0 then
      s.(heads := s.heads[h := s.heads[h].(tasks := SwapAdjacent(s.heads[h].tasks, t - 1))],
         selectedTask := t - 1)
    else if h > 0 && |s.heads[h - 1].tasks| < MAX_TASKS_PER_HEAD then
      var prev := s.heads[h - 1].(tasks := s.heads[h - 1].tasks + [s.heads[h].tasks[0]]);
      var cur := s.heads[h].(tasks := s.heads[h].tasks[1..]);
      s.(heads := s.heads[h - 1 := prev][h := cur],
         selectedHead := h - 1,
         selectedTask := if |cur.tasks| == 0 then -1 else |prev.tasks| - 1)
    else s
  }

  /** KEY_DOWN in move mode: a selected head swaps with the one below it; a
      selected item swaps with the one below it, or from the last index goes to
      the front of the next head when that head has room. */
  function MoveDown<T>(s: EditorState<T>): (r: EditorState<T>)
    requires SelectionValid(s) && |s.heads| > 0
    ensures |r.heads| == |s.heads| && r.editMode == s.editMode && r.moveMode == s.moveMode
    ensures SelectionValid(r)
  {
    var h, t := s.selectedHead, s.selectedTask;
    if t == -1 then
      if h < |s.heads| - 1 then s.(heads := SwapAdjacent(s.heads, h), selectedHead := h + 1) else s
    else if t < |s.heads[h].tasks| - 1 then
      s.(heads := s.heads[h := s.heads[h].(tasks := SwapAdjacent(s.heads[h].tasks, t))],
         selectedTask := t + 1)
    else if h < |s.heads| - 1 && |s.heads[h + 1].tasks| < MAX_TASKS_PER_HEAD then
      var cur := s.heads[h].(tasks := s.heads[h].tasks[..t]);
      var next := s.heads[h + 1].(tasks := [s.heads[h].tasks[t]] + s.heads[h + 1].tasks);
      s.(heads := s.heads[h := cur][h + 1 := next], selectedHead := h + 1, selectedTask := 0)
    else s
  }

  /** One key in move mode: s, S and ESC only leave move mode, the arrows move
      and stay in move mode. Every key keeps the invariant, the number of heads
      and the multiset of items. */
  function MoveStep<T>(s: EditorState<T>, ch: int): (r: EditorState<T>)
    requires WellFormed(s) && s.moveMode
    ensures WellFormed(r) && r.editMode
    ensures |r.heads| == |s.heads|
    ensures multiset(Flatten(r.heads)) == multiset(Flatten(s.heads))
    ensures r.moveMode <==> !(IsLetter(ch, 'S', 's') || ch == ESC)
    ensures (IsLetter(ch, 'S', 's') || ch == ESC) ==> r == s.(moveMode := false)
  {
    if IsLetter(ch, 'S', 's') || ch == ESC then s.(moveMode := false)
    else if ch == KEY_UP then MoveUpKeeps(s); MoveUp(s)
    else if ch == KEY_DOWN then MoveDownKeeps(s); MoveDown(s)
    else s
  }

  lemma MoveUpKeeps<T>(s: EditorState<T>)
    requires WellFormed(s) && s.moveMode
    ensures var r := MoveUp(s);
      && WellFormed(r) && |r.heads| == |s.heads| && r.moveMode && r.editMode
      && multiset(Flatten(r.heads)) == multiset(Flatten(s.heads))
  {
    var h, t := s.selectedHead, s.selectedTask;
    if t == -1 {
      if h > 0 {
        SwapKeepsItems(s.heads, h - 1);
      }
    } else if t > 0 {
      ItemSwapKeeps(s, t - 1);
    } else if h > 0 && |s.heads[h - 1].tasks| < MAX_TASKS_PER_HEAD {
      CrossUpKeepsOrder(s);
    }
  }

  lemma MoveDownKeeps<T>(s: EditorState<T>)
    requires WellFormed(s) && s.moveMode
    ensures var r := MoveDown(s);
      && WellFormed(r) && |r.heads| == |s.heads| && r.moveMode && r.editMode
      && multiset(Flatten(r.heads)) == multiset(Flatten(s.heads))
  {
    var h, t := s.selectedHead, s.selectedTask;
    if t == -1 {
      if h < |s.heads| - 1 {
        SwapKeepsItems(s.heads, h);
      }
    } else if t < |s.heads[h].tasks| - 1 {
      ItemSwapKeeps(s, t);
    } else if h < |s.heads| - 1 && |s.heads[h + 1].tasks| < MAX_TASKS_PER_HEAD {
      CrossDownKeepsOrder(s);
    }
  }

  /** Two updates of the same position leave the second, and writing back
      the original element gives the original sequence. */
  lemma UpdateSame<U>(xs: seq<U>, i: nat, a: U, b: U)
    requires i < |xs| && b == xs[i]
    ensures xs[i := a][i := b] == xs
  {
  }

  /** Inserting x into one head, within capacity, keeps the capacity bounds
      and adds exactly x to the multiset of all items. */
  lemma InsertKeepsItems<T>(heads: seq<Head<T>>, h: nat, p: nat, x: T)
    requires WithinCapacity(heads) && h < |heads| && p <= |heads[h].tasks| < MAX_TASKS_PER_HEAD
    ensures var hs := heads[h := heads[h].(tasks := InsertAt(heads[h].tasks, p, x))];
      WithinCapacity(hs) && multiset(Flatten(hs)) == multiset(Flatten(heads)) + multiset{x}
  {
    var hd := heads[h].(tasks := InsertAt(heads[h].tasks, p, x));
    UpdateKeepsCapacity(heads, h, hd);
    FlattenUpdate(heads, h, hd);
    FlattenAround(heads, h);
    var a, c := Flatten(heads[..h]), Flatten(heads[h + 1..]);
    assert multiset(a + hd.tasks + c) == multiset(a) + multiset(hd.tasks) + multiset(c);
    assert multiset(a + heads[h].tasks + c) == multiset(a) + multiset(heads[h].tasks) + multiset(c);
  }

  /** Removing item t from one head keeps the capacity bounds and takes
      exactly that item out of the multiset of all items. */
  lemma RemoveKeepsItems<T>(heads: seq<Head<T>>, h: nat, t: nat)
    requires WithinCapacity(heads) && h < |heads| && t < |heads[h].tasks|
    ensures var hs := heads[h := heads[h].(tasks := RemoveAt(heads[h].tasks, t))];
      WithinCapacity(hs) && multiset(Flatten(hs)) + multiset{heads[h].tasks[t]} == multiset(Flatten(heads))
  {
    var hd := heads[h].(tasks := RemoveAt(heads[h].tasks, t));
    UpdateKeepsCapacity(heads, h, hd);
    FlattenUpdate(heads, h, hd);
    FlattenAround(heads, h);
    var a, c := Flatten(heads[..h]), Flatten(heads[h + 1..]);
    assert multiset(a + hd.tasks + c) == multiset(a) + multiset(hd.tasks) + multiset(c);
    assert multiset(a + heads[h].tasks + c) == multiset(a) + multiset(heads[h].tasks) + multiset(c);
  }

  /** Replacing one head by one holding no more than MAX_TASKS_PER_HEAD items keeps the capacity bounds. */
  lemma UpdateKeepsCapacity<T>(heads: seq<Head<T>>, h: nat, hd: Head<T>)
    requires WithinCapacity(heads) && h < |heads| && |hd.tasks| <= MAX_TASKS_PER_HEAD
    ensures WithinCapacity(heads[h := hd])
  {
  }

  /** Swapping two neighbouring items of the selected head keeps the invariant
      and the multiset of all items. */
  lemma ItemSwapKeeps<T>(s: EditorState<T>, i: nat)
    requires WellFormed(s) && |s.heads| > 0 && i + 1 < |s.heads[s.selectedHead].tasks|
    ensures var h := s.selectedHead;
      var hs := s.heads[h := s.heads[h].(tasks := SwapAdjacent(s.heads[h].tasks, i))];
      && WithinCapacity(hs)
      && multiset(Flatten(hs)) == multiset(Flatten(s.heads))
  {
    var h := s.selectedHead;
    var hd := s.heads[h].(tasks := SwapAdjacent(s.heads[h].tasks, i));
    UpdateKeepsCapacity(s.heads, h, hd);
    FlattenUpdate(s.heads, h, hd);
    FlattenAround(s.heads, h);
  }

  /** Swapping two neighbouring heads keeps every head's items and the multiset of all items. */
  lemma SwapKeepsItems<T>(heads: seq<Head<T>>, h: nat)
    requires h + 1 < |heads|
    ensures multiset(Flatten(SwapAdjacent(heads, h))) == multiset(Flatten(heads))
  {
    var sw := SwapAdjacent(heads, h);
    assert sw == heads[h := heads[h + 1]][h + 1 := heads[h]];
    FlattenPair(heads, h, heads[h + 1], heads[h]);
  }

  /** Moving the first item of a head up to the end of the previous head, which
      has room: the item lands last in the previous head, the source loses its
      first item, the flattened order of all items is unchanged, and the
      selection follows the item unless the source head empties, in which case
      the previous head itself is selected. */
  lemma CrossUpKeepsOrder<T>(s: EditorState<T>)
    requires WellFormed(s) && s.moveMode
    requires s.selectedTask == 0 && s.selectedHead > 0
    requires |s.heads[s.selectedHead - 1].tasks| < MAX_TASKS_PER_HEAD
    ensures var h, r := s.selectedHead, MoveUp(s);
      && |r.heads| == |s.heads|
      && r.heads[h - 1] == s.heads[h - 1].(tasks := s.heads[h - 1].tasks + [s.heads[h].tasks[0]])
      && r.heads[h] == s.heads[h].(tasks := s.heads[h].tasks[1..])
      && (forall j :: 0 <= j < |s.heads| && j != h - 1 && j != h ==> r.heads[j] == s.heads[j])
      && Flatten(r.heads) == Flatten(s.heads)
      && r.selectedHead == h - 1
      && r.selectedTask == (if |s.heads[h].tasks| == 1 then -1 else |s.heads[h - 1].tasks|)
      && WellFormed(r) && r.moveMode
  {
    var h := s.selectedHead;
    var cur := s.heads[h].tasks;
    var prev := s.heads[h - 1].(tasks := s.heads[h - 1].tasks + [cur[0]]);
    var next := s.heads[h].(tasks := cur[1..]);
    var hs := s.heads[h - 1 := prev][h := next];
    var r := s.(heads := hs, selectedHead := h - 1,
                selectedTask := if |next.tasks| == 0 then -1 else |prev.tasks| - 1);
    CrossUpShape(s);
    assert cur == [cur[0]] + cur[1..];
    PairTransferKeeps(s.heads, h - 1, prev, next);
    assert hs[h - 1] == prev;
    assert SelectionValid(r);
  }

  /** The arrows' item transfer upwards, as an update of two heads. */
  lemma CrossUpShape<T>(s: EditorState<T>)
    requires WellFormed(s) && s.moveMode
    requires s.selectedTask == 0 && s.selectedHead > 0
    requires |s.heads[s.selectedHead - 1].tasks| < MAX_TASKS_PER_HEAD
    ensures var h := s.selectedHead;
      var cur := s.heads[h].tasks;
      var prev := s.heads[h - 1].(tasks := s.heads[h - 1].tasks + [cur[0]]);
      var next := s.heads[h].(tasks := cur[1..]);
      MoveUp(s) == s.(heads := s.heads[h - 1 := prev][h := next], selectedHead := h - 1,
                      selectedTask := if |next.tasks| == 0 then -1 else |prev.tasks| - 1)
  {
  }

  /** Two neighbouring heads that trade items without changing their joint
      order, each within capacity, keep the capacity bounds and the flattened
      sequence, and leave every other head alone. */
  lemma PairTransferKeeps<T>(heads: seq<Head<T>>, h: nat, a: Head<T>, b: Head<T>)
    requires WithinCapacity(heads) && h + 1 < |heads|
    requires |a.tasks| <= MAX_TASKS_PER_HEAD && |b.tasks| <= MAX_TASKS_PER_HEAD
    requires a.tasks + b.tasks == heads[h].tasks + heads[h + 1].tasks
    ensures var hs := heads[h := a][h + 1 := b];
      && |hs| == |heads| && hs[h] == a && hs[h + 1] == b
      && (forall j :: 0 <= j < |heads| && j != h && j != h + 1 ==> hs[j] == heads[j])
      && WithinCapacity(hs) && Flatten(hs) == Flatten(heads)
  {
    UpdateKeepsCapacity(heads, h, a);
    UpdateKeepsCapacity(heads[h := a], h + 1, b);
    FlattenPair(heads, h, a, b);
    assert Flatten(heads[..h]) + a.tasks + b.tasks == Flatten(heads[..h]) + (a.tasks + b.tasks);
    assert Flatten(heads[..h]) + heads[h].tasks + heads[h + 1].tasks
        == Flatten(heads[..h]) + (heads[h].tasks + heads[h + 1].tasks);
  }

  /** Moving the last item of a head down to the front of the next head, which
      has room: the item lands first in the next head, the flattened order of
      all items is unchanged and the selection follows the item. */
  lemma CrossDownKeepsOrder<T>(s: EditorState<T>)
    requires WellFormed(s) && s.moveMode
    requires 0 <= s.selectedHead < |s.heads| - 1
    requires s.selectedTask == |s.heads[s.selectedHead].tasks| - 1 >= 0
    requires |s.heads[s.selectedHead + 1].tasks| < MAX_TASKS_PER_HEAD
    ensures var h, r := s.selectedHead, MoveDown(s);
      && |r.heads| == |s.heads|
      && r.heads[h + 1] == s.heads[h + 1].(tasks := [s.heads[h].tasks[s.selectedTask]] + s.heads[h + 1].tasks)
      && r.heads[h] == s.heads[h].(tasks := s.heads[h].tasks[..s.selectedTask])
      && (forall j :: 0 <= j < |s.heads| && j != h && j != h + 1 ==> r.heads[j] == s.heads[j])
      && Flatten(r.heads) == Flatten(s.heads)
      && r.selectedHead == h + 1 && r.selectedTask == 0
      && WellFormed(r) && r.moveMode
  {
    var h, t := s.selectedHead, s.selectedTask;
    var cur := s.heads[h].tasks;
    var a := s.heads[h].(tasks := cur[..t]);
    var b := s.heads[h + 1].(tasks := [cur[t]] + s.heads[h + 1].tasks);
    var hs := s.heads[h := a][h + 1 := b];
    var r := s.(heads := hs, selectedHead := h + 1, selectedTask := 0);
    CrossDownShape(s);
    assert cur == cur[..t] + [cur[t]];
    PairTransferKeeps(s.heads, h, a, b);
    assert hs[h + 1] == b;
    assert SelectionValid(r);
  }

  /** The arrows' item transfer downwards, as an update of two heads. */
  lemma CrossDownShape<T>(s: EditorState<T>)
    requires WellFormed(s) && s.moveMode
    requires 0 <= s.selectedHead < |s.heads| - 1
    requires s.selectedTask == |s.heads[s.selectedHead].tasks| - 1 >= 0
    requires |s.heads[s.selectedHead + 1].tasks| < MAX_TASKS_PER_HEAD
    ensures var h, t := s.selectedHead, s.selectedTask;
      var cur := s.heads[h].tasks;
      MoveDown(s) == s.(heads := s.heads[h := s.heads[h].(tasks := cur[..t])]
                                         [h + 1 := s.heads[h + 1].(tasks := [cur[t]] + s.heads[h + 1].tasks)],
                        selectedHead := h + 1, selectedTask := 0)
  {
  }

  /** Nothing moves across a boundary into a head that already holds MAX_TASKS_PER_HEAD items. */
  lemma CrossIntoFullHeadStays<T>(s: EditorState<T>)
    requires WellFormed(s) && s.moveMode && OnItem(s)
    ensures (s.selectedTask == 0 && s.selectedHead > 0
             && |s.heads[s.selectedHead - 1].tasks| == MAX_TASKS_PER_HEAD) ==> MoveStep(s, KEY_UP) == s
    ensures (s.selectedTask == |s.heads[s.selectedHead].tasks| - 1 && s.selectedHead < |s.heads| - 1
             && |s.heads[s.selectedHead + 1].tasks| == MAX_TASKS_PER_HEAD) ==> MoveStep(s, KEY_DOWN) == s
  {
  }

  /** Within one head, moving an item down and then up restores the items and the selection. */
  lemma MoveDownThenUpRestores<T>(s: EditorState<T>)
    requires WellFormed(s) && s.moveMode
    requires OnItem(s) && s.selectedTask < |s.heads[s.selectedHead].tasks| - 1
    ensures MoveStep(MoveStep(s, KEY_DOWN), KEY_UP) == s
  {
    MoveStepArrows(s);
    MoveDownKeeps(s);
    MoveStepArrows(MoveDown(s));
    ItemDownThenUp(s);
  }

  /** MoveDownThenUpRestores on MoveUp and MoveDown themselves. */
  lemma ItemDownThenUp<T>(s: EditorState<T>)
    requires OnItem(s) && s.selectedTask < |s.heads[s.selectedHead].tasks| - 1
    ensures MoveUp(MoveDown(s)) == s
  {
    ItemDownShape(s);
    ItemUpShape(MoveDown(s));
    SwapBackHeads(s.heads, s.selectedHead, s.selectedTask);
  }

  /** Swapping the same two items of one head twice gives the heads back. */
  lemma SwapBackHeads<T>(heads: seq<Head<T>>, h: nat, t: nat)
    requires h < |heads| && t + 1 < |heads[h].tasks|
    ensures var hs := heads[h := heads[h].(tasks := SwapAdjacent(heads[h].tasks, t))];
      hs[h := hs[h].(tasks := SwapAdjacent(hs[h].tasks, t))] == heads
  {
    var sw := SwapAdjacent(heads[h].tasks, t);
    var hs := heads[h := heads[h].(tasks := sw)];
    SwapTwice(heads[h].tasks, t);
    assert hs[h].(tasks := SwapAdjacent(hs[h].tasks, t)) == heads[h];
    UpdateSame(heads, h, heads[h].(tasks := sw), heads[h]);
  }

  /** Down on an item that is not the last of its head swaps it with the next one. */
  lemma ItemDownShape<T>(s: EditorState<T>)
    requires OnItem(s) && s.selectedTask < |s.heads[s.selectedHead].tasks| - 1
    ensures var h, t := s.selectedHead, s.selectedTask;
      && MoveDown(s) == s.(heads := s.heads[h := s.heads[h].(tasks := SwapAdjacent(s.heads[h].tasks, t))],
                           selectedTask := t + 1)
      && OnItem(MoveDown(s)) && MoveDown(s).selectedTask > 0
  {
  }

  /** Up on an item that is not the first of its head swaps it with the previous one. */
  lemma ItemUpShape<T>(s: EditorState<T>)
    requires OnItem(s) && s.selectedTask > 0
    ensures var h, t := s.selectedHead, s.selectedTask;
      MoveUp(s) == s.(heads := s.heads[h := s.heads[h].(tasks := SwapAdjacent(s.heads[h].tasks, t - 1))],
                      selectedTask := t - 1)
  {
  }

  /** Moving the first item of a head up and then down again restores the
      items and the selection, provided the item's head keeps other items. */
  lemma CrossUpThenDownRestores<T>(s: EditorState<T>)
    requires WellFormed(s) && s.moveMode
    requires s.selectedTask == 0 && s.selectedHead > 0
    requires |s.heads[s.selectedHead - 1].tasks| < MAX_TASKS_PER_HEAD
    requires |s.heads[s.selectedHead].tasks| > 1
    ensures MoveStep(MoveStep(s, KEY_UP), KEY_DOWN) == s
  {
    var u := MoveUp(s);
    CrossUpKeepsOrder(s);
    MoveStepArrows(s);
    CrossBackRestores(s, u);
    MoveStepArrows(u);
  }

  /** The arrows in move mode are MoveUp and MoveDown. */
  lemma MoveStepArrows<T>(s: EditorState<T>)
    requires WellFormed(s) && s.moveMode
    ensures MoveStep(s, KEY_UP) == MoveUp(s) && MoveStep(s, KEY_DOWN) == MoveDown(s)
  {
    MoveStepUp(s);
    MoveStepDown(s);
  }

  lemma MoveStepUp<T>(s: EditorState<T>)
    requires WellFormed(s) && s.moveMode
    ensures MoveStep(s, KEY_UP) == MoveUp(s)
  {
    assert !IsLetter(KEY_UP, 'S', 's') && KEY_UP != ESC;
  }

  lemma MoveStepDown<T>(s: EditorState<T>)
    requires WellFormed(s) && s.moveMode
    ensures MoveStep(s, KEY_DOWN) == MoveDown(s)
  {
    assert !IsLetter(KEY_DOWN, 'S', 's') && KEY_DOWN != ESC && KEY_DOWN != KEY_UP;
  }

  /** The second half of CrossUpThenDownRestores: the item that went up as the
      last of head h - 1 comes back to the front of head h. */
  lemma CrossBackRestores<T>(s: EditorState<T>, u: EditorState<T>)
    requires WellFormed(s) && s.moveMode
    requires s.selectedTask == 0 && 0 < s.selectedHead < |s.heads|
    requires |s.heads[s.selectedHead].tasks| > 1
    requires var h := s.selectedHead;
      && |u.heads| == |s.heads| && WellFormed(u)
      && u == s.(heads := u.heads, selectedHead := h - 1, selectedTask := |s.heads[h - 1].tasks|)
      && u.heads[h - 1] == s.heads[h - 1].(tasks := s.heads[h - 1].tasks + [s.heads[h].tasks[0]])
      && u.heads[h] == s.heads[h].(tasks := s.heads[h].tasks[1..])
      && (forall j :: 0 <= j < |s.heads| && j != h - 1 && j != h ==> u.heads[j] == s.heads[j])
    ensures MoveDown(u) == s
  {
    var h := s.selectedHead;
    var p := s.heads[h - 1].tasks;
    var c := s.heads[h].tasks;
    var back := MoveDown(u);
    CrossDownKeepsOrder(u);
    assert (p + [c[0]])[..|p|] == p && (p + [c[0]])[|p|] == c[0];
    assert back.heads[h - 1] == s.heads[h - 1];
    assert [c[0]] + c[1..] == c;
    assert back.heads[h] == s.heads[h];
    assert back.heads == s.heads;
  }

  /** With a head selected, moving it up and then down restores the head order and the selection. */
  lemma HeadUpThenDownRestores<T>(s: EditorState<T>)
    requires WellFormed(s) && s.moveMode
    requires s.selectedTask == -1 && s.selectedHead > 0
    ensures MoveStep(MoveStep(s, KEY_UP), KEY_DOWN) == s
  {
    var h := s.selectedHead;
    var u := s.(heads := SwapAdjacent(s.heads, h - 1), selectedHead := h - 1);
    MoveStepArrows(s);
    assert MoveUp(s) == u;
    MoveStepArrows(u);
    SwapTwice(s.heads, h - 1);
    assert MoveDown(u) == s;
  }

  /** With a head selected, moving it down and then up restores the head order and the selection. */
  lemma HeadDownThenUpRestores<T>(s: EditorState<T>)
    requires WellFormed(s) && s.moveMode
    requires s.selectedTask == -1 && s.selectedHead < |s.heads| - 1
    ensures MoveStep(MoveStep(s, KEY_DOWN), KEY_UP) == s
  {
    var h := s.selectedHead;
    var d := s.(heads := SwapAdjacent(s.heads, h), selectedHead := h + 1);
    MoveStepArrows(s);
    assert MoveDown(s) == d;
    MoveStepArrows(d);
    SwapTwice(s.heads, h);
    assert MoveUp(d) == s;
  }

  /** A head at either end does not move past it. */
  lemma HeadAtEndStays<T>(s: EditorState<T>)
    requires WellFormed(s) && s.moveMode && s.selectedTask == -1
    ensures s.selectedHead == 0 ==> MoveStep(s, KEY_UP) == s
    ensures s.selectedHead == |s.heads| - 1 ==> MoveStep(s, KEY_DOWN) == s
  {
  }

  // ---------------------------------------------------------------------------
  // Edit mode: new heads, new items, deletion

  /** R+U with a confirmed name: a new empty head goes after the others, with
      id head_count + 1, and becomes the selection. Nothing happens with
      MAX_HEADS heads or an empty name. */
  function AddHead<T>(s: EditorState<T>, name: string): (r: EditorState<T>)
    requires WellFormed(s)
    ensures WellFormed(r)
    ensures Flatten(r.heads) == Flatten(s.heads)
    ensures |s.heads| <= |r.heads| && r.heads[..|s.heads|] == s.heads
    ensures (|s.heads| < MAX_HEADS && name != "") ==>
              && |r.heads| == |s.heads| + 1
              && r.heads[|s.heads|] == Head(|s.heads| + 1, name, [])
              && r.selectedHead == |s.heads| && r.selectedTask == -1
    ensures !(|s.heads| < MAX_HEADS && name != "") ==> r == s
  {
    if |s.heads| < MAX_HEADS && name != "" then
      var added: Head<T> := Head(|s.heads| + 1, name, []);
      var hs := s.heads + [added];
      FlattenAppend(s.heads, [added]);
      assert Flatten([added]) == [];
      s.(heads := hs, selectedHead := |s.heads|, selectedTask := -1)
    else s
  }

  /** Where R+I puts the new item: first when the head itself is selected,
      otherwise just after the selected item. */
  function InsertPos<T>(s: EditorState<T>): (p: nat)
    requires SelectionValid(s) && |s.heads| > 0
    ensures p <= |s.heads[s.selectedHead].tasks|
  {
    if s.selectedTask == -1 then 0 else s.selectedTask + 1
  }

  /** R+I with a confirmed text: x goes into the selected head at InsertPos,
      later items shift right, and x becomes the selection. */
  function InsertItem<T>(s: EditorState<T>, x: T): (r: EditorState<T>)
    requires WellFormed(s) && |s.heads| > 0
    requires |s.heads[s.selectedHead].tasks| < MAX_TASKS_PER_HEAD
    ensures WellFormed(r) && OnItem(r)
    ensures r.selectedHead == s.selectedHead && r.selectedTask == InsertPos(s)
    ensures r.heads[r.selectedHead].tasks[r.selectedTask] == x
    ensures |r.heads| == |s.heads|
    ensures forall j :: 0 <= j < |s.heads| && j != s.selectedHead ==> r.heads[j] == s.heads[j]
    ensures multiset(Flatten(r.heads)) == multiset(Flatten(s.heads)) + multiset{x}
  {
    var h := s.selectedHead;
    var hd := s.heads[h].(tasks := InsertAt(s.heads[h].tasks, InsertPos(s), x));
    InsertKeepsItems(s.heads, h, InsertPos(s), x);
    s.(heads := s.heads[h := hd], selectedTask := InsertPos(s))
  }

  /** D (habits) or X (tasks) on an item: the item goes, later items shift
      left, and the selection stays at the same index, falls back to the new
      last item, or to the head once the head is empty. */
  function DeleteItem<T>(s: EditorState<T>): (r: EditorState<T>)
    requires WellFormed(s) && OnItem(s)
    ensures WellFormed(r)
    ensures |r.heads| == |s.heads| && r.selectedHead == s.selectedHead
    ensures forall j :: 0 <= j < |s.heads| && j != s.selectedHead ==> r.heads[j] == s.heads[j]
    ensures r.heads[r.selectedHead].tasks == RemoveAt(s.heads[s.selectedHead].tasks, s.selectedTask)
    ensures multiset(Flatten(r.heads)) + multiset{s.heads[s.selectedHead].tasks[s.selectedTask]}
            == multiset(Flatten(s.heads))
    ensures r.selectedTask == -1 <==> |s.heads[s.selectedHead].tasks| == 1
  {
    var h, t := s.selectedHead, s.selectedTask;
    var rest := RemoveAt(s.heads[h].tasks, t);
    var hd := s.heads[h].(tasks := rest);
    RemoveKeepsItems(s.heads, h, t);
    var nt := if t >= |rest| then |rest| - 1 else t;
    s.(heads := s.heads[h := hd], selectedTask := if |rest| == 0 then -1 else nt)
  }

  /** DeleteItem field by field, as the in-place deletions build it. */
  lemma DeleteItemFields<T>(s: EditorState<T>)
    requires WellFormed(s) && OnItem(s)
    ensures var h := s.selectedHead;
      var rest := RemoveAt(s.heads[h].tasks, s.selectedTask);
      DeleteItem(s) == s.(heads := s.heads[h := s.heads[h].(tasks := rest)],
                          selectedTask := if |rest| == 0 then -1 else if s.selectedTask >= |rest| then |rest| - 1 else s.selectedTask)
  {
  }

  /** Deleting the item just inserted gives back the original items; the
      selection is back where it was unless an item followed the insertion
      point, in which case that item is selected. */
  lemma {:induction false} InsertThenDeleteRestores<T>(s: EditorState<T>, x: T)
    requires WellFormed(s) && |s.heads| > 0
    requires |s.heads[s.selectedHead].tasks| < MAX_TASKS_PER_HEAD
    ensures var r := DeleteItem(InsertItem(s, x));
      && r.heads == s.heads
      && r.selectedHead == s.selectedHead
      && r.selectedTask == (if InsertPos(s) < |s.heads[s.selectedHead].tasks| then InsertPos(s) else s.selectedTask)
  {
    var h := s.selectedHead;
    var i := InsertItem(s, x);
    InsertItemFields(s, x);
    DeleteItemFields(i);
    RemoveInsert(s.heads[h].tasks, InsertPos(s), x);
    UpdateSame(s.heads, h, i.heads[h], s.heads[h]);
  }

  /** InsertItem field by field. */
  lemma InsertItemFields<T>(s: EditorState<T>, x: T)
    requires WellFormed(s) && |s.heads| > 0
    requires |s.heads[s.selectedHead].tasks| < MAX_TASKS_PER_HEAD
    ensures var h := s.selectedHead;
      InsertItem(s, x) == s.(heads := s.heads[h := s.heads[h].(tasks := InsertAt(s.heads[h].tasks, InsertPos(s), x))],
                             selectedTask := InsertPos(s))
  {
  }

  /** D or X on a head: the head and its items go, later heads shift left,
      and the selection is clamped to the new last head (0 when none is left). */
  function DeleteHead<T>(s: EditorState<T>): (r: EditorState<T>)
    requires WellFormed(s) && !s.moveMode && s.selectedTask == -1 && |s.heads| > 0
    ensures WellFormed(r)
    ensures r.heads == RemoveAt(s.heads, s.selectedHead)
    ensures r.selectedTask == -1
    ensures |r.heads| > 0 ==> r.selectedHead == if s.selectedHead < |r.heads| then s.selectedHead else |r.heads| - 1
    ensures multiset(Flatten(r.heads)) + multiset(s.heads[s.selectedHead].tasks) == multiset(Flatten(s.heads))
  {
    var h := s.selectedHead;
    var hs := RemoveAt(s.heads, h);
    RemoveHeadKeeps(s.heads, h);
    var nh := if h >= |hs| && |hs| > 0 then |hs| - 1 else if |hs| == 0 then 0 else h;
    s.(heads := hs, selectedHead := nh)
  }

  /** Removing a head keeps the capacity bounds and takes exactly its items
      out of the multiset of all items. */
  lemma RemoveHeadKeeps<T>(heads: seq<Head<T>>, h: nat)
    requires WithinCapacity(heads) && h < |heads|
    ensures WithinCapacity(RemoveAt(heads, h))
    ensures multiset(Flatten(RemoveAt(heads, h))) + multiset(heads[h].tasks) == multiset(Flatten(heads))
  {
    assert RemoveAt(heads, h) == heads[..h] + heads[h + 1..];
    FlattenAppend(heads[..h], heads[h + 1..]);
    FlattenAround(heads, h);
  }

  /** Deleting the head just added gives back the original heads. */
  lemma AddThenDeleteHeadRestores<T>(s: EditorState<T>, name: string)
    requires WellFormed(s) && !s.moveMode && |s.heads| < MAX_HEADS && name != ""
    ensures DeleteHead(AddHead(s, name)).heads == s.heads
  {
    var a := AddHead(s, name);
    assert RemoveAt(a.heads, |s.heads|) == a.heads[..|s.heads|];
  }

  /** S in edit mode: move mode starts only when there is a head. */
  function StartMove<T>(s: EditorState<T>): (r: EditorState<T>)
    requires WellFormed(s) && s.editMode
    ensures WellFormed(r) && r.heads == s.heads
    ensures r.moveMode <==> |s.heads| > 0
  {
    if |s.heads| > 0 then s.(moveMode := true) else s
  }

  // ---------------------------------------------------------------------------
  // Keys both editors handle alike

  /** Normal-mode keys other than Space: with no items only E+I does anything;
      otherwise the selection is first moved onto an item, then E+I enters
      edit mode and the arrows walk the items. */
  function NormalStep<T>(s: EditorState<T>, ch: int, next: int): (r: EditorState<T>)
    requires WellFormed(s) && !s.editMode
    ensures WellFormed(r) && r.heads == s.heads && !r.moveMode
    ensures r.editMode <==> IsLetter(ch, 'E', 'e') && IsLetter(next, 'I', 'i')
    ensures Total(s.heads) == 0 ==> r == s.(editMode := r.editMode)
    ensures Total(s.heads) > 0 ==> OnItem(r)
  {
    if Total(s.heads) == 0 then
      if IsLetter(ch, 'E', 'e') && IsLetter(next, 'I', 'i') then s.(editMode := true) else s
    else
      EnsureSelectedSpec(s);
      var e := EnsureSelected(s);
      if IsLetter(ch, 'E', 'e') then
        if IsLetter(next, 'I', 'i') then e.(editMode := true) else e
      else if ch == KEY_UP then NormalUpRotates(e); NormalUp(e)
      else if ch == KEY_DOWN then NormalDownRotates(e); NormalDown(e)
      else e
  }

  /** Edit-mode keys other than the R chord and delete: E+I leaves edit mode
      and reselects an item, S starts move mode, the arrows walk heads and
      items, ESC leaves edit and move mode. */
  function EditStep<T>(s: EditorState<T>, ch: int, next: int): (r: EditorState<T>)
    requires WellFormed(s) && s.editMode && !s.moveMode
    ensures WellFormed(r) && r.heads == s.heads
    ensures r.moveMode ==> r.editMode && IsLetter(ch, 'S', 's')
    ensures !r.editMode <==> (IsLetter(ch, 'E', 'e') && IsLetter(next, 'I', 'i')) || ch == ESC
  {
    if IsLetter(ch, 'E', 'e') then
      if IsLetter(next, 'I', 'i') then EnsureSelectedSpec(s); EnsureSelected(s.(editMode := false)) else s
    else if IsLetter(ch, 'S', 's') then StartMove(s)
    else if ch == KEY_UP then EditUpKeeps(s); EditUp(s)
    else if ch == KEY_DOWN then EditDownKeeps(s); EditDown(s)
    else if ch == ESC then s.(editMode := false, moveMode := false)
    else s
  }

  /** Edit-mode arrows keep a valid selection even with no heads. */
  lemma EditUpKeeps<T>(s: EditorState<T>)
    requires SelectionValid(s)
    ensures SelectionValid(EditUp(s)) && EditUp(s).heads == s.heads
  {
    if |s.heads| > 0 {
      EditUpRotates(s);
    }
  }

  lemma EditDownKeeps<T>(s: EditorState<T>)
    requires SelectionValid(s)
    ensures SelectionValid(EditDown(s)) && EditDown(s).heads == s.heads
  {
    if |s.heads| > 0 {
      EditDownRotates(s);
    }
  }

  /** The end of every R chord: move mode is cleared and an item is reselected. */
  function FinishChord<T>(s: EditorState<T>): (r: EditorState<T>)
    requires WellFormed(s)
    ensures WellFormed(r) && r.heads == s.heads && !r.moveMode && r.editMode == s.editMode
    ensures OnItem(s) ==> r == s.(moveMode := false)
  {
    EnsureSelectedSpec(s.(moveMode := false));
    EnsureSelected(s.(moveMode := false))
  }
}
