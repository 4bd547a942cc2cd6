/** The selection cursor over the two-level collection: a (head, item) pair in
    which item -1 means "the head itself", the repair run after mutations, and
    the two traversal orders (items only in normal mode, heads and items in
    edit mode). */
module Cursor {
  import opened Store

  /** The state shared by HabitData and TaskManagerData (structs.h): the live
      heads, the selection pair and the two mode flags. */
  datatype EditorState<T> = EditorState(
    heads: seq<Head<T>>,
    selectedHead: int,
    selectedTask: int,
    editMode: bool,
    moveMode: bool)

  /** The selection names an existing head and either that head (-1) or one of
      its items. With no heads, only a head selection at -1 or 0 is possible. */
  predicate SelectionValid<T>(s: EditorState<T>) {
    if |s.heads| == 0 then s.selectedTask == -1 && -1 <= s.selectedHead <= 0
    else 0 <= s.selectedHead < |s.heads| && -1 <= s.selectedTask < |s.heads[s.selectedHead].tasks|
  }

  /** The invariant every key handler keeps. */
  predicate WellFormed<T>(s: EditorState<T>) {
    && WithinCapacity(s.heads)
    && SelectionValid(s)
    && (s.moveMode ==> s.editMode && |s.heads| > 0)
  }

  /** A real item, not a head, is selected. */
  predicate OnItem<T>(s: EditorState<T>) {
    0 <= s.selectedHead < |s.heads| && 0 <= s.selectedTask < |s.heads[s.selectedHead].tasks|
  }

  /** The first head at or after i that has items. */
  function FirstNonEmptyFrom<T>(heads: seq<Head<T>>, i: nat): (r: Option<nat>)
    ensures r.Some? ==> i <= r.value < |heads| && |heads[r.value].tasks| > 0
    ensures r.Some? ==> forall j :: i <= j < r.value ==> |heads[j].tasks| == 0
    ensures r.None? ==> forall j :: i <= j < |heads| ==> |heads[j].tasks| == 0
    decreases |heads| - i
  {
    if i >= |heads| then None
    else if |heads[i].tasks| > 0 then Some(i)
    else FirstNonEmptyFrom(heads, i + 1)
  }

  /** The last head strictly before k that has items. */
  function LastNonEmptyBelow<T>(heads: seq<Head<T>>, k: int): (r: Option<nat>)
    requires k <= |heads|
    ensures r.Some? ==> r.value < k && |heads[r.value].tasks| > 0
    ensures r.Some? ==> forall j :: r.value < j < k ==> |heads[j].tasks| == 0
    ensures r.None? ==> forall j :: 0 <= j < k ==> |heads[j].tasks| == 0
    decreases k
  {
    if k <= 0 then None
    else if |heads[k - 1].tasks| > 0 then Some(k - 1)
    else LastNonEmptyBelow(heads, k - 1)
  }

  /** Offsets do not move across a run of empty heads. */
  lemma {:induction false} OffsetAcrossEmpty<T>(heads: seq<Head<T>>, a: nat, b: nat)
    requires a <= b <= |heads|
    requires forall j :: a <= j < b ==> |heads[j].tasks| == 0
    ensures Offset(heads, a) == Offset(heads, b)
    decreases b - a
  {
    if a < b {
      OffsetAcrossEmpty(heads, a, b - 1);
    }
  }

  /** Each head's items fit below the total: Offset(h) + count(h) <= Total. */
  lemma CountsBelowTotal<T>(heads: seq<Head<T>>)
    ensures forall j :: 0 <= j < |heads| ==> Offset(heads, j) + |heads[j].tasks| <= Total(heads)
  {
    forall j | 0 <= j < |heads|
      ensures Offset(heads, j) + |heads[j].tasks| <= Total(heads)
    {
      OffsetMonotone(heads, j, |heads|);
    }
  }

  /** With items somewhere, a forward scan from head 0 finds a head with items. */
  lemma ForwardScanFinds<T>(heads: seq<Head<T>>)
    requires Total(heads) > 0
    ensures FirstNonEmptyFrom(heads, 0).Some?
  {
    if FirstNonEmptyFrom(heads, 0).None? {
      OffsetAcrossEmpty(heads, 0, |heads|);
    }
  }

  /** With items somewhere, a backward scan from the end finds a head with items. */
  lemma BackwardScanFinds<T>(heads: seq<Head<T>>)
    requires Total(heads) > 0
    ensures LastNonEmptyBelow(heads, |heads|).Some?
  {
    if LastNonEmptyBelow(heads, |heads|).None? {
      OffsetAcrossEmpty(heads, 0, |heads|);
    }
  }

  /** ensure_task_selected: keep a selected item; otherwise select item 0 of the
      first head that has items; with no heads or no items, change nothing. */
  function EnsureSelected<T>(s: EditorState<T>): (r: EditorState<T>)
    requires SelectionValid(s)
    ensures r.heads == s.heads && r.editMode == s.editMode && r.moveMode == s.moveMode && SelectionValid(r)
    ensures OnItem(s) ==> r == s
  {
    if s.selectedTask != -1 && |s.heads| > 0 && |s.heads[s.selectedHead].tasks| > 0 then s
    else if |s.heads| == 0 then s
    else match FirstNonEmptyFrom(s.heads, 0)
      case Some(i) => s.(selectedHead := i, selectedTask := 0)
      case None => s
  }

  /** What ensure_task_selected promises: it only moves the selection, it keeps
      a selected item, it lands on item 0 of the first non-empty head otherwise,
      it does nothing when there are no items, and running it twice is running
      it once. */
  lemma EnsureSelectedSpec<T>(s: EditorState<T>)
    requires SelectionValid(s)
    ensures var r := EnsureSelected(s);
      && r.heads == s.heads && r.editMode == s.editMode && r.moveMode == s.moveMode
      && SelectionValid(r)
      && (OnItem(s) ==> r == s)
      && (Total(s.heads) == 0 ==> r == s)
      && (Total(s.heads) > 0 ==> OnItem(r))
      && (Total(s.heads) > 0 && !OnItem(s) ==>
            r.selectedTask == 0 && forall j :: 0 <= j < r.selectedHead ==> |s.heads[j].tasks| == 0)
      && EnsureSelected(r) == r
  {
    CountsBelowTotal(s.heads);
    if Total(s.heads) > 0 {
      ForwardScanFinds(s.heads);
    }
  }

  // ---------------------------------------------------------------------------
  // Normal mode: items only, wrapping around.

  /** The flattened index of the selected item. */
  function Rank<T>(s: EditorState<T>): int
    requires 0 <= s.selectedHead < |s.heads|
  {
    Offset(s.heads, s.selectedHead) + s.selectedTask
  }

  /** KEY_DOWN in normal mode, on a selected item. */
  function NormalDown<T>(s: EditorState<T>): (r: EditorState<T>)
    requires OnItem(s)
    ensures r.heads == s.heads && r.editMode == s.editMode && r.moveMode == s.moveMode && OnItem(r)
  {
    if s.selectedTask < |s.heads[s.selectedHead].tasks| - 1 then s.(selectedTask := s.selectedTask + 1)
    else match FirstNonEmptyFrom(s.heads, s.selectedHead + 1)
      case Some(n) => s.(selectedHead := n, selectedTask := 0)
      case None =>
        match FirstNonEmptyFrom(s.heads, 0)
        case Some(n) => s.(selectedHead := n, selectedTask := 0)
        case None => s
  }

  /** KEY_UP in normal mode, on a selected item. */
  function NormalUp<T>(s: EditorState<T>): (r: EditorState<T>)
    requires OnItem(s)
    ensures r.heads == s.heads && r.editMode == s.editMode && r.moveMode == s.moveMode && OnItem(r)
  {
    if s.selectedTask > 0 then s.(selectedTask := s.selectedTask - 1)
    else match LastNonEmptyBelow(s.heads, s.selectedHead)
      case Some(p) => s.(selectedHead := p, selectedTask := |s.heads[p].tasks| - 1)
      case None =>
        match LastNonEmptyBelow(s.heads, |s.heads|)
        case Some(p) => s.(selectedHead := p, selectedTask := |s.heads[p].tasks| - 1)
        case None => s
  }

  /** A selected item's flattened index lies below the total. */
  lemma RankBelowTotal<T>(s: EditorState<T>)
    requires OnItem(s)
    ensures 0 <= Rank(s) < Total(s.heads)
  {
    OffsetMonotone(s.heads, s.selectedHead, |s.heads|);
  }

  /** The next position on a ring of m positions. */
  function Succ(i: int, m: int): int {
    if i + 1 == m then 0 else i + 1
  }

  /** The previous position on a ring of m positions. */
  function Pred(i: int, m: int): int {
    if i == 0 then m - 1 else i - 1
  }

  /** Down moves to the next item in flattened order, from the last item to the first. */
  lemma NormalDownRotates<T>(s: EditorState<T>)
    requires OnItem(s)
    ensures var r := NormalDown(s);
      && r.heads == s.heads && r.editMode == s.editMode && r.moveMode == s.moveMode
      && OnItem(r) && Rank(r) == Succ(Rank(s), Total(s.heads))
  {
    RankBelowTotal(s);
    if s.selectedTask < |s.heads[s.selectedHead].tasks| - 1 {
      RankBelowTotal(NormalDown(s));
    } else {
      match FirstNonEmptyFrom(s.heads, s.selectedHead + 1)
      case Some(n) => DownToNext(s, n);
      case None => DownWraps(s);
    }
  }

  /** Down from the last item of a head with a non-empty head below: item 0 of that head. */
  lemma DownToNext<T>(s: EditorState<T>, n: nat)
    requires OnItem(s) && s.selectedTask == |s.heads[s.selectedHead].tasks| - 1
    requires FirstNonEmptyFrom(s.heads, s.selectedHead + 1) == Some(n)
    ensures NormalDown(s) == s.(selectedHead := n, selectedTask := 0)
    ensures OnItem(NormalDown(s)) && Rank(NormalDown(s)) == Rank(s) + 1 < Total(s.heads)
  {
    assert Offset(s.heads, s.selectedHead + 1) == Rank(s) + 1;
    OffsetAcrossEmpty(s.heads, s.selectedHead + 1, n);
    RankBelowTotal(NormalDown(s));
  }

  /** Down from the last item of all: item 0 of the first non-empty head. */
  lemma DownWraps<T>(s: EditorState<T>)
    requires OnItem(s) && s.selectedTask == |s.heads[s.selectedHead].tasks| - 1
    requires FirstNonEmptyFrom(s.heads, s.selectedHead + 1).None?
    ensures FirstNonEmptyFrom(s.heads, 0).Some?
    ensures NormalDown(s) == s.(selectedHead := FirstNonEmptyFrom(s.heads, 0).value, selectedTask := 0)
    ensures OnItem(NormalDown(s)) && Rank(s) + 1 == Total(s.heads) && Rank(NormalDown(s)) == 0
  {
    assert Offset(s.heads, s.selectedHead + 1) == Rank(s) + 1;
    OffsetAcrossEmpty(s.heads, s.selectedHead + 1, |s.heads|);
    ForwardScanFinds(s.heads);
    OffsetAcrossEmpty(s.heads, 0, FirstNonEmptyFrom(s.heads, 0).value);
  }

  /** Up moves to the previous item in flattened order, from the first item to the last. */
  lemma NormalUpRotates<T>(s: EditorState<T>)
    requires OnItem(s)
    ensures var r := NormalUp(s);
      && r.heads == s.heads && r.editMode == s.editMode && r.moveMode == s.moveMode
      && OnItem(r) && Rank(r) == Pred(Rank(s), Total(s.heads))
  {
    RankBelowTotal(s);
    if s.selectedTask == 0 {
      match LastNonEmptyBelow(s.heads, s.selectedHead)
      case Some(p) => UpToPrevious(s, p);
      case None => UpWraps(s);
    }
  }

  /** Up from item 0 with a non-empty head above: the last item of that head. */
  lemma UpToPrevious<T>(s: EditorState<T>, p: nat)
    requires OnItem(s) && s.selectedTask == 0 && LastNonEmptyBelow(s.heads, s.selectedHead) == Some(p)
    ensures NormalUp(s) == s.(selectedHead := p, selectedTask := |s.heads[p].tasks| - 1)
    ensures OnItem(NormalUp(s)) && Rank(s) > 0 && Rank(NormalUp(s)) == Rank(s) - 1
  {
    OffsetAcrossEmpty(s.heads, p + 1, s.selectedHead);
    assert Offset(s.heads, p + 1) == Offset(s.heads, p) + |s.heads[p].tasks|;
  }

  /** Up from the first item of all: the last item of the last non-empty head. */
  lemma UpWraps<T>(s: EditorState<T>)
    requires OnItem(s) && s.selectedTask == 0 && LastNonEmptyBelow(s.heads, s.selectedHead).None?
    ensures LastNonEmptyBelow(s.heads, |s.heads|).Some?
    ensures var p := LastNonEmptyBelow(s.heads, |s.heads|).value;
      NormalUp(s) == s.(selectedHead := p, selectedTask := |s.heads[p].tasks| - 1)
    ensures OnItem(NormalUp(s)) && Rank(s) == 0 && Rank(NormalUp(s)) == Total(s.heads) - 1
  {
    OffsetAcrossEmpty(s.heads, 0, s.selectedHead);
    RankBelowTotal(s);
    BackwardScanFinds(s.heads);
    var p := LastNonEmptyBelow(s.heads, |s.heads|).value;
    OffsetAcrossEmpty(s.heads, p + 1, |s.heads|);
    assert Offset(s.heads, p + 1) == Offset(s.heads, p) + |s.heads[p].tasks|;
  }

  /** Two selected items with the same flattened index are the same item. */
  lemma RankInjective<T>(a: EditorState<T>, b: EditorState<T>)
    requires OnItem(a) && OnItem(b) && a.heads == b.heads
    requires Rank(a) == Rank(b)
    ensures a.selectedHead == b.selectedHead && a.selectedTask == b.selectedTask
  {
    if a.selectedHead < b.selectedHead {
      OffsetMonotone(a.heads, a.selectedHead, b.selectedHead);
    } else if b.selectedHead < a.selectedHead {
      OffsetMonotone(a.heads, b.selectedHead, a.selectedHead);
    }
  }

  /** Pressing KEY_DOWN k times in normal mode. */
  function DownTimes<T>(s: EditorState<T>, k: nat): (r: EditorState<T>)
    requires OnItem(s)
    ensures OnItem(r) && r.heads == s.heads
    decreases k
  {
    NormalDownRotates(s);
    if k == 0 then s else DownTimes(NormalDown(s), k - 1)
  }

  /** k presses of KEY_DOWN (at most one full turn) advance the flattened
      index by k, wrapping past the last item to the first. */
  lemma {:induction false} DownTimesRank<T>(s: EditorState<T>, k: nat)
    requires OnItem(s) && k <= Total(s.heads)
    ensures Rank(DownTimes(s, k)) ==
      if Rank(s) + k < Total(s.heads) then Rank(s) + k else Rank(s) + k - Total(s.heads)
    decreases k
  {
    RankBelowTotal(s);
    if k > 0 {
      NormalDownRotates(s);
      DownTimesRank(NormalDown(s), k - 1);
    }
  }

  /** Normal-mode traversal visits every item: from any selected item, every
      other item is reached after fewer presses of KEY_DOWN than there are
      items, and after exactly that many presses the cursor is back. */
  lemma NormalTraversalCovers<T>(s: EditorState<T>, target: EditorState<T>)
    requires OnItem(s) && OnItem(target) && target.heads == s.heads
    ensures 0 <= Rank(s) < Total(s.heads) && 0 <= Rank(target) < Total(s.heads)
    ensures var k := if Rank(s) <= Rank(target) then Rank(target) - Rank(s)
                     else Rank(target) - Rank(s) + Total(s.heads);
      && k < Total(s.heads)
      && DownTimes(s, k).selectedHead == target.selectedHead
      && DownTimes(s, k).selectedTask == target.selectedTask
    ensures DownTimes(s, Total(s.heads)).selectedHead == s.selectedHead
    ensures DownTimes(s, Total(s.heads)).selectedTask == s.selectedTask
  {
    var m := Total(s.heads);
    RankBelowTotal(s);
    RankBelowTotal(target);
    var k := if Rank(s) <= Rank(target) then Rank(target) - Rank(s) else Rank(target) - Rank(s) + m;
    DownTimesRank(s, k);
    RankInjective(DownTimes(s, k), target);
    DownTimesRank(s, m);
    RankInjective(DownTimes(s, m), s);
  }

  // ---------------------------------------------------------------------------
  // Edit mode (not moving): heads are stops between the items.

  /** KEY_UP in edit mode. */
  function EditUp<T>(s: EditorState<T>): (r: EditorState<T>)
    requires SelectionValid(s)
    ensures r.heads == s.heads && r.editMode == s.editMode && r.moveMode == s.moveMode
    ensures |s.heads| > 0 ==> SelectionValid(r)
  {
    if s.selectedTask > 0 then s.(selectedTask := s.selectedTask - 1)
    else if s.selectedTask == 0 then s.(selectedTask := -1)
    else
      var h := if s.selectedHead > 0 then s.selectedHead - 1 else |s.heads| - 1;
      if |s.heads| > 0 && |s.heads[h].tasks| > 0 then s.(selectedHead := h, selectedTask := |s.heads[h].tasks| - 1)
      else s.(selectedHead := h, selectedTask := -1)
  }

  /** KEY_DOWN in edit mode. */
  function EditDown<T>(s: EditorState<T>): (r: EditorState<T>)
    requires SelectionValid(s)
    ensures r.heads == s.heads && r.editMode == s.editMode && r.moveMode == s.moveMode
    ensures |s.heads| > 0 ==> SelectionValid(r)
  {
    if s.selectedTask == -1 then
      if |s.heads| > 0 && |s.heads[s.selectedHead].tasks| > 0 then s.(selectedTask := 0)
      else s.(selectedHead := if s.selectedHead < |s.heads| - 1 then s.selectedHead + 1 else 0, selectedTask := -1)
    else if s.selectedTask < |s.heads[s.selectedHead].tasks| - 1 then s.(selectedTask := s.selectedTask + 1)
    else s.(selectedHead := if s.selectedHead < |s.heads| - 1 then s.selectedHead + 1 else 0, selectedTask := -1)
  }

  /** Position of the selection in the edit-mode order: each head is a stop just
      before its own items. */
  function EditRank<T>(s: EditorState<T>): int
    requires 0 <= s.selectedHead < |s.heads|
  {
    Offset(s.heads, s.selectedHead) + s.selectedHead + s.selectedTask + 1
  }

  /** Number of stops in the edit-mode order: every head and every item. */
  function EditStops<T>(heads: seq<Head<T>>): nat {
    Total(heads) + |heads|
  }

  lemma EditRankBelowStops<T>(s: EditorState<T>)
    requires SelectionValid(s) && |s.heads| > 0
    ensures 0 <= EditRank(s) < EditStops(s.heads)
  {
    OffsetMonotone(s.heads, s.selectedHead, |s.heads|);
  }

  /** Edit-mode KEY_DOWN steps one stop forward, from the last stop to head 0. */
  lemma EditDownRotates<T>(s: EditorState<T>)
    requires SelectionValid(s) && |s.heads| > 0
    ensures var r := EditDown(s);
      && r.heads == s.heads && r.editMode == s.editMode && r.moveMode == s.moveMode
      && SelectionValid(r)
      && EditRank(r) == Succ(EditRank(s), EditStops(s.heads))
  {
    var h := s.selectedHead;
    EditRankBelowStops(s);
    assert Offset(s.heads, h + 1) == Offset(s.heads, h) + |s.heads[h].tasks|;
    OffsetMonotone(s.heads, h + 1, |s.heads|);
    EditRankBelowStops(EditDown(s));
  }

  /** Edit-mode KEY_UP steps one stop back, from head 0 to the last stop. */
  lemma EditUpRotates<T>(s: EditorState<T>)
    requires SelectionValid(s) && |s.heads| > 0
    ensures var r := EditUp(s);
      && r.heads == s.heads && r.editMode == s.editMode && r.moveMode == s.moveMode
      && SelectionValid(r)
      && EditRank(r) == Pred(EditRank(s), EditStops(s.heads))
  {
    EditRankBelowStops(s);
    if s.selectedTask >= 0 {
      assert EditUp(s) == s.(selectedTask := s.selectedTask - 1);
    } else if s.selectedHead > 0 {
      EditUpToPreviousHead(s);
    } else {
      EditUpWraps(s);
    }
  }

  lemma EditUpToPreviousHead<T>(s: EditorState<T>)
    requires SelectionValid(s) && |s.heads| > 0 && s.selectedTask == -1 && s.selectedHead > 0
    ensures var p := s.selectedHead - 1;
      && EditUp(s) == s.(selectedHead := p, selectedTask := |s.heads[p].tasks| - 1)
      && EditRank(EditUp(s)) == EditRank(s) - 1
  {
    var h := s.selectedHead;
    assert Offset(s.heads, h) == Offset(s.heads, h - 1) + |s.heads[h - 1].tasks|;
  }

  lemma EditUpWraps<T>(s: EditorState<T>)
    requires SelectionValid(s) && |s.heads| > 0 && s.selectedTask == -1 && s.selectedHead == 0
    ensures var p := |s.heads| - 1;
      && EditUp(s) == s.(selectedHead := p, selectedTask := |s.heads[p].tasks| - 1)
      && EditRank(EditUp(s)) == EditStops(s.heads) - 1
  {
    var p := |s.heads| - 1;
    assert Offset(s.heads, p + 1) == Offset(s.heads, p) + |s.heads[p].tasks|;
  }

  /** Up undoes down in edit mode. */
  lemma EditUpAfterDown<T>(s: EditorState<T>)
    requires SelectionValid(s) && |s.heads| > 0
    ensures EditUp(EditDown(s)) == s
  {
    var d := EditDown(s);
    EditDownRotates(s);
    EditUpRotates(d);
    EditRankBelowStops(s);
    EditRankInjective(EditUp(d), s);
  }

  /** Distinct valid selections have distinct edit-mode positions. */
  lemma EditRankInjective<T>(a: EditorState<T>, b: EditorState<T>)
    requires SelectionValid(a) && SelectionValid(b) && a.heads == b.heads && |a.heads| > 0
    requires EditRank(a) == EditRank(b)
    ensures a.selectedHead == b.selectedHead && a.selectedTask == b.selectedTask
  {
    if a.selectedHead < b.selectedHead {
      OffsetMonotone(a.heads, a.selectedHead, b.selectedHead);
    } else if b.selectedHead < a.selectedHead {
      OffsetMonotone(a.heads, b.selectedHead, a.selectedHead);
    }
  }

  // ---------------------------------------------------------------------------
  // The scan loops of the source.

  /** `for (h = from; h < head_count; h++) if (heads[h].task_count > 0) ...` */
  method ScanForward<T>(heads: seq<Head<T>>, from: nat) returns (found: Option<nat>)
    ensures found == FirstNonEmptyFrom(heads, from)
  {
    var h := from;
    while h < |heads|
      invariant from <= h
      invariant FirstNonEmptyFrom(heads, h) == FirstNonEmptyFrom(heads, from)
      decreases |heads| - h
    {
      if |heads[h].tasks| > 0 {
        return Some(h);
      }
      h := h + 1;
    }
    return None;
  }

  /** `for (h = below - 1; h >= 0; h--) if (heads[h].task_count > 0) ...` */
  method ScanBackward<T>(heads: seq<Head<T>>, below: nat) returns (found: Option<nat>)
    requires below <= |heads|
    ensures found == LastNonEmptyBelow(heads, below)
  {
    var h: int := below - 1;
    while h >= 0
      invariant -1 <= h < below
      invariant LastNonEmptyBelow(heads, h + 1) == LastNonEmptyBelow(heads, below)
    {
      if |heads[h].tasks| > 0 {
        return Some(h);
      }
      h := h - 1;
    }
    return None;
  }

  /** The total_tasks loop at the top of normal-mode input. */
  method CountTasks<T>(heads: seq<Head<T>>) returns (total: nat)
    ensures total == Total(heads)
  {
    total := 0;
    for i := 0 to |heads|
      invariant total == Offset(heads, i)
    {
      total := total + |heads[i].tasks|;
    }
  }
}
