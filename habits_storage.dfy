/** The habit file (habits_load and habits_save in modules/habit_manager.c):
    a header line, then one row "head","habit",streak,done per habit and
    "head","",0,0 for a head without habits. The file is a sequence of lines
    as fgets returns them; a file that cannot be opened is None. */
module HabitStorage {
  import opened Store
  import opened Cursor
  import opened Csv
  import opened Lists
  import opened Habits

  const HEADER: string := "head_name,task_name,streak,done_today"

  // ---------------------------------------------------------------------------
  // Saving

  /** The row "%s","%s",%d,%d of one habit. */
  function HabitRow(head: string, x: Habit): string {
    Line4(head, x.name, IntToString(x.streak), BoolToString(x.doneToday))
  }

  /** The row "%s","",0,0 of a head without habits. */
  function EmptyHeadRow(head: string): string {
    Line4(head, "", "0", "0")
  }

  /** The rows of the given habits of one head, in order. */
  function ItemRows(head: string, tasks: seq<Habit>): (r: seq<string>)
    ensures |r| == |tasks|
  {
    if tasks == [] then []
    else ItemRows(head, tasks[..|tasks| - 1]) + [HabitRow(head, tasks[|tasks| - 1]) + "\n"]
  }

  /** The rows of one head. */
  function HeadRows(hd: Head<Habit>): seq<string> {
    if hd.tasks == [] then [EmptyHeadRow(hd.name) + "\n"] else ItemRows(hd.name, hd.tasks)
  }

  /** The rows of the heads, head by head. */
  function AllRows(heads: seq<Head<Habit>>): seq<string> {
    if heads == [] then []
    else AllRows(heads[..|heads| - 1]) + HeadRows(heads[|heads| - 1])
  }

  /** Everything habits_save writes. */
  function SaveLines(heads: seq<Head<Habit>>): seq<string> {
    [HEADER + "\n"] + AllRows(heads)
  }

  /** habits_save: status 1 when the file cannot be opened for writing, else
      the header and the rows, written head by head and habit by habit. */
  method Save(d: ListData<Habit>, canOpen: bool) returns (status: int, written: seq<string>)
    ensures status == (if canOpen then 0 else 1)
    ensures written == (if canOpen then SaveLines(d.heads) else [])
  {
    if !canOpen {
      return 1, [];
    }
    var heads := d.heads;
    written := [HEADER + "\n"];
    var h := 0;
    while h < |heads|
      invariant 0 <= h <= |heads|
      invariant written == [HEADER + "\n"] + AllRows(heads[..h])
    {
      ghost var before := written;
      written := WriteHead(written, heads[h]);
      SaveStep(heads, h, before, written);
      h := h + 1;
    }
    assert heads[..h] == heads;
    status := 0;
  }

  /** The rows of one head: its habits, or the placeholder row of a head without habits. */
  method WriteHead(written: seq<string>, hd: Head<Habit>) returns (r: seq<string>)
    ensures r == written + HeadRows(hd)
  {
    if |hd.tasks| == 0 {
      r := written + [EmptyHeadRow(hd.name) + "\n"];
    } else {
      r := WriteItems(written, hd.name, hd.tasks);
    }
  }

  /** The inner loop of habits_save: one row per habit of a head. */
  method WriteItems(written: seq<string>, head: string, tasks: seq<Habit>) returns (r: seq<string>)
    ensures r == written + ItemRows(head, tasks)
  {
    r := written;
    var t := 0;
    while t < |tasks|
      invariant 0 <= t <= |tasks|
      invariant r == written + ItemRows(head, tasks[..t])
    {
      ghost var before := r;
      r := r + [HabitRow(head, tasks[t]) + "\n"];
      WriteItemStep(written, before, r, head, tasks, t);
      t := t + 1;
    }
    assert tasks[..t] == tasks;
  }

  /** One habit more of the inner loop of the save. */
  lemma WriteItemStep(written: seq<string>, before: seq<string>, r: seq<string>, head: string, tasks: seq<Habit>, t: nat)
    requires t < |tasks| && before == written + ItemRows(head, tasks[..t])
    requires r == before + [HabitRow(head, tasks[t]) + "\n"]
    ensures r == written + ItemRows(head, tasks[..t + 1])
  {
    assert tasks[..t + 1][..t] == tasks[..t];
  }

  /** One head more of habits_save's outer loop. */
  lemma SaveStep(heads: seq<Head<Habit>>, h: nat, before: seq<string>, written: seq<string>)
    requires h < |heads| && before == [HEADER + "\n"] + AllRows(heads[..h])
    requires written == before + HeadRows(heads[h])
    ensures written == [HEADER + "\n"] + AllRows(heads[..h + 1])
  {
    AllRowsStep(heads, h);
  }

  lemma AllRowsStep(heads: seq<Head<Habit>>, h: nat)
    requires h < |heads|
    ensures [HEADER + "\n"] + AllRows(heads[..h + 1]) == ([HEADER + "\n"] + AllRows(heads[..h])) + HeadRows(heads[h])
  {
    assert heads[..h + 1][..h] == heads[..h];
  }

  // ---------------------------------------------------------------------------
  // Loading

  /** The fields of a data row, after the defaults "0" for missing numbers. */
  datatype Row = Row(head: string, name: string, streak: int, done: bool)

  /** A line as habits_load reads it: cut at the line end, skipped when empty
      or when it holds fewer than two fields. */
  function ParseRow(line: string): (r: Option<Row>)
    ensures (line == [] || IsLineEnd(line[0])) ==> r.None?
  {
    var l := Chomp(line);
    if l == [] then None
    else
      var f := SplitFields(l, 4);
      if |f| < 2 then None
      else Some(Row(f[0], f[1], Atoi(if |f| > 2 then f[2] else "0"),
                    Atoi(if |f| > 3 then f[3] else "0") != 0))
  }

  /** The habit of a row appended to head i: none for an empty name or a full head. */
  function AddHabit(heads: seq<Head<Habit>>, i: nat, r: Row): (res: seq<Head<Habit>>)
    requires i < |heads|
    ensures |res| == |heads|
  {
    var tasks := heads[i].tasks;
    if r.name == [] then heads
    else if |tasks| < MAX_TASKS_PER_HEAD then
      heads[i := heads[i].(tasks := tasks + [Habit(|tasks| + 1, Truncate(r.name, MAX_NAME_LENGTH - 1), r.streak, r.done)])]
    else heads
  }

  /** One row: the first head of that name takes the habit; a new head is made
      for an unknown name while there is room, and the row is dropped otherwise. */
  function ApplyRow(heads: seq<Head<Habit>>, r: Row): (res: seq<Head<Habit>>)
    ensures |res| == |heads| || |res| == |heads| + 1
    ensures |heads| >= MAX_HEADS ==> |res| == |heads|
  {
    match FindNamed(heads, r.head, 0)
    case Some(i) => AddHabit(heads, i, r)
    case None =>
      if |heads| >= MAX_HEADS then heads
      else AddHabit(heads + [Head(0, Truncate(r.head, MAX_NAME_LENGTH - 1), [])], |heads|, r)
  }

  function ApplyLine(heads: seq<Head<Habit>>, line: string): seq<Head<Habit>> {
    match ParseRow(line)
    case None => heads
    case Some(r) => ApplyRow(heads, r)
  }

  /** The heads after reading the lines in order. */
  function LoadRows(heads: seq<Head<Habit>>, lines: seq<string>): (res: seq<Head<Habit>>)
    ensures |heads| <= |res| <= |heads| + |lines|
  {
    if lines == [] then heads
    else ApplyLine(LoadRows(heads, lines[..|lines| - 1]), lines[|lines| - 1])
  }

  /** The record after habits_load of a file that opened: the initial state,
      with the heads read from every line after the header. */
  function LoadedState(lines: seq<string>): (r: EditorState<Habit>)
    ensures r.selectedHead == 0 && r.selectedTask == -1 && !r.editMode && !r.moveMode
    ensures |lines| <= 1 ==> r.heads == []
  {
    InitialHabits().(heads := if lines == [] then [] else LoadRows([], lines[1..]))
  }

  /** One iteration of the read loop of habits_load. */
  method LoadLine(d: ListData<Habit>, line: string)
    modifies d
    ensures d.State() == old(d.State()).(heads := ApplyLine(old(d.heads), line))
  {
    var l := Chomp(line);
    if |l| == 0 {
      return;
    }
    var fields := ParseCsvLine(l, 4);
    if |fields| < 2 {
      return;
    }
    var streakText := if |fields| > 2 then fields[2] else "0";
    var doneText := if |fields| > 3 then fields[3] else "0";
    var r := Row(fields[0], fields[1], Atoi(streakText), Atoi(doneText) != 0);
    assert ParseRow(line) == Some(r);
    AddRow(d, r);
  }

  /** The head lookup and the append of habits_load for one parsed row. */
  method AddRow(d: ListData<Habit>, r: Row)
    modifies d
    ensures d.State() == old(d.State()).(heads := ApplyRow(old(d.heads), r))
  {
    var found := ScanNamed(d.heads, r.head, 0);
    var idx: nat;
    if found.None? {
      if |d.heads| >= MAX_HEADS {
        return;
      }
      idx := |d.heads|;
      d.heads := d.heads + [Head(0, Truncate(r.head, MAX_NAME_LENGTH - 1), [])];
    } else {
      idx := found.value;
    }
    if |r.name| == 0 {
      return;
    }
    var hd := d.heads[idx];
    if |hd.tasks| < MAX_TASKS_PER_HEAD {
      var x := Habit(|hd.tasks| + 1, Truncate(r.name, MAX_NAME_LENGTH - 1), r.streak, r.done);
      d.heads := d.heads[idx := hd.(tasks := hd.tasks + [x])];
    }
  }

  /** habits_load: status 1 and nothing changed when the file cannot be
      opened; otherwise the record is reset and every line after the header
      is applied in turn. */
  method Load(d: ListData<Habit>, file: Option<seq<string>>) returns (status: int)
    modifies d
    ensures file.None? ==> status == 1 && d.State() == old(d.State())
    ensures file.Some? ==> status == 0 && d.State() == LoadedState(file.value)
  {
    if file.None? {
      return 1;
    }
    Init(d);
    if |file.value| > 0 {
      ReadLines(d, file.value);
    }
    return 0;
  }

  /** The read loop of habits_load, after the header, on the initial record. */
  method ReadLines(d: ListData<Habit>, lines: seq<string>)
    requires |lines| > 0 && d.State() == InitialHabits()
    modifies d
    ensures d.State() == LoadedState(lines)
  {
    var i := 1;
    while i < |lines|
      invariant 1 <= i <= |lines|
      invariant d.State() == InitialHabits().(heads := LoadRows([], lines[1..i]))
    {
      LoadRowsNext(lines, i);
      LoadLine(d, lines[i]);
      i := i + 1;
    }
    assert lines[1..i] == lines[1..];
  }

  /** Reading lines 1..i+1 is reading lines 1..i, then line i. */
  lemma LoadRowsNext(lines: seq<string>, i: nat)
    requires 1 <= i < |lines|
    ensures LoadRows([], lines[1..i + 1]) == ApplyLine(LoadRows([], lines[1..i]), lines[i])
  {
    assert lines[1..i + 1] == lines[1..i] + [lines[i]];
    LoadRowsSnoc([], lines[1..i], lines[i]);
  }

  // ---------------------------------------------------------------------------
  // What loading keeps

  /** Every habit's id is its position plus one. */
  predicate IdsArePositions(heads: seq<Head<Habit>>) {
    forall h, t :: 0 <= h < |heads| && 0 <= t < |heads[h].tasks| ==> heads[h].tasks[t].id == t + 1
  }

  lemma ApplyRowKeeps(heads: seq<Head<Habit>>, r: Row)
    requires WithinCapacity(heads) && IdsArePositions(heads)
    ensures var res := ApplyRow(heads, r);
      WithinCapacity(res) && IdsArePositions(res) && |heads| <= |res| <= |heads| + 1
  {
    match FindNamed(heads, r.head, 0)
    case Some(i) => {}
    case None =>
      if |heads| < MAX_HEADS {
        var grown := heads + [Head(0, Truncate(r.head, MAX_NAME_LENGTH - 1), [])];
        assert WithinCapacity(grown) && IdsArePositions(grown);
      }
  }

  lemma {:induction false} LoadRowsKeep(heads: seq<Head<Habit>>, lines: seq<string>)
    requires WithinCapacity(heads) && IdsArePositions(heads)
    ensures WithinCapacity(LoadRows(heads, lines)) && IdsArePositions(LoadRows(heads, lines))
    decreases |lines|
  {
    if lines != [] {
      var before := LoadRows(heads, lines[..|lines| - 1]);
      LoadRowsKeep(heads, lines[..|lines| - 1]);
      match ParseRow(lines[|lines| - 1])
      case None =>
      case Some(r) => ApplyRowKeeps(before, r);
    }
  }

  /** Whatever the file holds, the loaded record is well formed: no more
      heads and habits than the arrays hold, a valid selection, both modes
      off, and each habit numbered by its position. */
  lemma LoadedWellFormed(lines: seq<string>)
    ensures var s := LoadedState(lines);
      WellFormed(s) && !s.editMode && !s.moveMode && IdsArePositions(s.heads)
      && s.selectedHead == 0 && s.selectedTask == -1
  {
    if lines != [] {
      LoadRowsKeep([], lines[1..]);
    }
  }

  // ---------------------------------------------------------------------------
  // Round trip

  /** A row of a saved habit parses back into its fields. */
  lemma ParseHabitRow(head: string, x: Habit)
    requires Plain(head) && Plain(x.name)
    ensures ParseRow(HabitRow(head, x) + "\n") == Some(Row(head, x.name, x.streak, x.doneToday))
  {
    var n, b := IntToString(x.streak), BoolToString(x.doneToday);
    AtoiIntToString(x.streak);
    AtoiBoolToString(x.doneToday);
    assert NumberChars(n + ",") && NumberChars(b);
    NumberCharsConcat(n + ",", b);
    RowChomp(head, x.name, (n + ",") + b);
    Line4Fields(head, x.name, n, b, 4);
  }

  /** The row of a head without habits parses back to its name and an empty habit name. */
  lemma ParseEmptyHeadRow(head: string)
    requires Plain(head)
    ensures ParseRow(EmptyHeadRow(head) + "\n") == Some(Row(head, "", 0, false))
  {
    var z := BoolToString(false);
    AtoiBoolToString(false);
    assert NumberChars(z + ",") && NumberChars(z);
    NumberCharsConcat(z + ",", z);
    RowChomp(head, "", (z + ",") + z);
    Line4Fields(head, "", z, z, 4);
  }

  /** Reading after writing is composition. */
  lemma {:induction false} LoadRowsAppend(heads: seq<Head<Habit>>, a: seq<string>, b: seq<string>)
    ensures LoadRows(heads, a + b) == LoadRows(LoadRows(heads, a), b)
    decreases |b|
  {
    if b == [] {
      assert a + b == a;
    } else {
      assert (a + b)[..|a + b| - 1] == a + b[..|b| - 1];
      LoadRowsAppend(heads, a, b[..|b| - 1]);
    }
  }

  /** What the editor holds that a file can carry: capacities, distinct head
      names, non-empty habit names, and names of at most 47 characters without
      quotes or line ends. */
  predicate Saveable(heads: seq<Head<Habit>>) {
    WithinCapacity(heads) && DistinctNames(heads)
    && forall h :: 0 <= h < |heads| ==> SaveableHead(heads[h])
  }

  predicate SaveableHead(hd: Head<Habit>) {
    Plain(hd.name) && |hd.name| < MAX_NAME_LENGTH
    && forall t :: 0 <= t < |hd.tasks| ==>
         Plain(hd.tasks[t].name) && hd.tasks[t].name != [] && |hd.tasks[t].name| < MAX_NAME_LENGTH
  }

  /** The habits numbered by position, as loading numbers them. */
  function Renumber(tasks: seq<Habit>): (r: seq<Habit>)
    ensures |r| == |tasks|
    ensures forall i :: 0 <= i < |r| ==> r[i] == tasks[i].(id := i + 1)
  {
    seq(|tasks|, i requires 0 <= i < |tasks| => tasks[i].(id := i + 1))
  }

  /** The heads as a load gives them back: head ids 0, habits renumbered. */
  function Normalized(heads: seq<Head<Habit>>): (r: seq<Head<Habit>>)
    ensures |r| == |heads|
    ensures forall h :: 0 <= h < |r| ==> r[h] == Head(0, heads[h].name, Renumber(heads[h].tasks))
  {
    seq(|heads|, h requires 0 <= h < |heads| => Head(0, heads[h].name, Renumber(heads[h].tasks)))
  }

  lemma ItemRowsSnoc(head: string, tasks: seq<Habit>, k: nat)
    requires 1 <= k <= |tasks|
    ensures ItemRows(head, tasks[..k]) == ItemRows(head, tasks[..k - 1]) + [HabitRow(head, tasks[k - 1]) + "\n"]
  {
    assert tasks[..k][..k - 1] == tasks[..k - 1];
  }

  lemma LoadRowsSnoc(heads: seq<Head<Habit>>, rows: seq<string>, line: string)
    ensures LoadRows(heads, rows + [line]) == ApplyLine(LoadRows(heads, rows), line)
  {
    assert (rows + [line])[..|rows|] == rows;
  }

  /** The row of a habit of a head that is not there yet creates the head with that habit as its first. */
  lemma FirstItemLoad(base: seq<Head<Habit>>, name: string, x: Habit)
    requires |base| < MAX_HEADS && Plain(name) && |name| < MAX_NAME_LENGTH
    requires Plain(x.name) && x.name != [] && |x.name| < MAX_NAME_LENGTH
    requires forall j :: 0 <= j < |base| ==> base[j].name != name
    ensures ApplyLine(base, HabitRow(name, x) + "\n") == base + [Head(0, name, [x.(id := 1)])]
  {
    ParseHabitRow(name, x);
    FirstRowApplies(base, HabitRow(name, x) + "\n", Row(name, x.name, x.streak, x.doneToday));
    assert x.(id := 1) == Habit(1, x.name, x.streak, x.doneToday);
  }

  /** A row naming a head that is not there yet makes that head, with the row's habit. */
  lemma FirstRowApplies(base: seq<Head<Habit>>, line: string, r: Row)
    requires ParseRow(line) == Some(r) && |base| < MAX_HEADS && |r.head| < MAX_NAME_LENGTH
    requires r.name != [] && |r.name| < MAX_NAME_LENGTH
    requires forall j :: 0 <= j < |base| ==> base[j].name != r.head
    ensures ApplyLine(base, line) == base + [Head(0, r.head, [Habit(1, r.name, r.streak, r.done)])]
  {
    assert FindNamed(base, r.head, 0).None?;
    assert Truncate(r.head, MAX_NAME_LENGTH - 1) == r.head;
    assert Truncate(r.name, MAX_NAME_LENGTH - 1) == r.name;
    var grown := base + [Head(0, r.head, [])];
    assert ApplyRow(base, r) == AddHabit(grown, |base|, r);
    assert [] + [Habit(1, r.name, r.streak, r.done)] == [Habit(1, r.name, r.streak, r.done)];
  }

  /** The row of a habit of the last head, read when no earlier head has its name, appends it there. */
  lemma NextItemLoad(base: seq<Head<Habit>>, name: string, items: seq<Habit>, x: Habit)
    requires |items| < MAX_TASKS_PER_HEAD && Plain(name)
    requires Plain(x.name) && x.name != [] && |x.name| < MAX_NAME_LENGTH
    requires forall j :: 0 <= j < |base| ==> base[j].name != name
    ensures ApplyLine(base + [Head(0, name, items)], HabitRow(name, x) + "\n")
      == base + [Head(0, name, items + [x.(id := |items| + 1)])]
  {
    ParseHabitRow(name, x);
    NextRowApplies(base, items, HabitRow(name, x) + "\n", Row(name, x.name, x.streak, x.doneToday));
    assert x.(id := |items| + 1) == Habit(|items| + 1, x.name, x.streak, x.doneToday);
  }

  /** A row naming the last head, when no earlier head has that name, appends its habit there. */
  lemma NextRowApplies(base: seq<Head<Habit>>, items: seq<Habit>, line: string, r: Row)
    requires ParseRow(line) == Some(r) && |items| < MAX_TASKS_PER_HEAD
    requires r.name != [] && |r.name| < MAX_NAME_LENGTH
    requires forall j :: 0 <= j < |base| ==> base[j].name != r.head
    ensures ApplyLine(base + [Head(0, r.head, items)], line)
      == base + [Head(0, r.head, items + [Habit(|items| + 1, r.name, r.streak, r.done)])]
  {
    var cur := base + [Head(0, r.head, items)];
    FindLast(base, Head(0, r.head, items));
    assert Truncate(r.name, MAX_NAME_LENGTH - 1) == r.name;
    assert AddHabit(cur, |base|, r) == cur[|base| := Head(0, r.head, items + [Habit(|items| + 1, r.name, r.streak, r.done)])];
  }

  /** A head whose name no earlier head carries is found at its own index. */
  lemma FindLast(base: seq<Head<Habit>>, hd: Head<Habit>)
    requires forall j :: 0 <= j < |base| ==> base[j].name != hd.name
    ensures FindNamed(base + [hd], hd.name, 0) == Some(|base|)
  {
    var cur := base + [hd];
    assert forall j :: 0 <= j < |cur| - 1 ==> cur[j] == base[j];
    FindNamedLast(cur, hd.name, 0);
  }

  lemma NormalizedSnoc(heads: seq<Head<Habit>>)
    requires heads != []
    ensures Normalized(heads) == Normalized(heads[..|heads| - 1])
      + [Head(0, heads[|heads| - 1].name, Renumber(heads[|heads| - 1].tasks))]
  {
  }

  lemma RenumberSnoc(tasks: seq<Habit>, k: nat)
    requires 1 <= k <= |tasks|
    ensures Renumber(tasks[..k]) == Renumber(tasks[..k - 1]) + [tasks[k - 1].(id := k)]
  {
  }

  /** What the rows of the first k habits of a head, read after heads that
      do not carry its name, produce: that head with those k habits. */
  predicate ItemsLoaded(base: seq<Head<Habit>>, hd: Head<Habit>, k: nat)
    requires k <= |hd.tasks|
  {
    LoadRows(base, ItemRows(hd.name, hd.tasks[..k])) == base + [Head(0, hd.name, Renumber(hd.tasks[..k]))]
  }

  lemma ItemsLoadFirst(base: seq<Head<Habit>>, hd: Head<Habit>)
    requires 1 <= |hd.tasks| && |base| < MAX_HEADS && SaveableHead(hd)
    requires forall j :: 0 <= j < |base| ==> base[j].name != hd.name
    ensures ItemsLoaded(base, hd, 1)
  {
    var x := hd.tasks[0];
    assert Plain(x.name) && x.name != [] && |x.name| < MAX_NAME_LENGTH;
    var line := HabitRow(hd.name, x) + "\n";
    ItemRowsSnoc(hd.name, hd.tasks, 1);
    assert ItemRows(hd.name, hd.tasks[..1]) == [] + [line];
    LoadRowsSnoc(base, [], line);
    RenumberSnoc(hd.tasks, 1);
    FirstItemLoad(base, hd.name, x);
  }

  lemma {:induction false} ItemsLoadNext(base: seq<Head<Habit>>, hd: Head<Habit>, k: nat)
    requires 1 < k <= |hd.tasks| && |base| < MAX_HEADS && |hd.tasks| <= MAX_TASKS_PER_HEAD
    requires SaveableHead(hd)
    requires forall j :: 0 <= j < |base| ==> base[j].name != hd.name
    ensures ItemsLoaded(base, hd, k)
    decreases k, 0
  {
    ItemsLoad(base, hd, k - 1);
    var x := hd.tasks[k - 1];
    assert Plain(x.name) && x.name != [] && |x.name| < MAX_NAME_LENGTH;
    var line := HabitRow(hd.name, x) + "\n";
    var rows := ItemRows(hd.name, hd.tasks[..k - 1]);
    ItemRowsSnoc(hd.name, hd.tasks, k);
    LoadRowsSnoc(base, rows, line);
    RenumberSnoc(hd.tasks, k);
    NextItemLoad(base, hd.name, Renumber(hd.tasks[..k - 1]), x);
  }

  lemma {:induction false} ItemsLoad(base: seq<Head<Habit>>, hd: Head<Habit>, k: nat)
    requires 1 <= k <= |hd.tasks| && |base| < MAX_HEADS && |hd.tasks| <= MAX_TASKS_PER_HEAD
    requires SaveableHead(hd)
    requires forall j :: 0 <= j < |base| ==> base[j].name != hd.name
    ensures ItemsLoaded(base, hd, k)
    decreases k, 1
  {
    if k == 1 {
      ItemsLoadFirst(base, hd);
    } else {
      ItemsLoadNext(base, hd, k);
    }
  }

  /** The rows of one head, read after heads that do not carry its name, add that head. */
  lemma HeadLoad(base: seq<Head<Habit>>, hd: Head<Habit>)
    requires |base| < MAX_HEADS && |hd.tasks| <= MAX_TASKS_PER_HEAD && SaveableHead(hd)
    requires forall j :: 0 <= j < |base| ==> base[j].name != hd.name
    ensures LoadRows(base, HeadRows(hd)) == base + [Head(0, hd.name, Renumber(hd.tasks))]
  {
    if hd.tasks == [] {
      assert HeadRows(hd) == [EmptyHeadRow(hd.name) + "\n"];
      assert Renumber(hd.tasks) == [];
      EmptyHeadLoad(base, hd.name);
    } else {
      assert HeadRows(hd) == ItemRows(hd.name, hd.tasks);
      AllItemsLoad(base, hd);
    }
  }

  /** The rows of all habits of a head, read after heads that do not carry its name, add that head. */
  lemma AllItemsLoad(base: seq<Head<Habit>>, hd: Head<Habit>)
    requires 1 <= |hd.tasks| <= MAX_TASKS_PER_HEAD && |base| < MAX_HEADS && SaveableHead(hd)
    requires forall j :: 0 <= j < |base| ==> base[j].name != hd.name
    ensures LoadRows(base, ItemRows(hd.name, hd.tasks)) == base + [Head(0, hd.name, Renumber(hd.tasks))]
  {
    ItemsLoad(base, hd, |hd.tasks|);
    assert hd.tasks[..|hd.tasks|] == hd.tasks;
  }

  /** The row of a head without habits, read after heads that do not carry its name, adds it. */
  lemma EmptyHeadLoad(base: seq<Head<Habit>>, name: string)
    requires Plain(name) && |name| < MAX_NAME_LENGTH && |base| < MAX_HEADS
    requires forall j :: 0 <= j < |base| ==> base[j].name != name
    ensures LoadRows(base, [EmptyHeadRow(name) + "\n"]) == base + [Head(0, name, [])]
  {
    ParseEmptyHeadRow(name);
    EmptyRowApplies(base, EmptyHeadRow(name) + "\n", name);
    LoadRowsSnoc(base, [], EmptyHeadRow(name) + "\n");
    assert [] + [EmptyHeadRow(name) + "\n"] == [EmptyHeadRow(name) + "\n"];
  }

  /** The row of a head without habits, naming a head that is not there yet, makes that head empty. */
  lemma EmptyRowApplies(base: seq<Head<Habit>>, line: string, name: string)
    requires ParseRow(line) == Some(Row(name, "", 0, false)) && |base| < MAX_HEADS && |name| < MAX_NAME_LENGTH
    requires forall j :: 0 <= j < |base| ==> base[j].name != name
    ensures ApplyLine(base, line) == base + [Head(0, name, [])]
  {
    assert FindNamed(base, name, 0).None?;
    assert Truncate(name, MAX_NAME_LENGTH - 1) == name;
  }

  lemma {:induction false} AllRowsLoad(heads: seq<Head<Habit>>)
    requires Saveable(heads)
    ensures LoadRows([], AllRows(heads)) == Normalized(heads)
  {
    if heads != [] {
      var n := |heads|;
      var pre, last := heads[..n - 1], heads[n - 1];
      SaveablePrefix(heads);
      AllRowsLoad(pre);
      LoadRowsAppend([], AllRows(pre), HeadRows(last));
      HeadLoad(Normalized(pre), last);
      NormalizedSnoc(heads);
    }
  }

  /** Dropping the last head of saveable heads leaves saveable heads, none
      of which, even renumbered, carries the last head's name. */
  lemma SaveablePrefix(heads: seq<Head<Habit>>)
    requires Saveable(heads) && heads != []
    ensures var n := |heads|; var pre := heads[..n - 1];
      Saveable(pre) && SaveableHead(heads[n - 1]) && |heads[n - 1].tasks| <= MAX_TASKS_PER_HEAD
      && |Normalized(pre)| < MAX_HEADS
      && forall j :: 0 <= j < |Normalized(pre)| ==> Normalized(pre)[j].name != heads[n - 1].name
  {
    var n := |heads|;
    var pre := heads[..n - 1];
    assert forall i :: 0 <= i < |pre| ==> pre[i] == heads[i];
    forall j | 0 <= j < |Normalized(pre)|
      ensures Normalized(pre)[j].name != heads[n - 1].name
    {
      assert Normalized(pre)[j].name == heads[j].name;
    }
  }

  /** Saving and loading again gives back the record's heads, with head ids 0
      and habits numbered by position; the selection and modes are reset. */
  lemma SaveLoadRoundTrip(heads: seq<Head<Habit>>)
    requires Saveable(heads)
    ensures LoadedState(SaveLines(heads)) == InitialHabits().(heads := Normalized(heads))
  {
    AllRowsLoad(heads);
    assert SaveLines(heads)[1..] == AllRows(heads);
  }

  lemma {:induction false} AllRowsIgnoreIds(heads: seq<Head<Habit>>)
    ensures AllRows(Normalized(heads)) == AllRows(heads)
  {
    if heads != [] {
      var n := |heads|;
      assert Normalized(heads)[..n - 1] == Normalized(heads[..n - 1]);
      AllRowsIgnoreIds(heads[..n - 1]);
      ItemRowsIgnoreIds(heads[n - 1].name, heads[n - 1].tasks);
    }
  }

  lemma {:induction false} ItemRowsIgnoreIds(head: string, tasks: seq<Habit>)
    ensures ItemRows(head, Renumber(tasks)) == ItemRows(head, tasks)
  {
    if tasks != [] {
      var n := |tasks|;
      assert Renumber(tasks)[..n - 1] == Renumber(tasks[..n - 1]);
      ItemRowsIgnoreIds(head, tasks[..n - 1]);
    }
  }

  /** A second save after a load writes the same file again. */
  lemma SaveLoadSave(heads: seq<Head<Habit>>)
    requires Saveable(heads)
    ensures SaveLines(LoadedState(SaveLines(heads)).heads) == SaveLines(heads)
  {
    SaveLoadRoundTrip(heads);
    AllRowsIgnoreIds(heads);
  }
}
