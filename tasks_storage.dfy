/** The task file (tasks_load and tasks_save in modules/task_manager.c): a
    header line, then one row "head","description",completed per task and
    "head","",0 for an empty named head; the unnamed head 0 is written with an
    empty head name and omitted when it is empty. The file is a sequence of
    lines as fgets returns them; a file that cannot be opened is None. */
module TaskStorage {
  import opened Keys
  import opened Store
  import opened Cursor
  import opened Editor
  import opened Csv
  import opened Lists
  import opened Tasks

  const HEADER: string := "head_name,description,completed"

  /** The size of a task's description buffer, terminating NUL included. */
  const DESCRIPTION_SIZE: int := 128

  // ---------------------------------------------------------------------------
  // Saving

  /** The row "%s","%s",%d of one task. */
  function TaskRow(head: string, x: TaskItem): string {
    Line3(head, x.description, BoolToString(x.completed))
  }

  /** The row "%s","",0 of an empty named head. */
  function EmptyHeadRow(head: string): string {
    Line3(head, "", "0")
  }

  /** The rows of the given tasks of one head, in order. */
  function ItemRows(head: string, tasks: seq<TaskItem>): (r: seq<string>)
    ensures |r| == |tasks|
  {
    if tasks == [] then []
    else ItemRows(head, tasks[..|tasks| - 1]) + [TaskRow(head, tasks[|tasks| - 1]) + "\n"]
  }

  /** The rows of the head at index h: none for an empty head 0. */
  function HeadRows(hd: Head<TaskItem>, h: nat): seq<string> {
    if hd.tasks == [] then (if h > 0 then [EmptyHeadRow(hd.name) + "\n"] else [])
    else ItemRows(hd.name, hd.tasks)
  }

  /** The rows of the heads, head by head. */
  function AllRows(heads: seq<Head<TaskItem>>): seq<string> {
    if heads == [] then []
    else AllRows(heads[..|heads| - 1]) + HeadRows(heads[|heads| - 1], |heads| - 1)
  }

  /** Everything tasks_save writes. */
  function SaveLines(heads: seq<Head<TaskItem>>): seq<string> {
    [HEADER + "\n"] + AllRows(heads)
  }

  /** tasks_save: status 1 when the file cannot be opened for writing, else
      the header and the rows, written head by head and task by task. */
  method Save(d: ListData<TaskItem>, canOpen: bool) returns (status: int, written: seq<string>)
    ensures status == (if canOpen then 0 else 1)
    ensures written == (if canOpen then SaveLines(d.heads) else [])
  {
    if !canOpen {
      return 1, [];
    }
    var heads := d.heads;
    written := [HEADER + "\n"];
    var h := 0;
    while h < |heads|
      invariant 0 <= h <= |heads|
      invariant written == [HEADER + "\n"] + AllRows(heads[..h])
    {
      ghost var before := written;
      written := WriteHead(written, heads[h], h);
      SaveStep(heads, h, before, written);
      h := h + 1;
    }
    assert heads[..h] == heads;
    status := 0;
  }

  /** The rows of the head at index h: its tasks, the placeholder row of an
      empty named head, or nothing for an empty head 0. */
  method WriteHead(written: seq<string>, hd: Head<TaskItem>, h: nat) returns (r: seq<string>)
    ensures r == written + HeadRows(hd, h)
  {
    r := written;
    if |hd.tasks| == 0 {
      if h > 0 {
        r := written + [EmptyHeadRow(hd.name) + "\n"];
      }
    } else {
      r := WriteItems(written, hd.name, hd.tasks);
    }
  }

  /** The inner loop of tasks_save: one row per task of a head. */
  method WriteItems(written: seq<string>, head: string, tasks: seq<TaskItem>) returns (r: seq<string>)
    ensures r == written + ItemRows(head, tasks)
  {
    r := written;
    var t := 0;
    while t < |tasks|
      invariant 0 <= t <= |tasks|
      invariant r == written + ItemRows(head, tasks[..t])
    {
      ghost var before := r;
      r := r + [TaskRow(head, tasks[t]) + "\n"];
      WriteItemStep(written, before, r, head, tasks, t);
      t := t + 1;
    }
    assert tasks[..t] == tasks;
  }

  /** One task more of the inner loop of the save. */
  lemma WriteItemStep(written: seq<string>, before: seq<string>, r: seq<string>, head: string, tasks: seq<TaskItem>, t: nat)
    requires t < |tasks| && before == written + ItemRows(head, tasks[..t])
    requires r == before + [TaskRow(head, tasks[t]) + "\n"]
    ensures r == written + ItemRows(head, tasks[..t + 1])
  {
    assert tasks[..t + 1][..t] == tasks[..t];
  }

  /** One head more of tasks_save's outer loop. */
  lemma SaveStep(heads: seq<Head<TaskItem>>, h: nat, before: seq<string>, written: seq<string>)
    requires h < |heads| && before == [HEADER + "\n"] + AllRows(heads[..h])
    requires written == before + HeadRows(heads[h], h)
    ensures written == [HEADER + "\n"] + AllRows(heads[..h + 1])
  {
    AllRowsStep(heads, h);
  }

  lemma AllRowsStep(heads: seq<Head<TaskItem>>, h: nat)
    requires h < |heads|
    ensures [HEADER + "\n"] + AllRows(heads[..h + 1]) == ([HEADER + "\n"] + AllRows(heads[..h])) + HeadRows(heads[h], h)
  {
    assert heads[..h + 1][..h] == heads[..h];
  }

  lemma ItemRowsSnoc(head: string, tasks: seq<TaskItem>, k: nat)
    requires 1 <= k <= |tasks|
    ensures ItemRows(head, tasks[..k]) == ItemRows(head, tasks[..k - 1]) + [TaskRow(head, tasks[k - 1]) + "\n"]
  {
    assert tasks[..k][..k - 1] == tasks[..k - 1];
  }

  // ---------------------------------------------------------------------------
  // Loading

  /** The fields of a data row, after the default "0" for a missing flag. */
  datatype Row = Row(head: string, description: string, completed: bool)

  /** A line as tasks_load reads it: cut at the line end, skipped when empty
      or when it holds fewer than two fields. */
  function ParseRow(line: string): (r: Option<Row>)
    ensures (line == [] || IsLineEnd(line[0])) ==> r.None?
  {
    var l := Chomp(line);
    if l == [] then None
    else
      var f := SplitFields(l, 3);
      if |f| < 2 then None
      else Some(Row(f[0], f[1], Atoi(if |f| > 2 then f[2] else "0") != 0))
  }

  /** The head a row belongs to: head 0 for an empty head name, otherwise the
      first named head (from index 1) of that name. */
  function Lookup(heads: seq<Head<TaskItem>>, name: string): (r: Option<nat>)
    requires |heads| >= 1
    ensures r.Some? ==> r.value < |heads|
    ensures name == "" ==> r == Some(0)
  {
    if name == "" then Some(0) else FindNamed(heads, name, 1)
  }

  /** The task of a row appended to head i: none for an empty description or a
      full head. The loader never writes a loaded task's id; it is 0 here. */
  function AddTask(heads: seq<Head<TaskItem>>, i: nat, r: Row): (res: seq<Head<TaskItem>>)
    requires i < |heads|
    ensures |res| == |heads|
  {
    var tasks := heads[i].tasks;
    if r.description == [] then heads
    else if |tasks| < MAX_TASKS_PER_HEAD then
      heads[i := heads[i].(tasks := tasks + [TaskItem(0, Truncate(r.description, DESCRIPTION_SIZE - 1), r.completed)])]
    else heads
  }

  /** One row: the head it names takes the task; a new head is made for an
      unknown name while there is room, and the row is dropped otherwise. */
  function ApplyRow(heads: seq<Head<TaskItem>>, r: Row): (res: seq<Head<TaskItem>>)
    requires |heads| >= 1
    ensures |heads| <= |res|
  {
    match Lookup(heads, r.head)
    case Some(i) => AddTask(heads, i, r)
    case None =>
      if |heads| >= MAX_HEADS then heads
      else AddTask(heads + [Head(0, Truncate(r.head, MAX_NAME_LENGTH - 1), [])], |heads|, r)
  }

  function ApplyLine(heads: seq<Head<TaskItem>>, line: string): (res: seq<Head<TaskItem>>)
    requires |heads| >= 1
    ensures |heads| <= |res|
  {
    match ParseRow(line)
    case None => heads
    case Some(r) => ApplyRow(heads, r)
  }

  /** The heads after reading the lines in order. */
  function LoadRows(heads: seq<Head<TaskItem>>, lines: seq<string>): (res: seq<Head<TaskItem>>)
    requires |heads| >= 1
    ensures |heads| <= |res|
  {
    if lines == [] then heads
    else ApplyLine(LoadRows(heads, lines[..|lines| - 1]), lines[|lines| - 1])
  }

  /** The record after tasks_load of a file that opened: the initial state,
      with the rows of every line after the header read into it. */
  function LoadedState(lines: seq<string>): (r: EditorState<TaskItem>)
    ensures r.selectedHead == 0 && r.selectedTask == -1 && !r.editMode && !r.moveMode
    ensures |r.heads| >= 1
    ensures |lines| <= 1 ==> r == InitialTasks()
  {
    InitialTasks().(heads := if lines == [] then InitialTasks().heads else LoadRows(InitialTasks().heads, lines[1..]))
  }

  /** One iteration of the read loop of tasks_load. */
  method LoadLine(d: ListData<TaskItem>, line: string)
    requires |d.heads| >= 1
    modifies d
    ensures d.State() == old(d.State()).(heads := ApplyLine(old(d.heads), line))
  {
    var l := Chomp(line);
    if |l| == 0 {
      return;
    }
    var fields := ParseCsvLine(l, 3);
    if |fields| < 2 {
      return;
    }
    var completedText := if |fields| > 2 then fields[2] else "0";
    var r := Row(fields[0], fields[1], Atoi(completedText) != 0);
    assert ParseRow(line) == Some(r);
    AddRow(d, r);
  }

  /** The head lookup and the append of tasks_load for one parsed row. */
  method AddRow(d: ListData<TaskItem>, r: Row)
    requires |d.heads| >= 1
    modifies d
    ensures d.State() == old(d.State()).(heads := ApplyRow(old(d.heads), r))
  {
    var found: Option<nat>;
    if |r.head| == 0 {
      found := Some(0);
    } else {
      found := ScanNamed(d.heads, r.head, 1);
    }
    var idx: nat;
    if found.None? {
      if |d.heads| >= MAX_HEADS {
        return;
      }
      idx := |d.heads|;
      d.heads := d.heads + [Head(0, Truncate(r.head, MAX_NAME_LENGTH - 1), [])];
    } else {
      idx := found.value;
    }
    if |r.description| == 0 {
      return;
    }
    var hd := d.heads[idx];
    if |hd.tasks| < MAX_TASKS_PER_HEAD {
      var x := TaskItem(0, Truncate(r.description, DESCRIPTION_SIZE - 1), r.completed);
      d.heads := d.heads[idx := hd.(tasks := hd.tasks + [x])];
    }
  }

  /** tasks_load: status 1 and nothing changed when the file cannot be
      opened; otherwise the record is reset and every line after the header
      is read in turn. */
  method Load(d: ListData<TaskItem>, file: Option<seq<string>>) returns (status: int)
    modifies d
    ensures file.None? ==> status == 1 && d.State() == old(d.State())
    ensures file.Some? ==> status == 0 && d.State() == LoadedState(file.value)
  {
    if file.None? {
      return 1;
    }
    Init(d);
    var lines := file.value;
    if |lines| == 0 {
      return 0;
    }
    var i := 1;
    while i < |lines|
      invariant 1 <= i <= |lines|
      invariant d.State() == InitialTasks().(heads := LoadRows(InitialTasks().heads, lines[1..i]))
    {
      assert lines[1..i + 1] == lines[1..i] + [lines[i]];
      LoadRowsSnoc(InitialTasks().heads, lines[1..i], lines[i]);
      LoadLine(d, lines[i]);
      i := i + 1;
    }
    assert lines[1..i] == lines[1..];
    return 0;
  }

  // ---------------------------------------------------------------------------
  // What loading keeps

  /** Head 0 is unnamed and every head created by a row carries the row's
      non-empty head name: a loaded file always has the standalone layout. */
  lemma ApplyRowKeeps(heads: seq<Head<TaskItem>>, r: Row)
    requires WithinCapacity(heads) && StandaloneLayout(heads)
    ensures WithinCapacity(ApplyRow(heads, r)) && StandaloneLayout(ApplyRow(heads, r))
  {
    match Lookup(heads, r.head)
    case Some(i) => {}
    case None =>
      if |heads| < MAX_HEADS {
        var grown := heads + [Head(0, Truncate(r.head, MAX_NAME_LENGTH - 1), [])];
        assert r.head != "";
        assert Truncate(r.head, MAX_NAME_LENGTH - 1) != "";
        assert WithinCapacity(grown) && StandaloneLayout(grown);
      }
  }

  lemma {:induction false} LoadRowsKeep(heads: seq<Head<TaskItem>>, lines: seq<string>)
    requires WithinCapacity(heads) && StandaloneLayout(heads)
    ensures WithinCapacity(LoadRows(heads, lines)) && StandaloneLayout(LoadRows(heads, lines))
    decreases |lines|
  {
    if lines != [] {
      var before := LoadRows(heads, lines[..|lines| - 1]);
      LoadRowsKeep(heads, lines[..|lines| - 1]);
      match ParseRow(lines[|lines| - 1])
      case None =>
      case Some(r) => ApplyRowKeeps(before, r);
    }
  }

  /** Whatever the file holds, the loaded record is well formed for the task
      editor: head 0 exists and is the only unnamed head, capacities hold, the
      selection is on head 0 with no task and both modes are off. */
  lemma LoadedWellFormed(lines: seq<string>)
    ensures var s := LoadedState(lines);
      TasksWellFormed(s) && StandaloneLayout(s.heads) && !s.editMode && !s.moveMode
      && s.selectedHead == 0 && s.selectedTask == -1
  {
    var start := InitialTasks().heads;
    assert WithinCapacity(start) && StandaloneLayout(start);
    if lines != [] {
      LoadRowsKeep(start, lines[1..]);
    }
  }

  // ---------------------------------------------------------------------------
  // Round trip

  /** A row of a saved task parses back into its fields. */
  lemma ParseTaskRow(head: string, x: TaskItem)
    requires Plain(head) && Plain(x.description)
    ensures ParseRow(TaskRow(head, x) + "\n") == Some(Row(head, x.description, x.completed))
  {
    var b := BoolToString(x.completed);
    AtoiBoolToString(x.completed);
    assert NumberChars(b);
    RowChomp(head, x.description, b);
    Line3Fields(head, x.description, b, 3);
  }

  /** The row of an empty named head parses back to its name and an empty description. */
  lemma ParseEmptyHeadRow(head: string)
    requires Plain(head)
    ensures ParseRow(EmptyHeadRow(head) + "\n") == Some(Row(head, "", false))
  {
    var z := BoolToString(false);
    AtoiBoolToString(false);
    assert NumberChars(z);
    RowChomp(head, "", z);
    Line3Fields(head, "", z, 3);
  }

  /** Reading after writing is composition. */
  lemma {:induction false} LoadRowsAppend(heads: seq<Head<TaskItem>>, a: seq<string>, b: seq<string>)
    requires |heads| >= 1
    ensures LoadRows(heads, a + b) == LoadRows(LoadRows(heads, a), b)
    decreases |b|
  {
    if b == [] {
      assert a + b == a;
    } else {
      assert (a + b)[..|a + b| - 1] == a + b[..|b| - 1];
      LoadRowsAppend(heads, a, b[..|b| - 1]);
    }
  }

  lemma LoadRowsSnoc(heads: seq<Head<TaskItem>>, rows: seq<string>, line: string)
    requires |heads| >= 1
    ensures LoadRows(heads, rows + [line]) == ApplyLine(LoadRows(heads, rows), line)
  {
    assert (rows + [line])[..|rows|] == rows;
  }

  /** What the editor holds that a file can carry: the standalone layout,
      capacities, distinct head names, non-empty descriptions, and texts that
      fit their buffers and hold no quotes or line ends. */
  predicate Saveable(heads: seq<Head<TaskItem>>) {
    StandaloneLayout(heads) && WithinCapacity(heads) && DistinctNames(heads)
    && forall h :: 0 <= h < |heads| ==> SaveableHead(heads[h])
  }

  predicate SaveableHead(hd: Head<TaskItem>) {
    Plain(hd.name) && |hd.name| < MAX_NAME_LENGTH
    && forall t :: 0 <= t < |hd.tasks| ==> SaveableTask(hd.tasks[t])
  }

  predicate SaveableTask(x: TaskItem) {
    Plain(x.description) && x.description != [] && |x.description| < DESCRIPTION_SIZE
  }

  /** The tasks as loading gives them back: ids 0. */
  function Cleared(tasks: seq<TaskItem>): (r: seq<TaskItem>)
    ensures |r| == |tasks|
    ensures forall i :: 0 <= i < |r| ==> r[i] == tasks[i].(id := 0)
  {
    seq(|tasks|, i requires 0 <= i < |tasks| => tasks[i].(id := 0))
  }

  /** The heads as a load gives them back: head ids and task ids 0. */
  function Normalized(heads: seq<Head<TaskItem>>): (r: seq<Head<TaskItem>>)
    ensures |r| == |heads|
    ensures forall h :: 0 <= h < |r| ==> r[h] == Head(0, heads[h].name, Cleared(heads[h].tasks))
  {
    seq(|heads|, h requires 0 <= h < |heads| => Head(0, heads[h].name, Cleared(heads[h].tasks)))
  }

  lemma NormalizedSnoc(heads: seq<Head<TaskItem>>)
    requires heads != []
    ensures Normalized(heads) == Normalized(heads[..|heads| - 1])
      + [Head(0, heads[|heads| - 1].name, Cleared(heads[|heads| - 1].tasks))]
  {
  }

  lemma ClearedSnoc(tasks: seq<TaskItem>, k: nat)
    requires 1 <= k <= |tasks|
    ensures Cleared(tasks[..k]) == Cleared(tasks[..k - 1]) + [tasks[k - 1].(id := 0)]
  {
  }

  /** A head named name placed after base is where the loader files name's
      rows: head 0 when name is empty and base is empty, otherwise a named
      head no later head of base (from index 1) shares a name with. */
  predicate Fresh(base: seq<Head<TaskItem>>, name: string) {
    if name == "" then base == []
    else |base| >= 1 && forall j :: 1 <= j < |base| ==> base[j].name != name
  }

  lemma LookupLast(base: seq<Head<TaskItem>>, hd: Head<TaskItem>)
    requires Fresh(base, hd.name)
    ensures Lookup(base + [hd], hd.name) == Some(|base|)
  {
    if hd.name != "" {
      var cur := base + [hd];
      assert forall j :: 0 <= j < |cur| - 1 ==> cur[j] == base[j];
      FindNamedLast(cur, hd.name, 1);
    }
  }

  /** The row of a task of a named head that is not there yet creates the head with that task. */
  lemma FirstItemLoad(base: seq<Head<TaskItem>>, name: string, x: TaskItem)
    requires Fresh(base, name) && name != "" && |base| < MAX_HEADS
    requires Plain(name) && |name| < MAX_NAME_LENGTH && SaveableTask(x)
    ensures ApplyLine(base, TaskRow(name, x) + "\n") == base + [Head(0, name, [x.(id := 0)])]
  {
    ParseTaskRow(name, x);
    FirstRowApplies(base, TaskRow(name, x) + "\n", Row(name, x.description, x.completed));
    assert x.(id := 0) == TaskItem(0, x.description, x.completed);
  }

  /** A row naming a head that is not there yet makes that head, with the row's task. */
  lemma FirstRowApplies(base: seq<Head<TaskItem>>, line: string, r: Row)
    requires ParseRow(line) == Some(r) && Fresh(base, r.head) && r.head != ""
    requires |base| < MAX_HEADS && |r.head| < MAX_NAME_LENGTH
    requires r.description != [] && |r.description| < DESCRIPTION_SIZE
    ensures ApplyLine(base, line) == base + [Head(0, r.head, [TaskItem(0, r.description, r.completed)])]
  {
    assert FindNamed(base, r.head, 1).None?;
    assert Truncate(r.head, MAX_NAME_LENGTH - 1) == r.head;
    assert Truncate(r.description, DESCRIPTION_SIZE - 1) == r.description;
    var grown := base + [Head(0, r.head, [])];
    assert ApplyRow(base, r) == AddTask(grown, |base|, r);
    assert [] + [TaskItem(0, r.description, r.completed)] == [TaskItem(0, r.description, r.completed)];
  }

  /** The row of a task of the last head, when the loader files that name there, appends it. */
  lemma NextItemLoad(base: seq<Head<TaskItem>>, name: string, items: seq<TaskItem>, x: TaskItem)
    requires Fresh(base, name) && |items| < MAX_TASKS_PER_HEAD && Plain(name) && SaveableTask(x)
    ensures ApplyLine(base + [Head(0, name, items)], TaskRow(name, x) + "\n")
      == base + [Head(0, name, items + [x.(id := 0)])]
  {
    ParseTaskRow(name, x);
    NextRowApplies(base, items, TaskRow(name, x) + "\n", Row(name, x.description, x.completed));
    assert x.(id := 0) == TaskItem(0, x.description, x.completed);
  }

  /** A row naming the last head, when the loader files that name there, appends its task. */
  lemma NextRowApplies(base: seq<Head<TaskItem>>, items: seq<TaskItem>, line: string, r: Row)
    requires ParseRow(line) == Some(r) && Fresh(base, r.head) && |items| < MAX_TASKS_PER_HEAD
    requires r.description != [] && |r.description| < DESCRIPTION_SIZE
    ensures ApplyLine(base + [Head(0, r.head, items)], line)
      == base + [Head(0, r.head, items + [TaskItem(0, r.description, r.completed)])]
  {
    var cur := base + [Head(0, r.head, items)];
    LookupLast(base, Head(0, r.head, items));
    assert Truncate(r.description, DESCRIPTION_SIZE - 1) == r.description;
    assert AddTask(cur, |base|, r) == cur[|base| := Head(0, r.head, items + [TaskItem(0, r.description, r.completed)])];
  }

  /** What the rows of the first k tasks of a head, read from start, produce:
      base followed by that head with those k tasks. */
  predicate ItemsLoaded(start: seq<Head<TaskItem>>, base: seq<Head<TaskItem>>, hd: Head<TaskItem>, k: nat)
    requires |start| >= 1 && k <= |hd.tasks|
  {
    LoadRows(start, ItemRows(hd.name, hd.tasks[..k])) == base + [Head(0, hd.name, Cleared(hd.tasks[..k]))]
  }

  lemma ItemsLoadFirst(base: seq<Head<TaskItem>>, hd: Head<TaskItem>)
    requires 1 <= |hd.tasks| && |base| < MAX_HEADS && SaveableHead(hd)
    requires Fresh(base, hd.name) && hd.name != ""
    ensures ItemsLoaded(base, base, hd, 1)
  {
    var x := hd.tasks[0];
    assert SaveableTask(x);
    var line := TaskRow(hd.name, x) + "\n";
    ItemRowsSnoc(hd.name, hd.tasks, 1);
    assert ItemRows(hd.name, hd.tasks[..1]) == [] + [line];
    LoadRowsSnoc(base, [], line);
    ClearedSnoc(hd.tasks, 1);
    FirstItemLoad(base, hd.name, x);
  }

  lemma ItemsLoadNext(start: seq<Head<TaskItem>>, base: seq<Head<TaskItem>>, hd: Head<TaskItem>, k: nat)
    requires |start| >= 1 && 1 <= k <= |hd.tasks| <= MAX_TASKS_PER_HEAD && SaveableHead(hd)
    requires Fresh(base, hd.name)
    requires ItemsLoaded(start, base, hd, k - 1)
    ensures ItemsLoaded(start, base, hd, k)
  {
    var x := hd.tasks[k - 1];
    assert SaveableTask(x);
    var line := TaskRow(hd.name, x) + "\n";
    var rows := ItemRows(hd.name, hd.tasks[..k - 1]);
    ItemRowsSnoc(hd.name, hd.tasks, k);
    LoadRowsSnoc(start, rows, line);
    ClearedSnoc(hd.tasks, k);
    NextItemLoad(base, hd.name, Cleared(hd.tasks[..k - 1]), x);
  }

  /** From a state where the first j tasks are in, the rest follow one by one. */
  lemma {:induction false} ItemsLoadFrom(start: seq<Head<TaskItem>>, base: seq<Head<TaskItem>>, hd: Head<TaskItem>, j: nat, k: nat)
    requires |start| >= 1 && j <= k <= |hd.tasks| <= MAX_TASKS_PER_HEAD && SaveableHead(hd)
    requires Fresh(base, hd.name) && ItemsLoaded(start, base, hd, j)
    ensures ItemsLoaded(start, base, hd, k)
    decreases k - j
  {
    if j < k {
      ItemsLoadNext(start, base, hd, j + 1);
      ItemsLoadFrom(start, base, hd, j + 1, k);
    }
  }

  /** The rows of head 0 read into the fresh record fill head 0. */
  lemma StandaloneLoad(hd: Head<TaskItem>)
    requires hd.name == "" && |hd.tasks| <= MAX_TASKS_PER_HEAD && SaveableHead(hd)
    ensures LoadRows(InitialTasks().heads, HeadRows(hd, 0)) == [Head(0, "", Cleared(hd.tasks))]
  {
    var start := InitialTasks().heads;
    assert hd.tasks[..0] == [];
    assert ItemsLoaded(start, [], hd, 0);
    ItemsLoadFrom(start, [], hd, 0, |hd.tasks|);
    assert hd.tasks[..|hd.tasks|] == hd.tasks;
    assert ItemsLoaded(start, [], hd, |hd.tasks|);
  }

  /** The rows of a named head at index h > 0, read after heads that do not
      carry its name, add that head. */
  lemma HeadLoad(base: seq<Head<TaskItem>>, hd: Head<TaskItem>, h: nat)
    requires h > 0 && hd.name != "" && |base| < MAX_HEADS && |hd.tasks| <= MAX_TASKS_PER_HEAD && SaveableHead(hd)
    requires Fresh(base, hd.name)
    ensures LoadRows(base, HeadRows(hd, h)) == base + [Head(0, hd.name, Cleared(hd.tasks))]
  {
    if hd.tasks == [] {
      EmptyHeadLoad(base, hd.name);
    } else {
      ItemsLoadFirst(base, hd);
      ItemsLoadFrom(base, base, hd, 1, |hd.tasks|);
      assert hd.tasks[..|hd.tasks|] == hd.tasks;
    }
  }

  /** The row of an empty named head, read after heads that do not carry its name, adds it. */
  lemma EmptyHeadLoad(base: seq<Head<TaskItem>>, name: string)
    requires name != "" && Plain(name) && |name| < MAX_NAME_LENGTH && |base| < MAX_HEADS && Fresh(base, name)
    ensures LoadRows(base, [EmptyHeadRow(name) + "\n"]) == base + [Head(0, name, [])]
  {
    ParseEmptyHeadRow(name);
    EmptyRowApplies(base, EmptyHeadRow(name) + "\n", name);
    LoadRowsSnoc(base, [], EmptyHeadRow(name) + "\n");
    assert [] + [EmptyHeadRow(name) + "\n"] == [EmptyHeadRow(name) + "\n"];
  }

  /** The row of an empty named head, naming a head that is not there yet, makes that head empty. */
  lemma EmptyRowApplies(base: seq<Head<TaskItem>>, line: string, name: string)
    requires ParseRow(line) == Some(Row(name, "", false)) && Fresh(base, name) && name != ""
    requires |base| < MAX_HEADS && |name| < MAX_NAME_LENGTH
    ensures ApplyLine(base, line) == base + [Head(0, name, [])]
  {
    assert FindNamed(base, name, 1).None?;
    assert Truncate(name, MAX_NAME_LENGTH - 1) == name;
  }

  /** Dropping the last of two or more saveable heads leaves saveable heads,
      after which, even cleared, the loader files the last head's name anew. */
  lemma SaveablePrefix(heads: seq<Head<TaskItem>>)
    requires Saveable(heads) && |heads| >= 2
    ensures var n := |heads|; var pre := heads[..n - 1]; var last := heads[n - 1];
      Saveable(pre) && SaveableHead(last) && |last.tasks| <= MAX_TASKS_PER_HEAD && last.name != ""
      && |Normalized(pre)| < MAX_HEADS && Fresh(Normalized(pre), last.name)
  {
    var n := |heads|;
    var pre := heads[..n - 1];
    assert forall i :: 0 <= i < |pre| ==> pre[i] == heads[i];
    forall j | 1 <= j < |Normalized(pre)|
      ensures Normalized(pre)[j].name != heads[n - 1].name
    {
      assert Normalized(pre)[j].name == heads[j].name;
    }
  }

  lemma {:induction false} AllRowsLoad(heads: seq<Head<TaskItem>>)
    requires Saveable(heads)
    ensures LoadRows(InitialTasks().heads, AllRows(heads)) == Normalized(heads)
  {
    if |heads| == 1 {
      OneHeadLoad(heads);
    } else {
      SaveablePrefix(heads);
      AllRowsLoad(heads[..|heads| - 1]);
      NextHeadLoad(heads);
    }
  }

  /** The rows of the layout's head 0 alone load back into it. */
  lemma OneHeadLoad(heads: seq<Head<TaskItem>>)
    requires Saveable(heads) && |heads| == 1
    ensures LoadRows(InitialTasks().heads, AllRows(heads)) == Normalized(heads)
  {
    var last := heads[0];
    assert SaveableHead(last);
    assert heads[..0] == [];
    assert AllRows(heads) == [] + HeadRows(last, 0) == HeadRows(last, 0);
    StandaloneLoad(last);
    NormalizedSnoc(heads);
  }

  /** When all heads but the last load back, the last head's rows add it. */
  lemma NextHeadLoad(heads: seq<Head<TaskItem>>)
    requires Saveable(heads) && |heads| >= 2
    requires LoadRows(InitialTasks().heads, AllRows(heads[..|heads| - 1])) == Normalized(heads[..|heads| - 1])
    ensures LoadRows(InitialTasks().heads, AllRows(heads)) == Normalized(heads)
  {
    SaveablePrefix(heads);
    LoadRowsAppend(InitialTasks().heads, AllRows(heads[..|heads| - 1]), HeadRows(heads[|heads| - 1], |heads| - 1));
    HeadLoad(Normalized(heads[..|heads| - 1]), heads[|heads| - 1], |heads| - 1);
    NormalizedSnoc(heads);
  }

  /** Saving and loading again gives back the record's heads in order, with
      ids 0; the selection and modes are reset. */
  lemma SaveLoadRoundTrip(heads: seq<Head<TaskItem>>)
    requires Saveable(heads)
    ensures LoadedState(SaveLines(heads)) == InitialTasks().(heads := Normalized(heads))
  {
    AllRowsLoad(heads);
    assert SaveLines(heads)[1..] == AllRows(heads);
  }

  // ---------------------------------------------------------------------------
  // Head 0 moved away

  /** As written, move mode can exchange head 0 with head 1 (the record of
      Tasks.UnnamedHeadCanMove): "Work" ends up at index 0. The saver then
      treats "Work" as the empty head 0 and omits it, and the reloaded record
      has lost it, although the record before the move saves and loads back
      whole. */
  lemma MovedHeadLostOnReload()
    ensures var t := TaskItem(1, "t", false);
      && Saveable([Head(0, "", [t]), Head(2, "Work", [])])
      && LoadedState(SaveLines([Head(2, "Work", []), Head(0, "", [t])])).heads == [Head(0, "", [t.(id := 0)])]
  {
    var t := TaskItem(1, "t", false);
    UnmovedSaveable(t);
    MovedRows(t);
    ParseTaskRow("", t);
    HeadZeroRowLoads(TaskRow("", t) + "\n", Row("", "t", false));
    LoadedOfSaved([Head(2, "Work", []), Head(0, "", [t])]);
  }

  /** Before the move, the unnamed head with one task followed by the empty head "Work" is saveable. */
  lemma UnmovedSaveable(t: TaskItem)
    requires t == TaskItem(1, "t", false)
    ensures Saveable([Head(0, "", [t]), Head(2, "Work", [])])
  {
    var before := [Head(0, "", [t]), Head(2, "Work", [])];
    assert SaveableHead(before[0]) && SaveableHead(before[1]);
  }

  /** With the empty head "Work" at index 0, only the task of the unnamed head is written. */
  lemma MovedRows(t: TaskItem)
    ensures AllRows([Head(2, "Work", []), Head(0, "", [t])]) == [TaskRow("", t) + "\n"]
  {
    var moved := [Head(2, "Work", []), Head(0, "", [t])];
    assert moved[..1] == [Head(2, "Work", [])];
    assert moved[..1][..0] == [];
    assert AllRows(moved[..1]) == [];
    assert ItemRows("", [t]) == [TaskRow("", t) + "\n"];
  }

  /** A single row of the unnamed head, read into the initial record, gives head 0 that one task. */
  lemma HeadZeroRowLoads(line: string, r: Row)
    requires ParseRow(line) == Some(r) && r.head == ""
    requires r.description != [] && |r.description| < DESCRIPTION_SIZE
    ensures LoadRows(InitialTasks().heads, [line]) == [Head(0, "", [TaskItem(0, r.description, r.completed)])]
  {
    LoadRowsSnoc(InitialTasks().heads, [], line);
    assert [] + [line] == [line];
    assert Truncate(r.description, DESCRIPTION_SIZE - 1) == r.description;
    assert [] + [TaskItem(0, r.description, r.completed)] == [TaskItem(0, r.description, r.completed)];
  }

  /** What a load of a saved file reads: the rows after the header. */
  lemma LoadedOfSaved(heads: seq<Head<TaskItem>>)
    ensures LoadedState(SaveLines(heads)).heads == LoadRows(InitialTasks().heads, AllRows(heads))
  {
    assert SaveLines(heads)[1..] == AllRows(heads);
  }
}
