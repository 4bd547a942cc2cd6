# zinc: a verified model of the list editors, the pomodoro timer and the switcher

zinc is a small ncurses productivity tool in C. This project models four of its
parts in Dafny and proves properties about them:

- **The habit editor** (`modules/habit_manager.c`). Habits are grouped under
  up to 8 heads of up to 12 habits each. Every habit has a streak and a
  done-today flag.
- **The task editor** (`modules/task_manager.c`). It has the same two-level
  list, with tasks that carry a completed flag. Head 0 is an unnamed head for
  standalone tasks.
- **The pomodoro timer** (`modules/pomodoro_manager.c`). It alternates work
  and rest sessions, in a standard or a progressive cycle. A small editor
  reads a new time as four digits MMSS.
- **The switcher** (`src/minimal_tui.c`). Its panel lists the modules. In
  module view it hands keys to the chosen module, and its exit state stops
  the main loop.

The two list editors share one key-handling core. It works on an
`EditorState` value: the heads, the selected head, the selected item (-1 for
the head itself), and the edit and move flags.

- **Normal mode** walks the items in flattened order, wrapping around at both
  ends. Space toggles the selected item.
- **Edit mode** walks a ring of heads and items. R+U adds a head, R+I inserts
  an item after the selection, D (habits) or X (tasks) deletes, and S enters
  move mode.
- **Move mode** swaps heads, swaps items, and carries an item across a head
  boundary.

The C handlers mutate one static record. The model keeps that record as the
class `Lists.ListData`. Each handler there is a method, specified against a
step function on `EditorState`, and the lemmas are stated about those step
functions. The storage modules model the CSV files:

- what `habits_save` and `tasks_save` write, line by line;
- what `habits_load` and `tasks_load` build from a list of lines, including
  the quoted-field splitter `parse_csv_line`, `atoi` and the line-end
  stripping;
- a save-then-load round trip for every record the format can represent.

The pomodoro record is the class `Pomodoro.PomodoroData`. Its `edit_buffer`
is a 5-character array, and each method is specified against a function on a
`Timer` value. The switcher is the class `Tui.MinimalTui`. Its key handler
returns the module a key must be forwarded to, instead of calling through a
function pointer.

Files:

- `keys.dfy`: key codes.
- `csv.dfy`: the CSV splitter, `atoi` and `%d`.
- `store.dfy`: heads and sequence primitives.
- `cursor.dfy`: the selection and navigation.
- `editor.dfy`: the shared edit and move logic.
- `listdata.dfy`: the mutable record.
- `habits.dfy`, `habits_storage.dfy`, `tasks.dfy`, `tasks_storage.dfy`: the two editors and their files.
- `pomodoro.dfy`: the timer.
- `tui.dfy`: the switcher.

## Model

| member | source | states |
|---|---|---|
| Csv.ParseCsvLine | modules/habit_manager.c:428-460 | The splitting loop returns exactly `SplitFields(line, max)`: at most `max` fields, each ending at a comma, or running from an opening quote to the next quote |
| Csv.ScanField | modules/habit_manager.c:433-454 | One pass over a field finds its start, end and the index of the next field, as `FieldBounds` defines them |
| Csv.CopyField | modules/habit_manager.c:456 | The copied field is exactly the characters of the line between the bounds |
| Csv.SplitFields | modules/task_manager.c:441-473 | The splitter never returns more fields than the caller's limit |
| Csv.FieldBounds | modules/habit_manager.c:433-454 | A field's start and end lie within the line, and the next field starts after the current position |
| Csv.SplitFrom | modules/habit_manager.c:432-457 | The fields from position p never number more than the limit |
| Csv.Atoi | modules/habit_manager.c:519-520 | `atoi` of the empty text is 0, a leading minus gives a value at most 0, and anything else a value at least 0 |
| Csv.IntToString | modules/habit_manager.c:543-547 | `%d` prints only a sign and digits |
| Csv.Line4Fields | modules/habit_manager.c:543-547 | A row `"a","b",c,d` as the habit saver writes it splits back into exactly a, b, c, d when a and b hold no quote and c, d are bare |
| Csv.Line3Fields | modules/task_manager.c:555-558 | A row `"a","b",c` as the task saver writes it splits back into exactly a, b, c |
| Csv.Chomp | modules/habit_manager.c:478 | The result is the longest prefix with no CR, LF or NUL, and stops at the first one |
| Csv.ChompLine | modules/habit_manager.c:478 | A row written with a trailing newline reads back as the row |
| Csv.RowChomp | modules/habit_manager.c:478 | A saved CSV row with two quoted names and numeric fields loses exactly its newline |
| Csv.AtoiIntToString | modules/habit_manager.c:519 | `atoi` of what `%d` prints for any integer gives that integer back, and the text holds no comma or quote |
| Csv.AtoiBoolToString | modules/habit_manager.c:520 | `atoi` of the printed flag is non-zero exactly when the flag was true |
| Csv.NatToString | modules/habit_manager.c:543-547 | The decimal text of n is all digits and its digit value is n |
| Store.InsertAt | modules/habit_manager.c:234-241 | x lands at p, items before p keep their places, later items shift right by one, and the multiset grows by x |
| Store.RemoveAt | modules/habit_manager.c:276-280 | Items after p shift left by one, earlier ones stay, and the multiset loses exactly `s[p]` |
| Store.RemoveInsert | modules/habit_manager.c:234-241 | Removing what was just inserted at p restores the sequence |
| Store.InsertRemove | modules/habit_manager.c:276-280 | Re-inserting the removed item at its position restores the sequence |
| Store.SwapAdjacent | modules/habit_manager.c:137-141 | Two neighbours are exchanged and every other entry stays |
| Store.SwapTwice | modules/habit_manager.c:125-131 | Swapping the same pair twice restores the sequence |
| Store.ShiftLeftRemoves | modules/task_manager.c:280-285 | The memmove left by one, then dropping the last slot, is removal at p |
| Store.TotalFlatten | modules/habit_manager.c:339-342 | The item count summed over the heads equals the length of the flattened item list |
| Store.FlattenAppend | modules/habit_manager.c:339-342 | The flattened items of two head lists concatenated are the two flattened lists concatenated |
| Store.OffsetFlatten | modules/habit_manager.c:359-406 | The position of head h's first item in flattened order is the number of items in the heads before h |
| Store.Truncate | modules/habit_manager.c:503-504 | The copied name is a prefix of at most n characters, and it equals the source exactly when the source fits |
| Store.FindNamed | modules/habit_manager.c:491-497 | The first head from `from` on with the name. None exactly when no such head exists |
| Store.ScanNamed | modules/habit_manager.c:491-497 | The lookup loop returns `FindNamed` |
| Cursor.FirstNonEmptyFrom | modules/habit_manager.c:388-395 | The first head at or after i that has items, with all heads between empty. None exactly when all are empty |
| Cursor.LastNonEmptyBelow | modules/habit_manager.c:364-371 | The last head below k that has items. None exactly when all heads below k are empty |
| Cursor.ScanForward | modules/habit_manager.c:388-395 | The forward search loop returns `FirstNonEmptyFrom` |
| Cursor.ScanBackward | modules/habit_manager.c:364-371 | The backward search loop returns `LastNonEmptyBelow` |
| Cursor.CountTasks | modules/habit_manager.c:339-342 | The counting loop returns the total number of items |
| Cursor.ForwardScanFinds | modules/habit_manager.c:52-58 | When any head has items, the scan from head 0 finds one |
| Cursor.BackwardScanFinds | modules/habit_manager.c:372-380 | When any head has items, the scan from the last head finds one |
| Cursor.EnsureSelected | modules/habit_manager.c:48-59 | `ensure_task_selected` changes only the selection, keeps it valid, and leaves an item selection alone |
| Cursor.NormalDown | modules/habit_manager.c:383-406 | Down in normal mode changes only the selection and stays on an item |
| Cursor.NormalUp | modules/habit_manager.c:359-382 | Up in normal mode changes only the selection and stays on an item |
| Cursor.EditUp | modules/habit_manager.c:290-308 | Up in edit mode changes only the selection, and keeps it valid when a head exists |
| Cursor.EditDown | modules/habit_manager.c:309-331 | Down in edit mode changes only the selection, and keeps it valid when a head exists |
| Cursor.EnsureSelectedSpec | modules/habit_manager.c:48-59 | `ensure_task_selected` keeps heads and modes and an item selection, moves the selection to the first item of the first non-empty head when it is not on an item, and is idempotent |
| Cursor.NormalDownRotates | modules/habit_manager.c:383-406 | Down in normal mode moves to the next item in flattened order, from the last item to the first |
| Cursor.DownToNext | modules/habit_manager.c:386-395 | Down from a head's last item goes to the first item of the next non-empty head |
| Cursor.DownWraps | modules/habit_manager.c:396-404 | Down from the very last item wraps to the first item of the first non-empty head |
| Cursor.NormalUpRotates | modules/habit_manager.c:359-382 | Up in normal mode moves to the previous item in flattened order, from the first item to the last |
| Cursor.UpToPrevious | modules/habit_manager.c:362-371 | Up from a head's first item goes to the last item of the previous non-empty head |
| Cursor.UpWraps | modules/habit_manager.c:372-380 | Up from the very first item wraps to the last item of the last non-empty head |
| Cursor.RankInjective | modules/habit_manager.c:359-406 | Two item selections with the same flattened position are the same selection |
| Cursor.DownTimes | modules/habit_manager.c:383-406 | Pressing down k times stays on an item and leaves the heads alone |
| Cursor.DownTimesRank | modules/habit_manager.c:383-406 | k downs advance the flattened position by k, modulo the item count |
| Cursor.NormalTraversalCovers | modules/habit_manager.c:383-406 | Every item is reached from any other in fewer downs than there are items, and that many downs return to the start |
| Cursor.EditDownRotates | modules/habit_manager.c:309-331 | Down in edit mode walks heads and their items as one ring of stops (head, its items, next head …) |
| Cursor.EditUpRotates | modules/habit_manager.c:290-308 | Up in edit mode walks the same ring backwards |
| Cursor.EditUpToPreviousHead | modules/habit_manager.c:295-306 | Up from a head goes to the last item of the previous head, or to that head when it has no items |
| Cursor.EditUpWraps | modules/habit_manager.c:298-306 | Up from head 0 wraps to the last stop of the last head |
| Cursor.EditUpAfterDown | modules/habit_manager.c:290-331 | Up undoes down in edit mode |
| Cursor.EditRankInjective | modules/habit_manager.c:290-331 | Two edit selections at the same ring position are the same selection |
| Editor.MoveStep | modules/habit_manager.c:121-199 | Move mode keeps the record well formed, the head count and the multiset of items. S or ESC leaves move mode and changes nothing else. Other keys stay in move mode |
| Editor.MoveStepArrows | modules/habit_manager.c:124-197 | The arrows in move mode are the up-move and the down-move |
| Editor.MoveUp | modules/habit_manager.c:124-161 | The up-move keeps the head count and both modes, and leaves a valid selection |
| Editor.MoveDown | modules/habit_manager.c:162-197 | The down-move keeps the head count and both modes, and leaves a valid selection |
| Editor.MoveUpKeeps | modules/habit_manager.c:124-161 | The up-move keeps well-formedness, the head count, move mode and the multiset of items |
| Editor.MoveDownKeeps | modules/habit_manager.c:162-197 | The down-move keeps the same |
| Editor.SwapKeepsItems | modules/habit_manager.c:127-129 | Swapping two heads keeps the multiset of items |
| Editor.ItemSwapKeeps | modules/habit_manager.c:138-140 | Swapping two items in a head keeps capacities and the multiset of items |
| Editor.InsertKeepsItems | modules/habit_manager.c:234-246 | Inserting into a head below capacity keeps capacities and adds exactly the new item |
| Editor.RemoveKeepsItems | modules/habit_manager.c:276-280 | Removing an item keeps capacities and loses exactly that item |
| Editor.RemoveHeadKeeps | modules/habit_manager.c:262-266 | Removing a head keeps capacities and loses exactly that head's items |
| Editor.CrossUpKeepsOrder | modules/habit_manager.c:142-159 | Moving a head's first item up appends it to the previous head, keeps the flattened order and the other heads, and selects the item, or that head when the source head is left empty |
| Editor.CrossUpShape | modules/habit_manager.c:142-159 | The whole record after an item crosses up |
| Editor.CrossDownKeepsOrder | modules/habit_manager.c:180-194 | Moving a head's last item down prepends it to the next head, keeps the flattened order and the other heads, and selects it |
| Editor.CrossDownShape | modules/habit_manager.c:180-194 | The whole record after an item crosses down |
| Editor.CrossIntoFullHeadStays | modules/habit_manager.c:142-195 | A full neighbouring head blocks a crossing, and nothing changes |
| Editor.ItemUpShape | modules/habit_manager.c:137-141 | Moving an item up swaps it with its predecessor and follows it |
| Editor.ItemDownShape | modules/habit_manager.c:175-179 | Moving an item down swaps it with its successor and follows it |
| Editor.ItemDownThenUp | modules/habit_manager.c:137-141 | Moving an item down and back up restores the record |
| Editor.MoveDownThenUpRestores | modules/habit_manager.c:175-179 | Down then up in move mode on a non-last item restores the record |
| Editor.CrossUpThenDownRestores | modules/habit_manager.c:142-159 | An item that crossed up comes back by crossing down, when its old head kept other items |
| Editor.CrossBackRestores | modules/habit_manager.c:180-194 | The down-move undoes a crossing up |
| Editor.HeadUpThenDownRestores | modules/habit_manager.c:125-131 | Moving a head up and back down restores the record |
| Editor.HeadDownThenUpRestores | modules/habit_manager.c:163-169 | Moving a head down and back up restores the record |
| Editor.HeadAtEndStays | modules/habit_manager.c:125-169 | The first head cannot move up and the last cannot move down |
| Editor.AddHead | modules/habit_manager.c:213-224 | R+U with room and a name appends an empty head numbered count+1 and selects it. Otherwise nothing changes. Existing heads and items are kept |
| Editor.AddThenDeleteHeadRestores | modules/habit_manager.c:213-224 | Deleting a head that was just added restores the heads |
| Editor.InsertPos | modules/habit_manager.c:230 | The insertion point is within the selected head |
| Editor.InsertItem | modules/habit_manager.c:225-250 | Insertion keeps well-formedness and the other heads, selects the new item at the insertion point, and adds exactly that item |
| Editor.InsertItemFields | modules/habit_manager.c:234-248 | The whole record after an insertion |
| Editor.DeleteItem | modules/habit_manager.c:273-288 | Deletion removes exactly the selected item from its head, keeps the other heads and well-formedness, and selects the head when it empties |
| Editor.DeleteItemFields | modules/habit_manager.c:276-286 | The whole record after a deletion, with the selection clamped to the last remaining item |
| Editor.InsertThenDeleteRestores | modules/habit_manager.c:225-288 | Deleting an item just inserted restores the heads and the head selection |
| Editor.DeleteHead | modules/habit_manager.c:260-272 | Deleting a head removes exactly it and its items, keeps well-formedness, and clamps the head selection |
| Editor.StartMove | modules/habit_manager.c:256-258 | S enters move mode exactly when there is a head to move |
| Editor.NormalStep | modules/habit_manager.c:337-406 | Normal mode keeps the heads. E+I is the only way into edit mode. With no items only the mode can change, and with items the selection ends on an item |
| Editor.EditStep | modules/habit_manager.c:202-335 | The edit-mode keys other than the R chord and D keep the heads. E+I or ESC leaves edit mode, and move mode starts only on S |
| Editor.EditUpKeeps | modules/habit_manager.c:290-308 | Up in edit mode keeps the heads and a valid selection |
| Editor.EditDownKeeps | modules/habit_manager.c:309-331 | Down in edit mode keeps the heads and a valid selection |
| Editor.FinishChord | modules/habit_manager.c:252-253 | After a chord, move mode is off, heads and edit mode stay, and an item selection is untouched |
| Lists.ShiftOutByLoop | modules/habit_manager.c:277-280 | The element-by-element shift loop removes position p |
| Lists.ShiftOutByMove | modules/task_manager.c:299-304 | The memmove shift removes position p |
| Lists.ListData.constructor | modules/structs.h:46-53 | The record holds the given editor state |
| Lists.ListData.EnsureTaskSelected | modules/habit_manager.c:48-59 | The record after the in-place search is `EnsureSelected` of the old one |
| Lists.ListData.EditKey | modules/habit_manager.c:202-335 | The in-place edit-mode keys (E+I, S, arrows, ESC) give `EditStep` of the old record |
| Lists.ListData.MoveInput | modules/habit_manager.c:120-199 | The in-place move-mode handler gives `MoveStep` of the old record |
| Lists.ListData.MoveUpInPlace | modules/habit_manager.c:124-161 | The in-place up-move gives `MoveUp` of the old record |
| Lists.ListData.MoveDownInPlace | modules/habit_manager.c:162-197 | The in-place down-move gives `MoveDown` of the old record |
| Lists.ListData.EditNavigate | modules/habit_manager.c:290-331 | The in-place edit-mode arrows give `EditUp` or `EditDown` |
| Lists.ListData.NormalNavigate | modules/habit_manager.c:359-406 | The in-place normal-mode arrows with their search loops give `NormalUp` or `NormalDown` |
| Lists.ListData.AppendHead | modules/habit_manager.c:213-224 | Appending a head in place gives `AddHead` |
| Lists.ListData.InsertAtSelection | modules/habit_manager.c:226-250 | The memmove of the later items and the store at the insertion point give `InsertItem` |
| Lists.ListData.DeleteHeadByLoop | modules/habit_manager.c:260-272 | The habit editor's shift loop gives `DeleteHead` |
| Lists.ListData.DeleteHeadByMove | modules/task_manager.c:276-293 | The task editor's memmove gives the same `DeleteHead` |
| Lists.ListData.ClampHead | modules/habit_manager.c:267-271 | The head selection is pulled back to the last head, or to 0 with no heads |
| Lists.ListData.DeleteItemByLoop | modules/habit_manager.c:273-288 | The habit editor's item deletion gives `DeleteItem` |
| Lists.ListData.DeleteItemByMove | modules/task_manager.c:294-313 | The task editor's memmove item deletion gives `DeleteItem` |
| Lists.ListData.ClampItem | modules/habit_manager.c:281-286 | The item selection is pulled back to the last item, or to the head when none is left |
| Habits.InitialHabits | modules/habit_manager.c:10-16 | The corrected start, with the head selected (-1) where C selects item 0: well formed, no heads, both modes off |
| Habits.InitialHabitsAsWritten | modules/habit_manager.c:10-16 | The start as written: no heads, both modes off, and a selection (item 0) that names no item |
| Habits.InitialSelectionAsWrittenIsInvalid | modules/habit_manager.c:13 | The written start selects a missing item. After loading an empty head and entering edit mode, R+I would insert past the head's live items |
| Habits.InitialSelectionCorrected | modules/habit_manager.c:230 | From the corrected start, the same state is well formed and R+I inserts at position 0 |
| Habits.Init | modules/habit_manager.c:10-16 | `habits_init` sets the record to the corrected start, not to the written one |
| Habits.Toggle | modules/habit_manager.c:414-421 | Toggling flips done-today, adds one to the streak when marking done, takes one off a positive streak when unmarking, and keeps streaks non-negative |
| Habits.ToggleTwice | modules/habit_manager.c:414-421 | Toggling twice restores the habit, except when a habit is done with streak 0, which then reads streak 1 |
| Habits.SetHabit | modules/habit_manager.c:414-421 | Replacing one habit keeps every other habit and head |
| Habits.ToggleSelected | modules/habit_manager.c:407-423 | Space keeps the selection, the modes and every other habit and head, and replaces the selected habit by its toggle |
| Habits.SpaceTogglesOnlySelected | modules/habit_manager.c:351-423 | In normal mode with habits, space selects as `ensure_task_selected` does, flips that one habit's flag, adjusts its streak, and changes nothing else |
| Habits.NoItemsOnlyEditChord | modules/habit_manager.c:343-349 | With no habits, normal mode ignores every key except E+I |
| Habits.CanInsertAsWritten | modules/habit_manager.c:229 | The written R+I guard: a non-negative head index whose array slot, live or stale, has room. With no heads only the stale count of slot 0 decides |
| Habits.SlotItems | modules/habit_manager.c:233-245 | The cells of an array slot that its count makes visible |
| Habits.InsertIntoMissingHeadAsWritten | modules/habit_manager.c:229-248 | R+I under the written guard with no heads: the selection moves to the insertion point, no live head changes, the slot's count grows and the habit is written at the insertion point. Below the count the slot shows the insertion. Past the count it shows its stale cell instead of the habit |
| Habits.ShiftWrite | modules/habit_manager.c:233-245 | The memmove and the write keep the slot size and put the habit at the insertion point |
| Habits.WriteAfterShift | modules/habit_manager.c:233-245 | Below the count the memmove and write insert the habit among the shown cells. Past the count they leave the shown cells as they were, plus the stale cell at the count |
| Habits.GuardAdmitsMissingHead | modules/habit_manager.c:226-250 | From the written start in edit mode, the written R+I guard admits the zeroed slot. The insertion point is 1, the slot then shows a zeroed habit while the typed one lies past its count, and the selection names item 1 of no head. The corrected guard refuses |
| Habits.GuardsAgreeWithHeads | modules/habit_manager.c:229 | Whenever a head exists, the written and the corrected guards agree |
| Habits.ChordR | modules/habit_manager.c:211-255 | The R chords (R+U, R+I, the latter under the corrected guard) keep the record well formed |
| Habits.Delete | modules/habit_manager.c:259-289 | D keeps the record well formed |
| Habits.Step | modules/habit_manager.c:119-426 | Every key in every mode keeps the record well formed, with R+I under the corrected guard |
| Habits.RIInserts | modules/habit_manager.c:225-251 | R+I with a name and room inserts the new habit (id count+1, streak 0) at the insertion point |
| Habits.DDeletesItem | modules/habit_manager.c:273-288 | D on a habit deletes exactly it |
| Habits.InsertThenDeleteHabit | modules/habit_manager.c:225-288 | R+I then D restores the heads |
| Habits.MoveModeEntry | modules/habit_manager.c:256-258 | Move mode is entered only by S in edit mode with a head present |
| Habits.HandleInput | modules/habit_manager.c:119-426 | The in-place handler, given the chord key and the prompt text, gives `Step` of the old record, R+I under the corrected guard |
| Habits.EditInput | modules/habit_manager.c:202-336 | The in-place edit-mode handler gives `Step`, R+I under the corrected guard |
| Habits.DeleteInput | modules/habit_manager.c:259-289 | The in-place D gives `Delete` |
| Habits.ChordInput | modules/habit_manager.c:211-255 | The in-place R chord gives `FinishChord(ChordR(…))`, R+I under the corrected guard |
| Habits.ChordBody | modules/habit_manager.c:212-251 | The body of the R chord gives `ChordR`, R+I under the corrected guard (`head_idx < head_count`) |
| Habits.NormalInput | modules/habit_manager.c:337-425 | The in-place normal-mode handler gives `Step` |
| Habits.Rollover | modules/habit_manager.c:559-563 | A day's rollover clears done-today, keeps the streak of a habit done that day and resets the others to 0 |
| Habits.RolloverAll | modules/habit_manager.c:556-566 | The rollover applies to every habit and keeps heads, names and counts |
| Habits.RolloverFacts | modules/habit_manager.c:556-566 | The rollover keeps capacities and names, changes a streak exactly when a non-zero streak was not done, and two rollovers in a row reset all streaks |
| Habits.RolloverItems | modules/habit_manager.c:558-564 | The inner loop rolls over every habit of a head |
| Habits.DailyUpdate | modules/habit_manager.c:556-566 | `habits_daily_update` rolls over every habit in place and leaves the selection and modes alone |
| Habits.ToggleToday | modules/habit_manager.c:568-574 | An out-of-range position changes nothing. Otherwise only that habit's done flag flips, with the streak untouched |
| Habits.ToggleTodayAt | modules/habit_manager.c:568-574 | The in-place toggle changes only the heads, as `ToggleToday` says |
| Habits.ToggleTodayTwice | modules/habit_manager.c:568-574 | Toggling the same position twice restores the heads |
| HabitStorage.Save | modules/habit_manager.c:530-554 | Status 1 and nothing written when the file cannot be opened. Otherwise status 0, the header, then every head's rows in order |
| HabitStorage.WriteHead | modules/habit_manager.c:539-549 | One head writes `"name","",0,0` when it has no habits, otherwise one row per habit |
| HabitStorage.WriteItems | modules/habit_manager.c:542-548 | The row loop writes one row per habit, in order |
| HabitStorage.ItemRows | modules/habit_manager.c:542-548 | One row per habit |
| HabitStorage.LoadLine | modules/habit_manager.c:477-524 | One iteration of the read loop applies one line to the heads and leaves the rest of the record |
| HabitStorage.AddRow | modules/habit_manager.c:491-523 | A parsed row goes to its head by name. A new head is created when there is room. A named habit is appended when the head has room |
| HabitStorage.ParseRow | modules/habit_manager.c:478-489 | An empty line, or one that starts with a line end, is skipped |
| HabitStorage.ApplyRow | modules/habit_manager.c:491-523 | A row adds at most one head, and none when the list is full |
| HabitStorage.LoadRows | modules/habit_manager.c:477-524 | Reading lines never loses a head and adds at most one per line |
| HabitStorage.LoadedState | modules/habit_manager.c:462-528 | The loaded record has the head selected at (0, -1), as in the corrected start, both modes off, and no heads when the file holds at most the header |
| HabitStorage.Load | modules/habit_manager.c:462-528 | Status 1 and an unchanged record when the file does not open. Otherwise status 0 and the corrected initial record with the heads read from every line after the header |
| HabitStorage.AddHabit | modules/habit_manager.c:509-523 | Adding a row keeps the head count |
| HabitStorage.ApplyRowKeeps | modules/habit_manager.c:491-523 | One row keeps capacities, keeps ids equal to positions, and adds at most one head |
| HabitStorage.LoadRowsKeep | modules/habit_manager.c:477-524 | Any sequence of lines keeps capacities and position ids |
| HabitStorage.LoadedWellFormed | modules/habit_manager.c:462-528 | Whatever the file holds, the loaded record, built on the corrected start, is well formed, has both modes off and the head selected |
| HabitStorage.LoadRowsAppend | modules/habit_manager.c:477-524 | Reading a + b is reading a, then b |
| HabitStorage.ParseHabitRow | modules/habit_manager.c:478-489 | A saved habit row parses back into head name, habit name, streak and flag |
| HabitStorage.ParseEmptyHeadRow | modules/habit_manager.c:478-489 | A saved empty-head row parses back into the head with an empty habit name |
| HabitStorage.FirstItemLoad | modules/habit_manager.c:499-523 | The first row of a new head creates that head with the habit numbered 1 |
| HabitStorage.NextItemLoad | modules/habit_manager.c:513-523 | A further row of the last head appends the habit numbered by position |
| HabitStorage.HeadLoad | modules/habit_manager.c:491-523 | The rows of one saved head load back as that head, with habits renumbered by position |
| HabitStorage.AllItemsLoad | modules/habit_manager.c:513-523 | All rows of a non-empty head load back as that head |
| HabitStorage.EmptyHeadLoad | modules/habit_manager.c:509-511 | The empty-head row creates the head and no habit |
| HabitStorage.AllRowsLoad | modules/habit_manager.c:477-524 | All rows written for saveable heads load back as those heads, ids renumbered |
| HabitStorage.Renumber | modules/habit_manager.c:521 | Habits get ids 1, 2, … by position and are otherwise unchanged |
| HabitStorage.Normalized | modules/habit_manager.c:501-507 | Every head keeps its name and habits in order, with head id 0 and habits renumbered |
| HabitStorage.SaveLoadRoundTrip | modules/habit_manager.c:462-554 | Saving then loading saveable heads (within capacity, distinct names, names without quotes or line ends that fit their buffers, named habits) gives back the heads, up to ids |
| HabitStorage.AllRowsIgnoreIds | modules/habit_manager.c:543-547 | The saved rows do not depend on ids |
| HabitStorage.ItemRowsIgnoreIds | modules/habit_manager.c:543-547 | The saved rows of one head do not depend on habit ids |
| HabitStorage.SaveLoadSave | modules/habit_manager.c:462-554 | Saving what was loaded from a save writes the same lines again |
| Tasks.InitialTasks | modules/task_manager.c:51-60 | The start: one unnamed empty head, selected, both modes off |
| Tasks.Init | modules/task_manager.c:51-60 | `tasks_init` sets the record to that start |
| Tasks.ToggleSelected | modules/task_manager.c:432-436 | Space keeps the selection, the modes and every other task and head, and negates the selected task's completed flag, keeping its id and description |
| Tasks.SpaceTogglesOnlySelected | modules/task_manager.c:362-436 | In normal mode with tasks, space flips exactly the completed flag of the selected task and changes nothing else |
| Tasks.ChordR | modules/task_manager.c:225-271 | The R chords keep the record well formed with head 0 present |
| Tasks.Delete | modules/task_manager.c:275-315 | X keeps the record well formed with head 0 present |
| Tasks.DeleteHeadKeepsHeadZero | modules/task_manager.c:276-293 | X on head 0 does nothing. X on another head removes exactly that head and clamps the selection |
| Tasks.XDeletesItem | modules/task_manager.c:294-313 | X on a task deletes exactly it |
| Tasks.RIInserts | modules/task_manager.c:239-270 | R+I with text and room inserts the new task (id count+1, not completed) at the insertion point |
| Tasks.InsertThenDeleteTask | modules/task_manager.c:239-313 | R+I then X restores the heads |
| Tasks.NewHeadChord | modules/task_manager.c:227-238 | R+U with room and a name appends a head and keeps the old ones, and the chord ends outside move mode |
| Tasks.TaskMoveStep | modules/task_manager.c:136-214 | Corrected move mode keeps well-formedness, the head count and the task multiset. A head swap across head 0 changes nothing |
| Tasks.Names | modules/task_manager.c:136-214 | The head names, in head order |
| Tasks.TaskMoveKeepsLayout | modules/task_manager.c:136-214 | Corrected move mode keeps the unnamed head at index 0 and every other head named |
| Tasks.HeadSwapKeepsLayout | modules/task_manager.c:178-184 | Swapping two named heads keeps the layout |
| Tasks.ItemUpKeepsNames | modules/task_manager.c:147-176 | Moving a task up never renames or reorders heads |
| Tasks.ItemDownKeepsNames | modules/task_manager.c:185-211 | Moving a task down never renames or reorders heads |
| Tasks.Step | modules/task_manager.c:134-439 | Every key, with move mode as written, keeps the record well formed with head 0 present |
| Tasks.CorrectedStep | modules/task_manager.c:134-439 | The corrected handler keeps the record well formed. It does nothing on a head swap across head 0 and is `Step` on every other key |
| Tasks.CorrectedStepKeepsLayout | modules/task_manager.c:134-439 | In the corrected handler every key keeps the unnamed head at index 0 and the other heads named |
| Tasks.StepOutsideMoveKeepsLayout | modules/task_manager.c:216-439 | Outside move mode the handler as written keeps the layout |
| Tasks.ChordKeepsLayout | modules/task_manager.c:225-271 | The R chords keep the layout |
| Tasks.AddHeadKeepsLayout | modules/task_manager.c:227-238 | Adding a head keeps the layout, because a new head needs a name |
| Tasks.InsertKeepsNames | modules/task_manager.c:239-267 | Inserting a task keeps the head names |
| Tasks.DeleteKeepsLayout | modules/task_manager.c:275-315 | X keeps the layout |
| Tasks.UnnamedHeadCanMove | modules/task_manager.c:139-146 | In `Step`, as written, moving head 1 up swaps the unnamed head away from index 0 and breaks the layout |
| Tasks.UnnamedHeadStays | modules/task_manager.c:139-146 | In `CorrectedStep` the same key leaves the record as it was |
| Tasks.HandleInput | modules/task_manager.c:134-439 | The in-place handler gives `Step` of the old record, move mode as written |
| Tasks.EditInput | modules/task_manager.c:216-361 | The in-place edit-mode handler gives `Step` |
| Tasks.DeleteInput | modules/task_manager.c:275-313 | The in-place X gives `Delete` |
| Tasks.ChordInput | modules/task_manager.c:225-271 | The in-place R chord gives `FinishChord(ChordR(…))` |
| Tasks.ChordBody | modules/task_manager.c:226-267 | The body of the R chord gives `ChordR` |
| Tasks.NormalInput | modules/task_manager.c:362-438 | The in-place normal-mode handler gives `Step` |
| TaskStorage.Save | modules/task_manager.c:542-565 | Status 1 and nothing written when the file cannot be opened. Otherwise the header and every head's rows, except nothing for an empty head 0 |
| TaskStorage.WriteHead | modules/task_manager.c:548-560 | One head writes an empty-head row, or nothing for head 0 when it is empty, or one row per task |
| TaskStorage.WriteItems | modules/task_manager.c:554-558 | The row loop writes one row per task, in order |
| TaskStorage.ItemRows | modules/task_manager.c:554-558 | One row per task |
| TaskStorage.Lookup | modules/task_manager.c:502-512 | An empty head name means head 0. A found head is within the list |
| TaskStorage.AddTask | modules/task_manager.c:528-535 | Adding a row keeps the head count |
| TaskStorage.ApplyRow | modules/task_manager.c:500-536 | A row never removes a head |
| TaskStorage.LoadLine | modules/task_manager.c:490-537 | One iteration of the read loop applies one line to the heads and leaves the rest of the record |
| TaskStorage.AddRow | modules/task_manager.c:500-536 | A parsed row goes to its head as `ApplyRow` says |
| TaskStorage.ParseRow | modules/task_manager.c:490-500 | An empty line, or one that starts with a line end, is skipped |
| TaskStorage.LoadedState | modules/task_manager.c:476-540 | The loaded record has at least one head, the head selected at (0, -1) and both modes off, and is the initial record when the file holds at most the header |
| TaskStorage.Load | modules/task_manager.c:476-540 | Status 1 and an unchanged record when the file does not open. Otherwise status 0 and the initial record with the heads read from every line after the header |
| TaskStorage.ApplyRowKeeps | modules/task_manager.c:500-536 | One row keeps capacities and the layout (unnamed head 0, others named) |
| TaskStorage.LoadRowsKeep | modules/task_manager.c:490-537 | Any sequence of lines keeps capacities and the layout |
| TaskStorage.LoadedWellFormed | modules/task_manager.c:476-540 | Whatever the file holds, the loaded record has head 0 unnamed, is well formed and has both modes off |
| TaskStorage.LoadRowsAppend | modules/task_manager.c:490-537 | Reading a + b is reading a, then b |
| TaskStorage.ParseTaskRow | modules/task_manager.c:441-497 | A saved task row parses back into head name, description and flag |
| TaskStorage.ParseEmptyHeadRow | modules/task_manager.c:441-497 | A saved empty-head row parses back into the head with an empty description |
| TaskStorage.Cleared | modules/task_manager.c:528-535 | Loaded tasks keep everything but their id. C does not write that id, so it keeps whatever the array slot last held; the model sets it to 0 |
| TaskStorage.Normalized | modules/task_manager.c:514-535 | Every head keeps its name and tasks in order, with ids 0 |
| TaskStorage.FirstItemLoad | modules/task_manager.c:514-535 | The first row of a new named head creates it with that task |
| TaskStorage.NextItemLoad | modules/task_manager.c:528-535 | A further row of the last head appends the task |
| TaskStorage.StandaloneLoad | modules/task_manager.c:503-504 | The saved rows of head 0 load back into head 0 |
| TaskStorage.HeadLoad | modules/task_manager.c:514-535 | The rows of one saved named head load back as that head |
| TaskStorage.EmptyHeadLoad | modules/task_manager.c:514-522 | The empty-head row creates the named head and no task |
| TaskStorage.AllRowsLoad | modules/task_manager.c:490-537 | All rows written for saveable heads load back as those heads, ids cleared |
| TaskStorage.SaveLoadRoundTrip | modules/task_manager.c:476-565 | Saving then loading saveable heads (unnamed head 0, other heads named and distinct, within capacity, texts without quotes or line ends that fit their buffers) gives back the heads, up to ids |
| TaskStorage.MovedHeadLostOnReload | modules/task_manager.c:549-552 | After the written move swaps head 0 with head "Work", a save and reload loses "Work", although the record before the move saves and loads back whole |
| TaskStorage.LoadedOfSaved | modules/task_manager.c:476-565 | The heads loaded from a save are the saved rows read from the one-head start |
| Pomodoro.Other | modules/pomodoro_manager.c:164-168 | The session that follows is the other one |
| Pomodoro.StrLenIsCursor | modules/pomodoro_manager.c:107 | In a valid buffer, strlen equals the cursor position |
| Pomodoro.SessionStart | modules/pomodoro_manager.c:175-197 | A new session is stopped, in normal view, with an empty buffer. Rest counts the rest time. Work counts the work time, or in the progressive cycle the last work time plus the step. Every other field stays, and validity is kept |
| Pomodoro.Initial | modules/pomodoro_manager.c:19-28 | The start is valid, a stopped standard work session of 25 minutes, with rest 5 and step 15 minutes |
| Pomodoro.EnteredDuration | modules/pomodoro_manager.c:107-112 | Four digits MMSS give a duration of MM minutes and SS seconds, seconds clamped to 59 |
| Pomodoro.HandleKey | modules/pomodoro_manager.c:98-155 | A key keeps the buffer valid. The editor edits the work time after i and the rest time after o |
| Pomodoro.Confirm | modules/pomodoro_manager.c:106-125 | Enter with fewer than four digits changes nothing. With four, the edited duration becomes the entered one, the other duration and the cycle stay |
| Pomodoro.HandleKeepsValid | modules/pomodoro_manager.c:98-155 | Every key keeps the record valid |
| Pomodoro.TickKeepsValid | modules/pomodoro_manager.c:158-173 | A tick keeps the record valid |
| Pomodoro.TickOnce | modules/pomodoro_manager.c:158-173 | A stopped timer is unchanged by a tick, and a tick never changes the durations or the cycle |
| Pomodoro.TickCountsDown | modules/pomodoro_manager.c:160-172 | A running tick with time left takes off one second and advances the animation frame |
| Pomodoro.TickSwitchesSession | modules/pomodoro_manager.c:162-169 | A running tick at zero starts the other session, stopped |
| Pomodoro.TickIdle | modules/pomodoro_manager.c:158-173 | A stopped timer ignores ticks |
| Pomodoro.CountDown | modules/pomodoro_manager.c:160-172 | n ticks of a running timer with at least n seconds left take off n seconds and advance the frame by n, modulo 4 |
| Pomodoro.SessionRunsOut | modules/pomodoro_manager.c:158-173 | After its seconds plus one tick a running session has handed over to the other session, stopped at its full length |
| Pomodoro.ProgressiveGrowth | modules/pomodoro_manager.c:184-189 | In the progressive cycle the k-th work session lasts the work time plus k-1 steps |
| Pomodoro.StandardStays | modules/pomodoro_manager.c:190-193 | In the standard cycle every work session lasts the work time |
| Pomodoro.SpaceTwice | modules/pomodoro_manager.c:141-143 | Space flips running, and twice restores the record |
| Pomodoro.BackspaceUndoesDigit | modules/pomodoro_manager.c:102-105 | Backspace after a typed digit restores the editor |
| Pomodoro.EditorBounds | modules/pomodoro_manager.c:102-105 | A fifth digit is ignored, and so is backspace at the start |
| Pomodoro.OpenEditor | modules/pomodoro_manager.c:131-140 | i or o opens the editor, stopped and empty, for work or rest, but only in the standard cycle |
| Pomodoro.TypedDuration | modules/pomodoro_manager.c:101-125 | Typing MMSS and Enter sets the edited time to MM:SS (seconds clamped), and restarts the session when it is the one being edited |
| Pomodoro.ShortEntryIgnored | modules/pomodoro_manager.c:106-125 | Enter with fewer than four digits only closes the editor |
| Pomodoro.ModeSwitch | modules/pomodoro_manager.c:147-151 | m flips the cycle and restarts a stopped work session at the work time |
| Pomodoro.PomodoroData.constructor | modules/pomodoro_manager.c:19-28 | `pomodoro_init_data` yields the initial timer, with a 5-character edit buffer |
| Pomodoro.PomodoroData.ClearBuffer | modules/pomodoro_manager.c:179 | The memset leaves the buffer all NUL |
| Pomodoro.PomodoroData.StartNewSession | modules/pomodoro_manager.c:175-197 | The in-place session start gives `SessionStart` of the old record |
| Pomodoro.PomodoroData.HandleInput | modules/pomodoro_manager.c:98-155 | The in-place key handler gives `HandleKey` of the old record |
| Pomodoro.PomodoroData.EditorInput | modules/pomodoro_manager.c:101-128 | The in-place editor keys give `HandleKey` |
| Pomodoro.PomodoroData.NormalInput | modules/pomodoro_manager.c:129-153 | The in-place normal keys give `HandleKey` |
| Pomodoro.PomodoroData.ConfirmEdit | modules/pomodoro_manager.c:106-125 | Enter in the editor, in place, gives `Confirm` |
| Pomodoro.PomodoroData.Tick | modules/pomodoro_manager.c:158-173 | The in-place tick gives `TickOnce` |
| Tui.InitialScreen | src/minimal_tui.c:63-79 | The start is valid: the panel, running |
| Tui.Route | src/minimal_tui.c:146-173 | A key keeps the selection in the module table, keeps validity and running. It is forwarded, with the switcher unchanged, exactly when a module is active and the key is neither b nor q |
| Tui.RenderStep | src/minimal_tui.c:111-139 | Rendering stops the loop exactly in the exit state on a large enough terminal, and changes nothing else |
| Tui.UpDownInverse | src/minimal_tui.c:149-152 | Up and down on the panel undo each other |
| Tui.Downs | src/minimal_tui.c:151-152 | Repeated down stays on the panel within the module table |
| Tui.DownsWalk | src/minimal_tui.c:151-152 | n downs advance the selection by n, modulo the number of modules |
| Tui.DownsCycle | src/minimal_tui.c:151-152 | As many downs as there are modules return to the start |
| Tui.DownsReach | src/minimal_tui.c:151-152 | Every module can be reached by pressing down |
| Tui.EnterThenBack | src/minimal_tui.c:153-162 | Enter opens the selected module, and b returns to the same panel |
| Tui.QuitStops | src/minimal_tui.c:137-165 | q from the panel or a module enters the exit state. That state ignores every key and the next render stops the loop |
| Tui.SmallTerminalKeepsRunning | src/minimal_tui.c:111-123 | On a terminal smaller than 60x20, rendering changes nothing |
| Tui.MinimalTui.constructor | src/minimal_tui.c:63-79 | `minimal_tui_init` gives the initial screen and fills the module slots from the table in order, leaving the fifth slot empty |
| Tui.MinimalTui.HandleInput | src/minimal_tui.c:146-173 | The in-place handler gives `Route` of the old fields, and returns the module to forward to |
| Tui.MinimalTui.Render | src/minimal_tui.c:93-144 | The in-place render gives `RenderStep` of the old fields |
| Tui.MinimalTui.IsRunning | src/minimal_tui.c:175 | Reports whether the main loop continues |

## Left out

- Drawing is not modelled. This covers every `*_render` function, `draw_panel`, `draw_status`, the edit popup, the help text and the window manager, because they only write to the terminal.
- `prompt_for_string` is not modelled. Its result is the `text` parameter of the handlers, and an empty text means nothing was entered. The prompt's own length cap is assumed: the text is taken as already fitting its buffer.
- The second `getch` of an R or E chord is the `next` parameter. A timeout that yields `ERR` is just another key code that matches no branch.
- File I/O is not modelled. A file is an optional list of lines (None when `fopen` fails). `habits_save` and `tasks_save` return the lines they would write, and `canOpen` says whether the file opened. `fgets` splitting a line longer than 511 characters into pieces is not modelled.
- `atoi` and `%d` are modelled on unbounded integers. The overflow of `int` streaks and `long` durations is not modelled, and neither is leading whitespace before a number.
- `isdigit(ch)` in the pomodoro editor is modelled as `'0' <= ch <= '9'`. The C behaviour for key codes outside `unsigned char` is undefined and is not modelled.
- The `tasks_save` call inside the X handler (modules/task_manager.c:314) is not modelled inside `Tasks.HandleInput`, because it is file output. `TaskStorage.Save` models what it writes.
- The sound (`beep`, `napms`) at the end of a pomodoro session is not modelled.
- The once-per-second clock check in `minimal_tui_render` (src/minimal_tui.c:94-100) is not modelled. It ticks the pomodoro only when that module is active. `Pomodoro.PomodoroData.Tick` is the tick itself, and the caller decides when it happens.
- Terminal resizing (`minimal_tui_resize`, `getmaxyx`) is not modelled. The terminal size is the `rows` and `cols` parameters of `Tui.MinimalTui.Render`.
- The function-pointer dispatch through `IModule` is not modelled. `Tui.MinimalTui.HandleInput` returns the module the key is forwarded to, and the caller runs that module's handler.
- The placeholder settings module (src/minimal_tui.c:177-187) draws a notice and ignores keys. It is only a name in the module table here.
- `pomodoro_init` called from `minimal_tui_init` (src/minimal_tui.c:78) is not part of this model. It is defined outside the files modelled here. `pomodoro_init_data` is modelled as the `Pomodoro.PomodoroData` constructor.
- Array slots past `head_count` and `task_count` are not modelled, except for the one slot that `Habits.InsertIntoMissingHeadAsWritten` writes. The model holds only the live prefix as a sequence, and the stale contents that C leaves there are not represented. The fifth module slot, which C leaves uninitialised, is modelled as None.
- `main.c` is not modelled: the event loop, its `timeout`, and when `habits_daily_update` is called.
- The `habits_cleanup` and `tasks_cleanup` functions and `get_habit_count` are trivial accessors or no-ops, and are not modelled.
- Head ids are not modelled beyond what the handlers write. Neither loader writes a head id (modules/habit_manager.c:499-507, modules/task_manager.c:514-522), and `tasks_load` writes no task id either (modules/task_manager.c:528-535). Since neither init clears the arrays, each such id keeps whatever its slot last held, and is 0 only in a slot never written. The model sets these ids to 0, so the round trips compare records up to ids.
- HabitStorage.SaveLoadRoundTrip: holds only for saveable heads. Duplicate head names merge on load. Quotes or line ends in names break the CSV format; commas inside the quoted names do not. Names too long for their buffers are truncated on load. These inputs are excluded rather than modelled as round trips.
- TaskStorage.SaveLoadRoundTrip: holds only for saveable heads in the same sense, and additionally only with the unnamed head at index 0 and no other unnamed head.
- Habits.InitialHabits: starts from the corrected selection (0, -1), where `habits_init` (modules/habit_manager.c:13) sets (0, 0). The written start is `Habits.InitialHabitsAsWritten`, which is not well formed, so the handler is not run from it.
- Habits.Init: sets the corrected start, not the written one. After `habits_init` with no items, C keeps item 0 selected in a head that has none.
- HabitStorage.LoadedState: builds the loaded record on the corrected start (0, -1), where `habits_load` keeps the (0, 0) that `habits_init` sets (modules/habit_manager.c:13, 469).
- HabitStorage.Load: loads onto the corrected start that `HabitStorage.LoadedState` builds. C loads onto (0, 0). When every loaded head is empty, E+I then D does nothing in C, because the item branch finds no item (modules/habit_manager.c:275), while the model deletes the selected head.
- HabitStorage.LoadedWellFormed: holds of the record loaded onto the corrected start. The record C loads is not well formed when head 0 has no items.
- Habits.ChordR: uses the corrected R+I guard `head_idx < head_count`. With no heads, C writes the habit into the stale slot 0 and leaves the selection on item 1 of no head; `Habits.InsertIntoMissingHeadAsWritten` models that write. From the written start on an empty loaded head, C inserts at position 1 and exposes a stale cell as a habit; that path is not modelled.
- Habits.Step: runs on well-formed records only, so the paths above that start from the written selection are not covered. The stale-item selection, D doing nothing on it, and R+I inserting past the live items are not modelled.
- Habits.HandleInput: gives `Step`, so it has the same gaps as `Habits.Step`.
- Habits.EditInput: gives `Step` in edit mode, with the same gaps as `Habits.Step`.
- Habits.ChordInput: gives `FinishChord(ChordR(…))`, with the corrected guard, as `Habits.ChordR` says.
- Habits.ChordBody: tests `|heads| > 0` before the head's room, which is the corrected guard. C tests only `head_idx >= 0`.
- Tui.MinimalTui.IsRunning: a getter. Its contract restates the field, and the loop-stopping behaviour is stated by `Tui.RenderStep` and `Tui.QuitStops`.

## Findings

| source | as written | input that shows it | evidently intended | confidence | as-written member | corrected member |
|---|---|---|---|---|---|---|
| modules/habit_manager.c:229 | R+I checks `head_idx >= 0`, which holds with no heads at all, so the new habit is written into the array slot of a head that does not exist | the empty record after `habits_init`, E+I into edit mode, then R+I with a name: the habit lands past the stale slot's count and the selection names item 1 of no head | R+I does nothing when there is no head | high, not executed | Habits.GuardAdmitsMissingHead | Habits.GuardsAgreeWithHeads |
| modules/habit_manager.c:13 | `habits_init` selects item 0 although no item exists | a file holding one head with no habits, loaded on top of the initial record, then E+I and R+I: the insertion point is 1 in a head of 0 habits | start with the head itself selected (`selected_task = -1`) | medium, not executed | Habits.InitialSelectionAsWrittenIsInvalid | Habits.InitialSelectionCorrected |
| modules/task_manager.c:139-146 | move mode swaps head 1 up into index 0, displacing the unnamed standalone head, and the saver then skips the head at index 0 when it is empty (task_manager.c:549-552) | heads `""` (one task) and `"Work"` (empty), head 1 selected in move mode, KEY_UP, then save and load: "Work" is gone | head 0 stays in place, so the standalone head is never swapped | high, not executed | TaskStorage.MovedHeadLostOnReload | Tasks.CorrectedStepKeepsLayout |
