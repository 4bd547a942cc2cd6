/** The pomodoro timer (modules/pomodoro_manager.c): a countdown that
    alternates work and rest sessions, a standard and a progressive cycle in
    which every work session grows by a fixed step, and a small editor that
    reads a new work or rest time as four digits MMSS. */
module Pomodoro {
  import opened Keys
  import Csv

  datatype Session = Work | Rest
  datatype Cycle = Standard | Progressive
  datatype Ui = Normal | Editing

  /** The size of edit_buffer: four digits and a terminating NUL. */
  const BUFFER_SIZE: int := 5
  const DIGITS: int := 4
  const NUL: char := '\0'
  /** The empty edit buffer, as memset leaves it. */
  const EMPTY_BUFFER: seq<char> := [NUL, NUL, NUL, NUL, NUL]
  /** The number of smoke animation frames. */
  const FRAMES: int := 4

  /** The fields of PomodoroData (modules/pomodoro_manager.h:24-42) as a value. */
  datatype Timer = Timer(
    workDuration: int, restDuration: int, progressiveStep: int,
    currentWorkDuration: int, totalSeconds: int,
    currentState: Session, cycleMode: Cycle, uiMode: Ui, editingState: Session,
    isRunning: bool, frame: int, editCursorPos: int, editBuffer: seq<char>)

  function Other(s: Session): (r: Session)
    ensures r != s
  {
    if s == Work then Rest else Work
  }

  // ---------------------------------------------------------------------------
  // Invariants

  /** The edit buffer holds exactly the digits typed so far, NUL after them;
      the cursor is their number, 0 to 4. */
  predicate BufferValid(t: Timer) {
    |t.editBuffer| == BUFFER_SIZE && 0 <= t.editCursorPos <= DIGITS
    && (forall k :: 0 <= k < t.editCursorPos ==> Csv.IsDigit(t.editBuffer[k]))
    && (forall k :: t.editCursorPos <= k < BUFFER_SIZE ==> t.editBuffer[k] == NUL)
  }

  /** What every reachable record satisfies: a valid buffer, no negative
      duration or count, a frame in range, and the editor open only in the
      standard cycle with the timer stopped. */
  predicate Valid(t: Timer) {
    BufferValid(t)
    && t.workDuration >= 0 && t.restDuration >= 0 && t.progressiveStep >= 0
    && t.currentWorkDuration >= 0 && t.totalSeconds >= 0
    && 0 <= t.frame < FRAMES
    && (t.uiMode == Editing ==> t.cycleMode == Standard && !t.isRunning)
  }

  /** strlen of the buffer. */
  function StrLen(buf: seq<char>): (n: nat)
    ensures n <= |buf|
  {
    Csv.IndexOf(buf, NUL)
  }

  /** In a valid record strlen(edit_buffer) is the cursor position. */
  lemma StrLenIsCursor(t: Timer)
    requires BufferValid(t)
    ensures StrLen(t.editBuffer) == t.editCursorPos
  {
    var buf, c := t.editBuffer, t.editCursorPos;
    assert buf[c] == NUL;
    assert forall i :: 0 <= i < c ==> buf[i] != NUL;
  }

  // ---------------------------------------------------------------------------
  // Sessions

  /** start_new_session: the timer stops, the editor closes and empties, and
      the clock is set to the session's length; a work session in the
      progressive cycle is one step longer than the last one, except the
      first. */
  function SessionStart(t: Timer, state: Session): (r: Timer)
    ensures r.currentState == state && !r.isRunning && r.uiMode == Normal
    ensures r.editCursorPos == 0 && r.editBuffer == EMPTY_BUFFER && BufferValid(r)
    ensures state == Rest ==> r.totalSeconds == t.restDuration && r.currentWorkDuration == t.currentWorkDuration
    ensures state == Work ==> r.totalSeconds == r.currentWorkDuration
    ensures state == Work && (t.cycleMode == Standard || t.currentWorkDuration <= 0) ==> r.totalSeconds == t.workDuration
    ensures state == Work && t.cycleMode == Progressive && t.currentWorkDuration > 0 ==>
      r.totalSeconds == t.currentWorkDuration + t.progressiveStep
    ensures r.(currentState := t.currentState, isRunning := t.isRunning, uiMode := t.uiMode,
               editCursorPos := t.editCursorPos, editBuffer := t.editBuffer,
               totalSeconds := t.totalSeconds, currentWorkDuration := t.currentWorkDuration) == t
    ensures Valid(t) ==> Valid(r)
  {
    var u := t.(currentState := state, isRunning := false, uiMode := Normal,
                editBuffer := EMPTY_BUFFER, editCursorPos := 0);
    if state == Work then
      var w := if t.cycleMode == Progressive && t.currentWorkDuration > 0
               then t.currentWorkDuration + t.progressiveStep
               else t.workDuration;
      u.(currentWorkDuration := w, totalSeconds := w)
    else
      u.(totalSeconds := t.restDuration)
  }

  /** pomodoro_init_data: 25 minutes of work, 5 of rest, a 15 minute step,
      the standard cycle and a stopped work session with the full work time
      on the clock. */
  function Initial(): (r: Timer)
    ensures Valid(r) && r.currentState == Work && r.cycleMode == Standard && !r.isRunning
    ensures r.workDuration == 1500 && r.restDuration == 300 && r.progressiveStep == 900
    ensures r.totalSeconds == r.workDuration
  {
    var t := Timer(25 * 60, 5 * 60, 15 * 60, 0, 0, Work, Standard, Normal, Work, false, 0, 0, EMPTY_BUFFER);
    SessionStart(t, Work)
  }

  // ---------------------------------------------------------------------------
  // Input

  predicate IsDigitKey(ch: int) {
    Code('0') <= ch <= Code('9')
  }

  /** The two-digit number of the characters a and b. */
  function TwoDigits(a: char, b: char): int {
    (a as int - '0' as int) * 10 + (b as int - '0' as int)
  }

  /** The seconds of a buffer MMSS: seconds clamped to 59, minutes to 99. */
  function EnteredDuration(buf: seq<char>): (r: int)
    requires |buf| >= DIGITS
    ensures (forall k :: 0 <= k < DIGITS ==> Csv.IsDigit(buf[k])) ==>
      var mm, ss := TwoDigits(buf[0], buf[1]), TwoDigits(buf[2], buf[3]);
      && 0 <= r <= 99 * 60 + 59
      && r / 60 == mm && r % 60 == (if ss > 59 then 59 else ss)
  {
    var mm, ss := TwoDigits(buf[0], buf[1]), TwoDigits(buf[2], buf[3]);
    var sec := if ss > 59 then 59 else ss;
    var min := if mm > 99 then 99 else mm;
    min * 60 + sec
  }

  /** Enter in the editor: with four digits the edited duration is replaced,
      and the running session restarts when it is the one edited; with fewer
      nothing changes. */
  function Confirm(t: Timer): (r: Timer)
    requires BufferValid(t)
    ensures StrLen(t.editBuffer) != DIGITS ==> r == t
    ensures StrLen(t.editBuffer) == DIGITS && t.editingState == Work ==>
      r.workDuration == EnteredDuration(t.editBuffer) && r.restDuration == t.restDuration
    ensures StrLen(t.editBuffer) == DIGITS && t.editingState != Work ==>
      r.restDuration == EnteredDuration(t.editBuffer) && r.workDuration == t.workDuration
    ensures r.cycleMode == t.cycleMode
  {
    if StrLen(t.editBuffer) == DIGITS then
      var d := EnteredDuration(t.editBuffer);
      var u := if t.editingState == Work then t.(workDuration := d) else t.(restDuration := d);
      if t.editingState == t.currentState then SessionStart(u, u.currentState) else u
    else t
  }

  /** pomodoro_module_handle_input: the key handler in the editor and in
      the normal view. */
  function HandleKey(t: Timer, ch: int): (r: Timer)
    requires BufferValid(t)
    ensures BufferValid(r)
    ensures r.uiMode == Editing ==> r.editingState == (if t.uiMode == Editing then t.editingState else if ch == Code('i') then Work else Rest)
  {
    if t.uiMode == Editing then
      var pos := t.editCursorPos;
      if IsDigitKey(ch) && pos < DIGITS then
        t.(editBuffer := t.editBuffer[pos := ch as char], editCursorPos := pos + 1)
      else if (ch == KEY_BACKSPACE || ch == DEL) && pos > 0 then
        t.(editBuffer := t.editBuffer[pos - 1 := NUL], editCursorPos := pos - 1)
      else if ch == NEWLINE || ch == KEY_ENTER then
        StrLenIsCursor(t);
        Confirm(t).(uiMode := Normal)
      else if ch == ESC || ch == Code('b') || ch == Code('i') || ch == Code('o') then
        t.(uiMode := Normal)
      else t
    else if ch == Code('i') || ch == Code('o') then
      if t.cycleMode == Standard then
        t.(isRunning := false, uiMode := Editing, editingState := if ch == Code('i') then Work else Rest,
           editCursorPos := 0, editBuffer := EMPTY_BUFFER)
      else t
    else if ch == SPACE then t.(isRunning := !t.isRunning)
    else if ch == Code('r') then SessionStart(t, t.currentState)
    else if ch == Code('m') then
      SessionStart(t.(cycleMode := if t.cycleMode == Standard then Progressive else Standard,
                      currentWorkDuration := 0), Work)
    else t
  }

  // ---------------------------------------------------------------------------
  // Time

  /** pomodoro_module_tick: a running clock counts down one second; a running
      clock at zero starts the other session, stopped; the animation frame
      advances while the timer is running. (frame is never negative, so C's
      remainder and Dafny's agree.) */
  function TickOnce(t: Timer): (r: Timer)
    ensures !t.isRunning ==> r == t
    ensures r.workDuration == t.workDuration && r.restDuration == t.restDuration && r.cycleMode == t.cycleMode
  {
    var u := if t.isRunning && t.totalSeconds > 0 then t.(totalSeconds := t.totalSeconds - 1)
             else if t.isRunning && t.totalSeconds == 0 then SessionStart(t, Other(t.currentState))
             else t;
    if u.isRunning then u.(frame := (u.frame + 1) % FRAMES) else u
  }

  /** n ticks in a row. */
  function Ticks(t: Timer, n: nat): Timer
  {
    if n == 0 then t else TickOnce(Ticks(t, n - 1))
  }

  // ---------------------------------------------------------------------------
  // Properties

  /** Every key keeps the record valid. */
  lemma HandleKeepsValid(t: Timer, ch: int)
    requires Valid(t)
    ensures Valid(HandleKey(t, ch))
  {
    if t.uiMode == Editing && (ch == NEWLINE || ch == KEY_ENTER) {
      StrLenIsCursor(t);
      if StrLen(t.editBuffer) == DIGITS {
        assert forall k :: 0 <= k < DIGITS ==> Csv.IsDigit(t.editBuffer[k]);
      }
    }
  }

  /** Every tick keeps the record valid. */
  lemma TickKeepsValid(t: Timer)
    requires Valid(t)
    ensures Valid(TickOnce(t))
  {
  }

  /** A running clock with time left loses exactly one second and the frame
      advances; nothing else changes. */
  lemma TickCountsDown(t: Timer)
    requires t.isRunning && t.totalSeconds > 0
    ensures TickOnce(t) == t.(totalSeconds := t.totalSeconds - 1, frame := (t.frame + 1) % FRAMES)
  {
  }

  /** A running clock at zero switches between work and rest and stops. */
  lemma TickSwitchesSession(t: Timer)
    requires t.isRunning && t.totalSeconds == 0
    ensures var r := TickOnce(t);
      r == SessionStart(t, Other(t.currentState)) && r.currentState != t.currentState && !r.isRunning
  {
  }

  /** A stopped timer does not change. */
  lemma TickIdle(t: Timer)
    requires !t.isRunning
    ensures TickOnce(t) == t
  {
  }

  /** n ticks of a running clock with at least n seconds left count it down
      by n and leave it running. */
  lemma {:induction false} CountDown(t: Timer, n: nat)
    requires t.isRunning && n <= t.totalSeconds && 0 <= t.frame < FRAMES
    ensures Ticks(t, n) == t.(totalSeconds := t.totalSeconds - n, frame := (t.frame + n) % FRAMES)
  {
    if n > 0 {
      CountDown(t, n - 1);
      CountDownStep(t, n);
    }
  }

  lemma CountDownStep(t: Timer, n: nat)
    requires t.isRunning && 0 < n <= t.totalSeconds && 0 <= t.frame < FRAMES
    ensures TickOnce(t.(totalSeconds := t.totalSeconds - (n - 1), frame := (t.frame + (n - 1)) % FRAMES))
      == t.(totalSeconds := t.totalSeconds - n, frame := (t.frame + n) % FRAMES)
  {
    var u := t.(totalSeconds := t.totalSeconds - (n - 1), frame := (t.frame + (n - 1)) % FRAMES);
    TickCountsDown(u);
    FrameStep(t.frame + (n - 1));
  }

  lemma FrameStep(a: int)
    requires a >= 0
    ensures (a % FRAMES + 1) % FRAMES == (a + 1) % FRAMES
  {
  }

  /** A session started and left running ends after its full length plus
      one tick: the other session is then on the clock, stopped. */
  lemma SessionRunsOut(t: Timer)
    requires t.isRunning && t.totalSeconds >= 0 && 0 <= t.frame < FRAMES
    ensures var r := Ticks(t, t.totalSeconds + 1);
      && r.currentState == Other(t.currentState) && !r.isRunning
      && r.totalSeconds == (if t.currentState == Work then t.restDuration else r.currentWorkDuration)
  {
    CountDown(t, t.totalSeconds);
    TickSwitchesSession(Ticks(t, t.totalSeconds));
  }

  /** Starting k work sessions in the progressive cycle, from a reset
      progress: the k-th lasts the base work time plus k - 1 steps. */
  function WorkSessions(t: Timer, k: nat): Timer
  {
    if k == 0 then t else SessionStart(WorkSessions(t, k - 1), Work)
  }

  lemma {:induction false} ProgressiveGrowth(t: Timer, k: nat)
    requires t.cycleMode == Progressive && t.currentWorkDuration == 0 && t.workDuration > 0
    requires t.progressiveStep >= 0 && k >= 1
    ensures WorkSessions(t, k).totalSeconds == t.workDuration + (k - 1) * t.progressiveStep
    ensures WorkSessions(t, k).cycleMode == Progressive && WorkSessions(t, k).workDuration == t.workDuration
    ensures WorkSessions(t, k).progressiveStep == t.progressiveStep
  {
    if k > 1 {
      ProgressiveGrowth(t, k - 1);
    }
  }

  /** In the standard cycle every work session has the base work time. */
  lemma {:induction false} StandardStays(t: Timer, k: nat)
    requires t.cycleMode == Standard && k >= 1
    ensures WorkSessions(t, k).totalSeconds == t.workDuration
    ensures WorkSessions(t, k).cycleMode == Standard && WorkSessions(t, k).workDuration == t.workDuration
  {
    if k > 1 {
      StandardStays(t, k - 1);
    }
  }

  /** Space starts and pauses: twice gives the record back. */
  lemma SpaceTwice(t: Timer)
    requires BufferValid(t) && t.uiMode == Normal
    ensures HandleKey(t, SPACE) == t.(isRunning := !t.isRunning)
    ensures HandleKey(HandleKey(t, SPACE), SPACE) == t
  {
  }

  /** Backspace in the editor undoes the digit just typed. */
  lemma BackspaceUndoesDigit(t: Timer, ch: int)
    requires BufferValid(t) && t.uiMode == Editing && IsDigitKey(ch) && t.editCursorPos < DIGITS
    ensures HandleKey(HandleKey(t, ch), KEY_BACKSPACE) == t
  {
    var u := HandleKey(t, ch);
    assert u.editBuffer[t.editCursorPos := NUL] == t.editBuffer;
  }

  /** A digit key in a full editor, and a backspace in an empty one, change nothing. */
  lemma EditorBounds(t: Timer, ch: int)
    requires BufferValid(t) && t.uiMode == Editing
    ensures IsDigitKey(ch) && t.editCursorPos == DIGITS ==> HandleKey(t, ch) == t
    ensures ch == KEY_BACKSPACE && t.editCursorPos == 0 ==> HandleKey(t, ch) == t
  {
  }

  /** i and o open the editor only in the standard cycle, and stop the timer. */
  lemma OpenEditor(t: Timer, ch: int)
    requires BufferValid(t) && t.uiMode == Normal && (ch == Code('i') || ch == Code('o'))
    ensures var r := HandleKey(t, ch);
      && (t.cycleMode == Progressive ==> r == t)
      && (t.cycleMode == Standard ==>
            r.uiMode == Editing && !r.isRunning && r.editCursorPos == 0
            && r.editingState == (if ch == Code('i') then Work else Rest))
  {
  }

  /** Four digits MMSS then Enter: the edited duration becomes MM minutes and
      SS seconds (seconds clamped to 59), shown back as MM:SS when the edited
      session is the current one; the editor closes. */
  lemma TypedDuration(t: Timer, m1: char, m2: char, s1: char, s2: char)
    requires Valid(t) && t.uiMode == Editing && t.editCursorPos == 0
    requires Csv.IsDigit(m1) && Csv.IsDigit(m2) && Csv.IsDigit(s1) && Csv.IsDigit(s2)
    ensures var r := HandleKey(HandleKey(HandleKey(HandleKey(HandleKey(t, Code(m1)), Code(m2)), Code(s1)), Code(s2)), NEWLINE);
      var mm, ss := TwoDigits(m1, m2), TwoDigits(s1, s2);
      var d := if t.editingState == Work then r.workDuration else r.restDuration;
      && r.uiMode == Normal
      && d / 60 == mm && d % 60 == (if ss > 59 then 59 else ss)
      && (t.editingState == t.currentState ==> r.totalSeconds == d && !r.isRunning)
      && (t.editingState != t.currentState ==> r.totalSeconds == t.totalSeconds)
  {
    var a := HandleKey(t, Code(m1));
    var b := HandleKey(a, Code(m2));
    var c := HandleKey(b, Code(s1));
    var e := HandleKey(c, Code(s2));
    assert e.editBuffer[..DIGITS] == [m1, m2, s1, s2];
    assert e.editCursorPos == DIGITS;
    StrLenIsCursor(e);
  }

  /** Enter with fewer than four digits changes no duration and closes the editor. */
  lemma ShortEntryIgnored(t: Timer)
    requires BufferValid(t) && t.uiMode == Editing && t.editCursorPos < DIGITS
    ensures HandleKey(t, NEWLINE) == t.(uiMode := Normal)
  {
    StrLenIsCursor(t);
  }

  /** m flips the cycle, resets the progression and starts a fresh work
      session of the base length. */
  lemma ModeSwitch(t: Timer)
    requires BufferValid(t) && t.uiMode == Normal
    ensures var r := HandleKey(t, Code('m'));
      && r.cycleMode != t.cycleMode && r.currentState == Work && !r.isRunning
      && r.totalSeconds == t.workDuration && r.currentWorkDuration == t.workDuration
  {
  }

  // ---------------------------------------------------------------------------
  // The record

  /** The PomodoroData record, updated in place. */
  class PomodoroData {
    var workDuration: int
    var restDuration: int
    var progressiveStep: int
    var currentWorkDuration: int
    var totalSeconds: int
    var currentState: Session
    var cycleMode: Cycle
    var uiMode: Ui
    var editingState: Session
    var isRunning: bool
    var frame: int
    var editCursorPos: int
    const editBuffer: array<char>

    function State(): Timer
      reads this, editBuffer
    {
      Timer(workDuration, restDuration, progressiveStep, currentWorkDuration, totalSeconds,
            currentState, cycleMode, uiMode, editingState, isRunning, frame, editCursorPos, editBuffer[..])
    }

    /** A record set up by pomodoro_init_data. */
    constructor ()
      ensures editBuffer.Length == BUFFER_SIZE && State() == Initial()
    {
      editBuffer := new char[BUFFER_SIZE];
      new;
      workDuration := 25 * 60;
      restDuration := 5 * 60;
      progressiveStep := 15 * 60;
      currentWorkDuration := 0;
      cycleMode := Standard;
      editingState := Work;
      frame := 0;
      StartNewSession(Work);
    }

    /** memset of the edit buffer. */
    method ClearBuffer()
      requires editBuffer.Length == BUFFER_SIZE
      modifies editBuffer
      ensures editBuffer[..] == EMPTY_BUFFER
    {
      var k := 0;
      while k < BUFFER_SIZE
        invariant 0 <= k <= BUFFER_SIZE
        invariant forall j :: 0 <= j < k ==> editBuffer[j] == NUL
      {
        editBuffer[k] := NUL;
        k := k + 1;
      }
    }

    /** start_new_session. */
    method StartNewSession(state: Session)
      requires editBuffer.Length == BUFFER_SIZE
      modifies this, editBuffer
      ensures State() == SessionStart(old(State()), state)
    {
      currentState := state;
      isRunning := false;
      uiMode := Normal;
      ClearBuffer();
      editCursorPos := 0;
      if state == Work {
        if cycleMode == Progressive {
          if currentWorkDuration > 0 {
            currentWorkDuration := currentWorkDuration + progressiveStep;
          } else {
            currentWorkDuration := workDuration;
          }
        } else {
          currentWorkDuration := workDuration;
        }
        totalSeconds := currentWorkDuration;
      } else {
        totalSeconds := restDuration;
      }
    }

    /** pomodoro_module_handle_input. */
    method HandleInput(ch: int)
      requires editBuffer.Length == BUFFER_SIZE && BufferValid(State())
      modifies this, editBuffer
      ensures State() == HandleKey(old(State()), ch)
    {
      if uiMode == Editing {
        EditorInput(ch);
      } else {
        NormalInput(ch);
      }
    }

    /** The handler while the duration editor is open. */
    method EditorInput(ch: int)
      requires editBuffer.Length == BUFFER_SIZE && BufferValid(State()) && uiMode == Editing
      modifies this, editBuffer
      ensures State() == HandleKey(old(State()), ch)
    {
      if IsDigitKey(ch) && editCursorPos < DIGITS {
        editBuffer[editCursorPos] := ch as char;
        editCursorPos := editCursorPos + 1;
      } else if (ch == KEY_BACKSPACE || ch == DEL) && editCursorPos > 0 {
        editCursorPos := editCursorPos - 1;
        editBuffer[editCursorPos] := NUL;
      } else if ch == NEWLINE || ch == KEY_ENTER {
        ConfirmEdit();
        uiMode := Normal;
      } else if ch == ESC || ch == Code('b') || ch == Code('i') || ch == Code('o') {
        uiMode := Normal;
      }
    }

    /** The handler in the normal view. */
    method NormalInput(ch: int)
      requires editBuffer.Length == BUFFER_SIZE && BufferValid(State()) && uiMode == Normal
      modifies this, editBuffer
      ensures State() == HandleKey(old(State()), ch)
    {
      if ch == Code('i') || ch == Code('o') {
        if cycleMode == Standard {
          isRunning := false;
          uiMode := Editing;
          editingState := if ch == Code('i') then Work else Rest;
          editCursorPos := 0;
          ClearBuffer();
        }
      } else if ch == SPACE {
        isRunning := !isRunning;
      } else if ch == Code('r') {
        StartNewSession(currentState);
      } else if ch == Code('m') {
        cycleMode := if cycleMode == Standard then Progressive else Standard;
        currentWorkDuration := 0;
        StartNewSession(Work);
      }
    }

    /** The Enter branch of the editor, before the editor closes. */
    method ConfirmEdit()
      requires editBuffer.Length == BUFFER_SIZE && BufferValid(State())
      modifies this, editBuffer
      ensures State() == Confirm(old(State()))
    {
      var len := Csv.IndexOf(editBuffer[..], NUL);
      if len == DIGITS {
        var min := (editBuffer[0] as int - '0' as int) * 10 + (editBuffer[1] as int - '0' as int);
        var sec := (editBuffer[2] as int - '0' as int) * 10 + (editBuffer[3] as int - '0' as int);
        if sec > 59 {
          sec := 59;
        }
        if min > 99 {
          min := 99;
        }
        var newDuration := min * 60 + sec;
        if editingState == Work {
          workDuration := newDuration;
        } else {
          restDuration := newDuration;
        }
        if editingState == currentState {
          StartNewSession(currentState);
        }
      }
    }

    /** pomodoro_module_tick, without the beeps. */
    method Tick()
      requires editBuffer.Length == BUFFER_SIZE
      modifies this, editBuffer
      ensures State() == TickOnce(old(State()))
    {
      if isRunning && totalSeconds > 0 {
        totalSeconds := totalSeconds - 1;
      } else if isRunning && totalSeconds == 0 {
        if currentState == Work {
          StartNewSession(Rest);
        } else {
          StartNewSession(Work);
        }
      }
      if isRunning {
        frame := (frame + 1) % FRAMES;
      }
    }
  }
}
