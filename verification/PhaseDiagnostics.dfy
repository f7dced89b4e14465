/** src/spicy_regs/connection_diagnostics.py: nested phases of many threads, with room for sixteen tracked threads. */
module PhaseDiagnostics {
  import opened Basics

  type Thread = nat

  const MAX_ACTIVE: nat := 16
  const RECENT: nat := 32
  const MAX_NAME: nat := 64
  const MAX_TABLE: nat := 160
  const LONG_TABLE := "<identifier exceeds diagnostic bound>"

  datatype Record = Record(phase: string, table: Option<string>, started: int, operationStarted: int)
  datatype Done = Done(phase: string, table: Option<string>, seconds: int, error: Option<string>)

  /** The local variables of one open `with phase(...)`: whether it is tracked, and the record it displaced. */
  datatype Frame = Tracked(previous: Option<Record>, record: Record) | Untracked

  /** The module's globals, with every thread's open frames (innermost last), the threads of the open untracked frames,
      and all tracked phases completed so far. */
  datatype State = State(active: map<Thread, Record>, recent: seq<Done>, untracked: int,
                         frames: map<Thread, seq<Frame>>, untrackedBy: multiset<Thread>, completed: seq<Done>)

  const START := State(map[], [], 0, map[], multiset{}, [])

  datatype Action =
    | Enter(thread: Thread, name: string, table: Option<string>, now: int)
    | Exit(thread: Thread, now: int, error: Option<string>)

  function FramesOf(s: State, t: Thread): seq<Frame> {
    if t in s.frames then s.frames[t] else []
  }

  function ActiveOf(s: State, t: Thread): Option<Record> {
    if t in s.active then Some(s.active[t]) else None
  }

  function BoundedTable(table: Option<string>): Option<string> {
    if table.Some? && |table.value| > MAX_TABLE then Some(LONG_TABLE) else table
  }

  function Opened(s: State, t: Thread, name: string, table: Option<string>, now: int): Frame {
    var previous := ActiveOf(s, t);
    if previous.Some? || |s.active| < MAX_ACTIVE
    then Tracked(previous, Record(name, BoundedTable(table), now, if previous.Some? then previous.value.operationStarted else now))
    else Untracked
  }

  /** deque(maxlen=32).append */
  function Remember(recent: seq<Done>, done: Done): seq<Done> {
    var all := recent + [done];
    if |all| > RECENT then all[|all| - RECENT..] else all
  }

  /** One locked section: an entry, or the exit of the thread's innermost open phase. */
  function Next(s: State, a: Action): State {
    match a
    case Enter(t, name, table, now) =>
      if |name| > MAX_NAME then s
      else
        var frame := Opened(s, t, name, table, now);
        var frames := s.frames[t := FramesOf(s, t) + [frame]];
        if frame.Tracked? then s.(active := s.active[t := frame.record], frames := frames)
        else s.(untracked := s.untracked + 1, frames := frames, untrackedBy := s.untrackedBy + multiset{t})
    case Exit(t, now, error) =>
      if FramesOf(s, t) == [] then s
      else
        var open := FramesOf(s, t);
        var frame := open[|open| - 1];
        var frames := s.frames[t := open[..|open| - 1]];
        match frame
        case Untracked =>
          s.(untracked := s.untracked - 1, frames := frames, untrackedBy := s.untrackedBy - multiset{t})
        case Tracked(previous, record) =>
          var done := Done(record.phase, record.table, Max(0, now - record.started), error);
          s.(active := if previous.Some? then s.active[t := previous.value] else s.active - {t},
             recent := Remember(s.recent, done), frames := frames, completed := s.completed + [done])
  }

  function Run(s: State, actions: seq<Action>): State {
    if actions == [] then s else Next(Run(s, actions[..|actions| - 1]), actions[|actions| - 1])
  }

  /** What entering a phase records of a thread that is tracked, or for which there is room: its own arguments, a table name
      beyond 160 characters replaced, and the start of the enclosing operation. Without room only the counter moves. */
  lemma EntryRecords(s: State, t: Thread, name: string, table: Option<string>, now: int)
    requires |name| <= 64
    ensures var after := Next(s, Enter(t, name, table, now));
      if t in s.active || |s.active| < 16 then
        && after.active.Keys == s.active.Keys + {t} && (forall u :: u in s.active && u != t ==> after.active[u] == s.active[u])
        && after.active[t].phase == name && after.active[t].started == now
        && after.active[t].operationStarted == (if t in s.active then s.active[t].operationStarted else now)
        && (table.Some? && |table.value| > 160 ==> after.active[t].table == Some("<identifier exceeds diagnostic bound>"))
        && (table.None? || |table.value| <= 160 ==> after.active[t].table == table)
        && after.untracked == s.untracked
      else after.active == s.active && after.untracked == s.untracked + 1
  {
  }

  /** What leaving a tracked phase records: its name and table, its time, never below zero, and the error; and recent keeps
      the last 32. */
  lemma ExitRecords(s: State, t: Thread, now: int, error: Option<string>)
    requires FramesOf(s, t) != [] && FramesOf(s, t)[|FramesOf(s, t)| - 1].Tracked?
    ensures var record := FramesOf(s, t)[|FramesOf(s, t)| - 1].record;
      var recent := Next(s, Exit(t, now, error)).recent;
      && recent != [] && recent[|recent| - 1].phase == record.phase && recent[|recent| - 1].table == record.table
      && recent[|recent| - 1].error == error
      && recent[|recent| - 1].seconds == (if now >= record.started then now - record.started else 0)
      && (|s.recent| < 32 ==> recent[..|recent| - 1] == s.recent)
      && (|s.recent| == 32 ==> recent[..|recent| - 1] == s.recent[1..])
  {
  }

  // ----- one thread's open frames -----

  /** The record of the innermost tracked frame, if the innermost frame is tracked. */
  function Top(open: seq<Frame>): Option<Record> {
    if open != [] && open[|open| - 1].Tracked? then Some(open[|open| - 1].record) else None
  }

  function CountUntracked(open: seq<Frame>): nat {
    if open == [] then 0
    else CountUntracked(open[..|open| - 1]) + if open[|open| - 1].Untracked? then 1 else 0
  }

  /** Untracked frames lie below tracked ones; each tracked frame displaced the record of the frame below it, and carries
      the start of the outermost tracked one. */
  ghost predicate Stacked(open: seq<Frame>) {
    open == [] ||
    (var below, frame := open[..|open| - 1], open[|open| - 1];
     && Stacked(below)
     && match frame
        case Untracked => CountUntracked(below) == |below|
        case Tracked(previous, record) =>
          && previous == Top(below)
          && record.operationStarted == if previous.Some? then previous.value.operationStarted else record.started)
  }

  /** The last RECENT entries. */
  function Latest(all: seq<Done>): seq<Done> {
    if |all| > RECENT then all[|all| - RECENT..] else all
  }

  ghost predicate ThreadFits(s: State, t: Thread) {
    && Stacked(FramesOf(s, t)) && ActiveOf(s, t) == Top(FramesOf(s, t))
    && s.untrackedBy[t] == CountUntracked(FramesOf(s, t))
  }

  ghost predicate Inv(s: State) {
    && |s.active| <= MAX_ACTIVE && s.untracked == |s.untrackedBy| && s.recent == Latest(s.completed)
    && forall t :: ThreadFits(s, t)
  }

  lemma {:induction false} NoTrackedAllUntracked(open: seq<Frame>)
    requires Stacked(open) && Top(open).None?
    ensures CountUntracked(open) == |open|
  {
    if open != [] {
      assert open[|open| - 1].Untracked?;
    }
  }

  lemma EnterKeepsThread(s: State, t: Thread, name: string, table: Option<string>, now: int)
    requires Inv(s) && |name| <= MAX_NAME
    ensures ThreadFits(Next(s, Enter(t, name, table, now)), t)
  {
    var open := FramesOf(s, t);
    var frame := Opened(s, t, name, table, now);
    assert ThreadFits(s, t);
    assert (open + [frame])[..|open|] == open;
    if frame.Untracked? {
      NoTrackedAllUntracked(open);
    }
  }

  lemma ExitKeepsThread(s: State, t: Thread, now: int, error: Option<string>)
    requires Inv(s)
    ensures ThreadFits(Next(s, Exit(t, now, error)), t)
  {
    assert ThreadFits(s, t);
    var open := FramesOf(s, t);
    if open != [] && open[|open| - 1].Untracked? {
      NoTrackedAllUntracked(open);
      var below := open[..|open| - 1];
      if below != [] {
        assert CountUntracked(below) == |below|;
        AllUntrackedTop(below);
      }
    }
  }

  lemma {:induction false} AllUntrackedTop(open: seq<Frame>)
    requires CountUntracked(open) == |open|
    ensures Top(open).None?
  {
    if open != [] {
      CountAtMost(open[..|open| - 1]);
    }
  }

  lemma {:induction false} CountAtMost(open: seq<Frame>)
    ensures CountUntracked(open) <= |open|
  {
    if open != [] {
      CountAtMost(open[..|open| - 1]);
    }
  }

  lemma OthersUntouched(s: State, a: Action, t: Thread)
    requires ThreadFits(s, t) && t != a.thread
    ensures ThreadFits(Next(s, a), t)
  {
    assert FramesOf(Next(s, a), t) == FramesOf(s, t) && ActiveOf(Next(s, a), t) == ActiveOf(s, t);
  }

  lemma RememberIsLatest(all: seq<Done>, done: Done)
    ensures Remember(Latest(all), done) == Latest(all + [done])
  {
  }

  lemma StepKeepsTotals(s: State, a: Action)
    requires Inv(s)
    ensures var after := Next(s, a);
      |after.active| <= MAX_ACTIVE && after.untracked == |after.untrackedBy| && after.recent == Latest(after.completed)
  {
    assert ThreadFits(s, a.thread);
    match a
    case Enter(t, _, _, _) =>
    case Exit(t, now, error) =>
      var open := FramesOf(s, t);
      if open != [] {
        match open[|open| - 1]
        case Untracked => assert t in s.untrackedBy;
        case Tracked(previous, record) =>
          RememberIsLatest(s.completed, Done(record.phase, record.table, Max(0, now - record.started), error));
          assert |s.active - {t}| <= |s.active| by {
            assert s.active.Keys - {t} <= s.active.Keys;
          }
      }
  }

  lemma StepKeepsInv(s: State, a: Action)
    requires Inv(s)
    ensures Inv(Next(s, a))
  {
    StepKeepsTotals(s, a);
    forall t
      ensures ThreadFits(Next(s, a), t)
    {
      assert ThreadFits(s, t);
      if t != a.thread {
        OthersUntouched(s, a, t);
      } else {
        match a
        case Enter(_, name, table, now) =>
          if |name| <= MAX_NAME {
            EnterKeepsThread(s, t, name, table, now);
          }
        case Exit(_, now, error) => ExitKeepsThread(s, t, now, error);
      }
    }
  }

  /** Over every interleaving of entries and exits by any number of threads: at most sixteen threads are active; each
      thread's open frames are untracked ones below tracked ones; its active record is its innermost tracked frame's; the
      overflow count is the number of open untracked frames; and recent is the last 32 tracked phases completed. */
  lemma {:induction false} EveryInterleaving(actions: seq<Action>)
    ensures Inv(Run(START, actions))
  {
    if actions != [] {
      EveryInterleaving(actions[..|actions| - 1]);
      StepKeepsInv(Run(START, actions[..|actions| - 1]), actions[|actions| - 1]);
    }
  }

  // ----- nesting -----

  /** Between an entry and its own exit the thread's stack stays above what it was. */
  ghost predicate StaysAbove(s: State, actions: seq<Action>, t: Thread, depth: nat) {
    forall n :: 0 <= n <= |actions| ==> |FramesOf(Run(s, actions[..n]), t)| > depth
  }

  lemma {:induction false} LowerFramesStay(s: State, actions: seq<Action>, t: Thread, depth: nat)
    requires StaysAbove(s, actions, t, depth) && |FramesOf(s, t)| > depth
    ensures |FramesOf(Run(s, actions), t)| > depth
    ensures FramesOf(Run(s, actions), t)[..depth + 1] == FramesOf(s, t)[..depth + 1]
  {
    assert actions[..|actions|] == actions;
    if actions != [] {
      var front, last := actions[..|actions| - 1], actions[|actions| - 1];
      forall n | 0 <= n <= |front|
        ensures |FramesOf(Run(s, front[..n]), t)| > depth
      {
        assert front[..n] == actions[..n];
      }
      LowerFramesStay(s, front, t, depth);
      StepLowerFrames(Run(s, front), last, t, depth);
    }
  }

  lemma StepLowerFrames(s: State, a: Action, t: Thread, depth: nat)
    requires |FramesOf(s, t)| > depth && |FramesOf(Next(s, a), t)| > depth
    ensures FramesOf(Next(s, a), t)[..depth + 1] == FramesOf(s, t)[..depth + 1]
  {
  }

  /** Whatever happens in between, in this thread or others, an exit restores exactly the record its entry found, and the
      thread's other open frames. */
  lemma ExitRestores(before: seq<Action>, enter: Action, between: seq<Action>, exit: Action)
    requires enter.Enter? && |enter.name| <= MAX_NAME && exit.Exit? && exit.thread == enter.thread
    requires var s := Run(START, before);
      && StaysAbove(Next(s, enter), between, enter.thread, |FramesOf(s, enter.thread)|)
      && |FramesOf(Run(Next(s, enter), between), enter.thread)| == |FramesOf(s, enter.thread)| + 1
    ensures var s := Run(START, before);
      var after := Next(Run(Next(s, enter), between), exit);
      FramesOf(after, enter.thread) == FramesOf(s, enter.thread) && ActiveOf(after, enter.thread) == ActiveOf(s, enter.thread)
  {
    var s, t := Run(START, before), enter.thread;
    var entered := Next(s, enter);
    var later := Run(entered, between);
    EveryInterleaving(before);
    StepKeepsInv(s, enter);
    RunKeepsInv(entered, between);
    StepKeepsInv(later, exit);
    FramesRestored(s, enter, between, exit);
    ActiveFromFrames(s, Next(later, exit), t);
  }

  lemma ActiveFromFrames(a: State, b: State, t: Thread)
    requires Inv(a) && Inv(b) && FramesOf(a, t) == FramesOf(b, t)
    ensures ActiveOf(a, t) == ActiveOf(b, t)
  {
    assert ThreadFits(a, t) && ThreadFits(b, t);
  }

  lemma FramesRestored(s: State, enter: Action, between: seq<Action>, exit: Action)
    requires enter.Enter? && |enter.name| <= MAX_NAME && exit.Exit? && exit.thread == enter.thread
    requires StaysAbove(Next(s, enter), between, enter.thread, |FramesOf(s, enter.thread)|)
    requires |FramesOf(Run(Next(s, enter), between), enter.thread)| == |FramesOf(s, enter.thread)| + 1
    ensures FramesOf(Next(Run(Next(s, enter), between), exit), enter.thread) == FramesOf(s, enter.thread)
  {
    var t := enter.thread;
    var entered := Next(s, enter);
    var depth := |FramesOf(s, t)|;
    EnterPushes(s, enter);
    LowerFramesStay(entered, between, t, depth);
    var later := Run(entered, between);
    assert FramesOf(later, t)[..depth] == FramesOf(later, t)[..depth + 1][..depth];
    assert FramesOf(entered, t)[..depth] == FramesOf(entered, t)[..depth + 1][..depth];
    ExitPops(later, exit);
  }

  lemma EnterPushes(s: State, enter: Action)
    requires enter.Enter? && |enter.name| <= MAX_NAME
    ensures var open := FramesOf(s, enter.thread);
      |FramesOf(Next(s, enter), enter.thread)| == |open| + 1 && FramesOf(Next(s, enter), enter.thread)[..|open|] == open
  {
  }

  lemma ExitPops(s: State, exit: Action)
    requires exit.Exit? && FramesOf(s, exit.thread) != []
    ensures FramesOf(Next(s, exit), exit.thread) == FramesOf(s, exit.thread)[..|FramesOf(s, exit.thread)| - 1]
  {
  }

  lemma {:induction false} RunKeepsInv(s: State, actions: seq<Action>)
    requires Inv(s)
    ensures Inv(Run(s, actions))
  {
    if actions != [] {
      RunKeepsInv(s, actions[..|actions| - 1]);
      StepKeepsInv(Run(s, actions[..|actions| - 1]), actions[|actions| - 1]);
    }
  }

  /** The operation a thread reports began when its outermost tracked phase did. */
  lemma {:induction false} OperationStartIsOutermost(open: seq<Frame>)
    requires Stacked(open) && Top(open).Some?
    ensures CountUntracked(open) < |open| && open[CountUntracked(open)].Tracked?
    ensures Top(open).value.operationStarted == open[CountUntracked(open)].record.started
    ensures forall i :: 0 <= i < |open| ==> (open[i].Tracked? <==> i >= CountUntracked(open))
  {
    var below := open[..|open| - 1];
    if Top(below).Some? {
      OperationStartIsOutermost(below);
    } else {
      NoTrackedAllUntracked(below);
      AllFramesUntracked(below);
    }
  }

  lemma {:induction false} AllFramesUntracked(open: seq<Frame>)
    requires CountUntracked(open) == |open|
    ensures forall i :: 0 <= i < |open| ==> open[i].Untracked?
  {
    if open != [] {
      CountAtMost(open[..|open| - 1]);
      AllFramesUntracked(open[..|open| - 1]);
    }
  }

  // ----- the context manager -----

  class Diagnostics {
    var active: map<Thread, Record>
    var recent: seq<Done>
    var untracked: int
    ghost var frames: map<Thread, seq<Frame>>
    ghost var untrackedBy: multiset<Thread>
    ghost var completed: seq<Done>

    ghost function Now(): State
      reads this
    {
      State(active, recent, untracked, frames, untrackedBy, completed)
    }

    ghost predicate Valid()
      reads this
    {
      Inv(Now())
    }

    constructor ()
      ensures Valid() && Now() == START
    {
      active, recent, untracked := map[], [], 0;
      frames, untrackedBy, completed := map[], multiset{}, [];
    }

    /** Up to the yield. None: the name is too long, and nothing was recorded. */
    method Open(thread: Thread, name: string, table: Option<string>, now: int) returns (frame: Option<Frame>)
      requires Valid()
      modifies this
      ensures Valid() && Now() == Next(old(Now()), Enter(thread, name, table, now))
      ensures frame.Some? <==> |name| <= MAX_NAME
      ensures frame.Some? ==> FramesOf(Now(), thread) == FramesOf(old(Now()), thread) + [frame.value]
    {
      StepKeepsInv(Now(), Enter(thread, name, table, now));
      if |name| > MAX_NAME {
        return None;
      }
      var previous := if thread in active then Some(active[thread]) else None;
      var made := Untracked;
      if previous.Some? || |active| < MAX_ACTIVE {
        var operation := if previous.Some? then previous.value.operationStarted else now;
        made := Tracked(previous, Record(name, BoundedTable(table), now, operation));
        active := active[thread := made.record];
      } else {
        untracked := untracked + 1;
        untrackedBy := untrackedBy + multiset{thread};
      }
      frames := frames[thread := (if thread in frames then frames[thread] else []) + [made]];
      frame := Some(made);
    }

    /** From the yield on, given the innermost frame of the thread. */
    method Close(thread: Thread, frame: Frame, now: int, error: Option<string>)
      requires Valid() && FramesOf(Now(), thread) != []
      requires frame == FramesOf(Now(), thread)[|FramesOf(Now(), thread)| - 1]
      modifies this
      ensures Valid() && Now() == Next(old(Now()), Exit(thread, now, error))
    {
      StepKeepsInv(Now(), Exit(thread, now, error));
      if frame.Untracked? {
        CloseUntracked(thread, now, error);
      } else {
        CloseTracked(thread, frame.previous, frame.record, now, error);
      }
    }

    method CloseUntracked(thread: Thread, ghost now: int, ghost error: Option<string>)
      requires FramesOf(Now(), thread) != [] && FramesOf(Now(), thread)[|FramesOf(Now(), thread)| - 1].Untracked?
      modifies this
      ensures Now() == Next(old(Now()), Exit(thread, now, error))
    {
      untracked := untracked - 1;
      untrackedBy := untrackedBy - multiset{thread};
      frames := frames[thread := frames[thread][..|frames[thread]| - 1]];
    }

    method CloseTracked(thread: Thread, previous: Option<Record>, record: Record, now: int, error: Option<string>)
      requires FramesOf(Now(), thread) != []
      requires Tracked(previous, record) == FramesOf(Now(), thread)[|FramesOf(Now(), thread)| - 1]
      modifies this
      ensures Now() == Next(old(Now()), Exit(thread, now, error))
    {
      var done := Done(record.phase, record.table, Max(0, now - record.started), error);
      recent := Remember(recent, done);
      completed := completed + [done];
      if previous.None? {
        active := active - {thread};
      } else {
        active := active[thread := previous.value];
      }
      frames := frames[thread := frames[thread][..|frames[thread]| - 1]];
    }
  }
}
