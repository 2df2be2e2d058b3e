/** The reminder tick: once a second, while someone is signed in and has allowed
    notifications, every task of the mirror that has a due time is checked against two
    narrow windows, one before the due time and one after it. The demo profile uses
    seconds, the normal profile minutes. */
module Reminders {
  import opened Model

  /** Due soon: demo, more than 9 s and at most 10 s before the due time;
      normal, more than 59 min and at most 60 min before it. */
  predicate DueSoonFires(demo: bool, now: int, due: int) {
    if demo then 9 * Second < due - now <= 10 * Second
    else 59 * Minute < due - now <= 60 * Minute
  }

  /** Overdue: demo, at least 5 s and less than 6 s after the due time;
      normal, at least 60 s and less than 70 s after it. */
  predicate OverdueFires(demo: bool, now: int, due: int) {
    if demo then 5 * Second <= now - due < 6 * Second
    else 60 * Second <= now - due < 70 * Second
  }

  /** The reminders one task yields on a tick at `now`: the due-soon check, then the overdue
      check. */
  function TaskNotices(now: int, demo: bool, t: Task): seq<Notice> {
    match t.dueAt
    case None => []
    case Some(due) =>
      (if DueSoonFires(demo, now, due) then [DueSoonReminder(t.title, demo)] else []) +
      (if OverdueFires(demo, now, due) then [OverdueReminder(t.title, demo)] else [])
  }

  /** What one task yields: nothing without a due time; each reminder exactly inside its
      window; and, since the two windows lie on opposite sides of the due time, at most one. */
  lemma TaskNoticesFacts(now: int, demo: bool, t: Task)
    ensures var r := TaskNotices(now, demo, t);
            |r| <= 1 &&
            (t.dueAt.None? ==> r == []) &&
            (DueSoonReminder(t.title, demo) in r <==> t.dueAt.Some? && DueSoonFires(demo, now, t.dueAt.value)) &&
            (OverdueReminder(t.title, demo) in r <==> t.dueAt.Some? && OverdueFires(demo, now, t.dueAt.value)) &&
            (forall n :: n in r ==> n == DueSoonReminder(t.title, demo) || n == OverdueReminder(t.title, demo)) &&
            ToneOf(DueSoonReminder(t.title, demo)) == Warn && ToneOf(OverdueReminder(t.title, demo)) == Error
  {
    if t.dueAt.Some? {
      var due := t.dueAt.value;
      assert !(DueSoonFires(demo, now, due) && OverdueFires(demo, now, due));
    }
  }

  /** The reminders of one tick over the tasks `ts`, in task order. */
  function TickNotices(now: int, demo: bool, ts: seq<Task>): seq<Notice> {
    if ts == [] then []
    else TickNotices(now, demo, ts[..|ts| - 1]) + TaskNotices(now, demo, ts[|ts| - 1])
  }

  /** The body of one tick: walk the mirror and push each task's reminders. */
  method ReminderTick(now: int, demo: bool, tasks: seq<Task>) returns (notices: seq<Notice>)
    ensures notices == TickNotices(now, demo, tasks)
    ensures |notices| <= |tasks|
  {
    notices := [];
    var i := 0;
    while i < |tasks|
      invariant 0 <= i <= |tasks|
      invariant notices == TickNotices(now, demo, tasks[..i])
    {
      var t := tasks[i];
      assert tasks[..i + 1][..i] == tasks[..i];
      if t.dueAt.Some? {
        var due := t.dueAt.value;
        if DueSoonFires(demo, now, due) {
          notices := notices + [DueSoonReminder(t.title, demo)];
        }
        if OverdueFires(demo, now, due) {
          notices := notices + [OverdueReminder(t.title, demo)];
        }
      }
      i := i + 1;
    }
    assert tasks[..i] == tasks;
    AtMostOneReminderPerTask(now, demo, tasks);
  }

  /** A tick shows at most one reminder per task. */
  lemma {:induction false} AtMostOneReminderPerTask(now: int, demo: bool, ts: seq<Task>)
    ensures |TickNotices(now, demo, ts)| <= |ts|
  {
    if ts != [] {
      AtMostOneReminderPerTask(now, demo, ts[..|ts| - 1]);
      TaskNoticesFacts(now, demo, ts[|ts| - 1]);
    }
  }

  /** A tick's reminders over two runs of tasks are those of the first run followed by
      those of the second. */
  lemma {:induction false} TickNoticesConcat(now: int, demo: bool, a: seq<Task>, b: seq<Task>)
    ensures TickNotices(now, demo, a + b) == TickNotices(now, demo, a) + TickNotices(now, demo, b)
    decreases |b|
  {
    if b == [] {
      assert a + b == a;
      assert TickNotices(now, demo, b) == [];
    } else {
      var b', last := b[..|b| - 1], b[|b| - 1];
      assert (a + b)[..|a + b| - 1] == a + b';
      assert (a + b)[|a + b| - 1] == last;
      TickNoticesConcat(now, demo, a, b');
      var x, y, z := TickNotices(now, demo, a), TickNotices(now, demo, b'), TaskNotices(now, demo, last);
      assert TickNotices(now, demo, a + b) == x + y + z;
      assert TickNotices(now, demo, b) == y + z;
      assert x + y + z == x + (y + z);
    }
  }

  /** A task without a due time never adds a reminder, wherever it sits in the mirror. */
  lemma NoDueTimeNoReminder(now: int, demo: bool, a: seq<Task>, t: Task, b: seq<Task>)
    requires t.dueAt.None?
    ensures TickNotices(now, demo, a + [t] + b) == TickNotices(now, demo, a + b)
  {
    TickNoticesConcat(now, demo, a + [t], b);
    TickNoticesConcat(now, demo, a, b);
    assert (a + [t])[..|a|] == a;
  }

  /** Ticks at `start`, `start` + 1 s, `start` + 2 s, ... that fall in the window
      [lo, lo + width) are a run of width / 1 s consecutive ticks starting at tick `first`. */
  lemma TicksInWindow(lo: int, width: int, start: int) returns (first: int)
    requires 0 < width && width % Second == 0
    ensures forall k :: lo <= start + Second * k < lo + width <==> first <= k < first + width / Second
  {
    var q := (start - lo) / Second;
    assert Second * q <= start - lo < Second * q + Second;
    var n := width / Second;
    assert width == Second * n;
    first := -q;
    forall k
      ensures lo <= start + Second * k < lo + width <==> first <= k < first + n
    {
      if k < first {
        assert start + Second * k <= start + Second * (first - 1);
      } else if k >= first + n {
        assert start + Second * k >= start + Second * (first + n);
      }
    }
  }

  /** With one tick per second, a task's due-soon reminder fires on exactly one tick in the
      demo profile, but on 60 consecutive ticks (a whole minute) in the normal profile. */
  lemma DueSoonTicks(demo: bool, due: int, start: int) returns (first: int)
    ensures forall k :: DueSoonFires(demo, start + Second * k, due) <==>
                        first <= k < first + (if demo then 1 else 60)
  {
    if demo {
      first := TicksInWindow(due - 10 * Second, Second, start);
    } else {
      first := TicksInWindow(due - 60 * Minute, Minute, start);
    }
  }

  /** With one tick per second, a task's overdue reminder fires on exactly one tick in the
      demo profile, but on 10 consecutive ticks in the normal profile. */
  lemma OverdueTicks(demo: bool, due: int, start: int) returns (first: int)
    ensures forall k :: OverdueFires(demo, start + Second * k, due) <==>
                        first <= k < first + (if demo then 1 else 10)
  {
    if demo {
      first := TicksInWindow(due + 5 * Second, Second, start);
    } else {
      first := TicksInWindow(due + 60 * Second, 10 * Second, start);
    }
  }
}
