/** Time on the board: the highlight of a task card, which day of the displayed week is
    "today", and the day the mobile view shows. */
module Clock {
  import opened Model
  import Reminders

  /** How a card is highlighted: due within the hour, past due, and the pulsing glow of the
      last moments before the due time. */
  datatype CardFlags = CardFlags(dueSoon: bool, overdue: bool, glowPulse: bool)

  const Plain := CardFlags(false, false, false)

  /** The card flags of a task due at `dueAt`, at time `now`. */
  function Flags(dueAt: Option<int>, now: int, demo: bool): (f: CardFlags)
    ensures dueAt.None? ==> f == Plain
    ensures f.dueSoon <==> dueAt.Some? && 0 < dueAt.value - now <= Hour
    ensures f.glowPulse <==> dueAt.Some? && 0 < dueAt.value - now <= (if demo then 12 * Second else 10 * Minute)
    ensures !(f.dueSoon && f.overdue)
    ensures f.glowPulse ==> f.dueSoon && !f.overdue
    ensures dueAt == Some(now) ==> f == Plain
    ensures f.overdue <==> dueAt.Some? && now > dueAt.value
  {
    match dueAt
    case None => Plain
    case Some(due) =>
      var msLeft := due - now;
      var dueSoon := 0 < msLeft <= 60 * Minute;
      var overdue := msLeft < 0;
      var glowPulse := 0 < msLeft && (if demo then msLeft <= 12 * Second else msLeft <= 10 * Minute);
      CardFlags(dueSoon, overdue, glowPulse)
  }

  /** The reminders and the card agree: a due-soon reminder fires only while the card shows
      "due soon" (and, in the demo profile only, the glow); an overdue reminder fires only
      while the card shows "overdue". */
  lemma RemindersAgreeWithCard(now: int, demo: bool, t: Task)
    ensures DueSoonReminder(t.title, demo) in Reminders.TaskNotices(now, demo, t) ==>
              Flags(t.dueAt, now, demo).dueSoon && (Flags(t.dueAt, now, demo).glowPulse <==> demo)
    ensures OverdueReminder(t.title, demo) in Reminders.TaskNotices(now, demo, t) ==>
              Flags(t.dueAt, now, demo).overdue
  {
    Reminders.TaskNoticesFacts(now, demo, t);
  }

  /** `getTodayIndexForWeek`: the index of the day of the week starting at `monday` (local
      midnight, None when the week's date does not parse) that contains `now`; 0 when `now`
      falls outside that week. */
  function TodayIndex(monday: Option<int>, now: int): (r: int)
    ensures 0 <= r < 7
    ensures monday.Some? && monday.value <= now < monday.value + 7 * Day ==>
              monday.value + r * Day <= now < monday.value + (r + 1) * Day
    ensures !(monday.Some? && monday.value <= now < monday.value + 7 * Day) ==> r == 0
  {
    match monday
    case None => 0
    case Some(m) =>
      var diff := (now - m) / Day;
      assert Day * diff <= now - m < Day * diff + Day;
      if 0 <= diff < 7 then diff else 0
  }

  /** The "previous day" button. */
  function StepBack(d: int): (r: int)
    ensures 0 <= r
    ensures 0 < d ==> r == d - 1
    ensures d <= 0 ==> r == 0
    ensures 0 <= d <= 6 ==> 0 <= r <= 6
  {
    if d - 1 > 0 then d - 1 else 0
  }

  /** The "next day" button. */
  function StepForward(d: int): (r: int)
    ensures r <= 6
    ensures d < 6 ==> r == d + 1
    ensures d >= 6 ==> r == 6
    ensures 0 <= d <= 6 ==> 0 <= r <= 6
  {
    if d + 1 < 6 then d + 1 else 6
  }

  /** What changes the mobile view's day: the two day buttons, and switching to another week
      (which jumps to that week's "today"). */
  datatype DayMove = Back | Forward | ShowWeek(monday: Option<int>, now: int)

  function Step(d: int, m: DayMove): int {
    match m
    case Back => StepBack(d)
    case Forward => StepForward(d)
    case ShowWeek(monday, now) => TodayIndex(monday, now)
  }

  function Replay(d: int, moves: seq<DayMove>): int
    decreases |moves|
  {
    if moves == [] then d else Replay(Step(d, moves[0]), moves[1..])
  }

  /** The day the mobile view shows starts as today's index and stays in 0..6 whatever the
      buttons do, so the grid always has a column for it. */
  lemma {:induction false} ActiveDayStaysOnBoard(monday: Option<int>, now: int, moves: seq<DayMove>)
    ensures 0 <= Replay(TodayIndex(monday, now), moves) <= 6
  {
    StepsKeepRange(TodayIndex(monday, now), moves);
  }

  lemma {:induction false} StepsKeepRange(d: int, moves: seq<DayMove>)
    requires 0 <= d <= 6
    ensures 0 <= Replay(d, moves) <= 6
    decreases |moves|
  {
    if moves != [] {
      StepsKeepRange(Step(d, moves[0]), moves[1..]);
    }
  }
}
