/** The board's actions: moving a task along the workflow, creating, editing and
    deleting tasks. Each action is decided from the signed-in actor (None when nobody
    is signed in) and yields an Effect: the store request it issues, if any, and the
    toast it shows at once, if any. */
module Workflow {
  import opened Model

  predicate IsAdmin(user: Option<Actor>) {
    user.Some? && user.value.role == Admin
  }

  /** The owner of a task is the person named in `assignedTo`; ids are compared as they are. */
  predicate Owns(a: Actor, t: Task) {
    t.assignedTo == Some(a.id)
  }

  /** The authorization rule for a status move, stated once: an administrator may move
      any task to any status; anybody else only a task they own, and never into To-Do.
      The task's current status plays no part. */
  predicate MayMove(a: Actor, t: Task, target: Status) {
    a.role == Admin || (Owns(a, t) && target != Todo)
  }

  /** The progress a move writes: 100 on Done, otherwise the task's own (0 when missing). */
  function MovedProgress(t: Task, target: Status): int {
    if target == Done then 100 else ProgressOr0(t)
  }

  /** Moving task `t` to `target`. Nobody signed in: nothing happens. A non-administrator
      who does not own the task is told so before the target is looked at; an owner who
      is not an administrator cannot send it back to To-Do. Otherwise the store gets the
      two fields status and progress, and a congratulation follows a successful move to Done. */
  function MoveTask(user: Option<Actor>, t: Task, target: Status): (e: Effect)
    ensures e.command.Some? <==> user.Some? && MayMove(user.value, t, target)
    ensures e.command.Some? ==> e.notice.None?
    ensures user.None? ==> e == NoEffect
    ensures user.Some? && user.value.role != Admin && !Owns(user.value, t) ==> e == Reject(NotYourTask)
    ensures user.Some? && user.value.role != Admin && Owns(user.value, t) && target == Todo ==>
              e == Reject(CannotReturnToTodo)
    ensures e.command.Some? ==>
              e.command.value.request == UpdateStatus(t.id, target, MovedProgress(t, target)) &&
              e.command.value.onFailure.None? &&
              e.command.value.onSuccess ==
                (if target == Done then Some(Congratulations(user.value.name, t.title)) else None)
    ensures e.command.Some? && target == Todo ==> IsAdmin(user)
    ensures e.notice.Some? ==> ToneOf(e.notice.value) == Error
    ensures e.command.Some? && e.command.value.onSuccess.Some? ==> ToneOf(e.command.value.onSuccess.value) == Success
  {
    if user.None? then NoEffect
    else
      var me := user.value;
      var isOwner := t.assignedTo == Some(me.id);
      if me.role != Admin && !isOwner then Reject(NotYourTask)
      else if me.role != Admin && target == Todo then Reject(CannotReturnToTodo)
      else
        var celebrate := if target == Done then Some(Congratulations(me.name, t.title)) else None;
        Effect(Some(Command(UpdateStatus(t.id, target, MovedProgress(t, target)), celebrate, None)), None)
  }

  /** A move writes the status and the progress of the task it names and nothing else,
      and keeps the convention that a Done task has progress 100. */
  lemma MoveWritesOnlyStatusAndProgress(user: Option<Actor>, t: Task, target: Status)
    requires MoveTask(user, t, target).command.Some?
    ensures var after := Patch(t, MoveTask(user, t, target).command.value.request);
            after == t.(status := target, progress := Some(MovedProgress(t, target))) &&
            (after.status == Done ==> after.progress == Some(100)) &&
            (after.status != Done ==> after.progress == Some(ProgressOr0(t)))
  {
  }

  /** What a rejected or silent move leaves in the store: the task as it was. */
  lemma RefusedMoveChangesNothing(user: Option<Actor>, t: Task, target: Status)
    requires !(user.Some? && MayMove(user.value, t, target))
    ensures MoveTask(user, t, target).command.None?
    ensures user.Some? ==> MoveTask(user, t, target).notice.Some?
  {
  }

  /** The fields of the create form as handed to `createTask`; None stands for a field
      that is undefined or null. */
  datatype CreateInput = CreateInput(
    title: string,
    description: Option<string>,
    assignedTo: Option<UserId>,
    dayIndex: Option<int>,
    dueAt: Option<int>)

  /** `description || ""` */
  function DescriptionOrEmpty(d: Option<string>): string {
    match d
    case None => ""
    case Some(s) => s
  }

  /** `Number(dayIndex || 0)` */
  function DayIndexOr0(d: Option<int>): int {
    match d
    case None => 0
    case Some(i) => i
  }

  /** Creating a task in the active week `week`. Only an administrator may; anybody else
      (or nobody) gets the "admin only" toast and no insert is sent. The inserted task
      starts in To-Do with progress 0, in the active week, created by the administrator. */
  function CreateTask(user: Option<Actor>, week: Week, input: CreateInput): (e: Effect)
    ensures e.command.Some? <==> IsAdmin(user)
    ensures !IsAdmin(user) ==> e == Reject(AdminOnlyCreate)
    ensures e.notice.Some? ==> ToneOf(e.notice.value) == Error
    ensures e.command.Some? ==>
              e.notice.None? &&
              e.command.value.request.Insert? &&
              e.command.value.onSuccess.None? &&
              e.command.value.onFailure == Some(CreateFailed) &&
              ToneOf(CreateFailed) == Error
    ensures e.command.Some? ==>
              var p := e.command.value.request.payload;
              p.status == Todo && p.progress == 0 && p.weekStart == week &&
              p.createdBy == user.value.id && p.title == input.title &&
              p.description == DescriptionOrEmpty(input.description) &&
              p.assignedTo == input.assignedTo && p.dueAt == input.dueAt &&
              p.dayIndex == DayIndexOr0(input.dayIndex)
  {
    if user.None? || user.value.role != Admin then Reject(AdminOnlyCreate)
    else
      var payload := NewTask(
        input.title,
        DescriptionOrEmpty(input.description),
        Todo,
        input.assignedTo,
        user.value.id,
        input.dueAt,
        week,
        DayIndexOr0(input.dayIndex),
        0);
      Effect(Some(Command(Insert(payload), None, Some(CreateFailed))), None)
  }

  /** The due-time field of the edit form: the text of the time input, or something that is
      not a string at all. */
  datatype DueTimeField = NotText | Text(text: string)

  /** A task opened in the edit form together with its due-time field. */
  datatype Draft = Draft(task: Task, dueTime: DueTimeField)

  datatype EditStart = Editing(draft: Draft) | Refused(notice: Notice)

  /** The character of a decimal digit. */
  function Digit(n: int): char
    requires 0 <= n < 10
  {
    ('0' as int + n) as char
  }

  /** The value of a decimal digit character. */
  function DigitValue(c: char): int {
    c as int - '0' as int
  }

  function TwoDigits(n: int): string
    requires 0 <= n < 100
  {
    [Digit(n / 10), Digit(n % 10)]
  }

  /** Text of the form "HH:MM", as a time input yields it. */
  predicate ClockText(s: string) {
    |s| == 5 && s[2] == ':' &&
    '0' <= s[0] <= '9' && '0' <= s[1] <= '9' && '0' <= s[3] <= '9' && '0' <= s[4] <= '9'
  }

  /** The minute of the day a "HH:MM" text names; None for any other text. */
  function ReadClock(s: string): Option<int> {
    if ClockText(s)
    then Some((10 * DigitValue(s[0]) + DigitValue(s[1])) * 60 + 10 * DigitValue(s[3]) + DigitValue(s[4]))
    else None
  }

  /** The hour and the minute of a time of day add up to its minute of the day, and the
      minute of the hour does not depend on the day. */
  lemma ClockArithmetic(ms: int)
    ensures ms % Day / Hour * 60 + ms % Hour / Minute == ms % Day / Minute
    ensures ms % Day % Hour == ms % Hour
  {
    var a := ms % Day;
    var h, r := a / Hour, a % Hour;
    var m, u := r / Minute, r % Minute;
    assert a == Minute * (60 * h + m) + u;
    DivModUnique(a, Minute, 60 * h + m, u);
    assert ms == Hour * (24 * (ms / Day) + h) + r;
    DivModUnique(ms, Hour, 24 * (ms / Day) + h, r);
  }

  /** The "HH:MM" wall-clock reading of an instant `ms` milliseconds after some midnight
      (the local midnight, or 1970-01-01 in UTC for an instant itself). */
  function HourMinute(ms: int): (s: string)
    ensures ClockText(s)
    ensures 10 * DigitValue(s[0]) + DigitValue(s[1]) == ms % Day / Hour
    ensures 10 * DigitValue(s[3]) + DigitValue(s[4]) == ms % Hour / Minute
    ensures ReadClock(s) == Some(ms % Day / Minute)
  {
    ClockArithmetic(ms);
    TwoDigits(ms % Day / Hour) + ":" + TwoDigits(ms % Day % Hour / Minute)
  }

  /** Opening the edit form: administrators only. The form's time field starts as the local
      "HH:MM" of the due time (`tz` is the device's offset from UTC, in milliseconds), or as
      the empty text when the task has no due time. */
  function StartEditTask(user: Option<Actor>, t: Task, tz: int): (r: EditStart)
    ensures r.Editing? <==> IsAdmin(user)
    ensures !IsAdmin(user) ==> r == Refused(AdminOnlyEdit) && ToneOf(r.notice) == Error
    ensures r.Editing? ==> r.draft.task == t && r.draft.dueTime.Text?
    ensures r.Editing? ==> (r.draft.dueTime.text == "" <==> t.dueAt.None?)
    ensures r.Editing? && t.dueAt.Some? ==>
              r.draft.dueTime == Text(HourMinute(t.dueAt.value + tz)) &&
              ReadClock(r.draft.dueTime.text) == Some((t.dueAt.value + tz) % Day / Minute)
  {
    if user.None? || user.value.role != Admin then Refused(AdminOnlyEdit)
    else
      var dueT := match t.dueAt
        case None => ""
        case Some(ms) => HourMinute(ms + tz);
      Editing(Draft(t, Text(dueT)))
  }

  /** The time field as the page fills it: the UTC "HH:MM" of the due time (characters 11 to
      16 of its ISO form), whatever the device's offset. */
  function DueTimeTextAsWritten(ms: int): (s: string)
    ensures ClockText(s) && ReadClock(s) == Some(ms % Day / Minute)
  {
    HourMinute(ms)
  }

  /** Saving reads a "HH:MM" text as local time on the task's day, whose local midnight is
      the instant `midnight`; other text is not read here. */
  function RecombinedDue(midnight: int, text: string): (r: Option<int>)
    ensures r.Some? <==> ClockText(text)
    ensures r.Some? ==> r.value - midnight == ReadClock(text).value * Minute
  {
    match ReadClock(text)
    case None => None
    case Some(m) => Some(midnight + m * Minute)
  }

  /** The due time a saved edit writes. A non-empty time text is recombined with the task's
      week and day into `recombined` (that local-time computation happens outside this
      model); an emptied text clears the due time; a field that is not text keeps it. */
  function DueAtAfterEdit(previous: Option<int>, field: DueTimeField, recombined: int): (r: Option<int>)
    ensures field.NotText? ==> r == previous
    ensures field == Text("") ==> r.None?
    ensures field.Text? && field.text != "" ==> r == Some(recombined)
  {
    match field
    case NotText => previous
    case Text(s) => if s != "" then Some(recombined) else None
  }

  /** Saving the edit form. Without an administrator or without an open form nothing happens
      and nothing is shown. Otherwise the store gets title, description, assignee, day and
      due time (never status or progress), and "task updated" follows success. */
  function SaveEditTask(user: Option<Actor>, editing: Option<Draft>, recombined: int): (e: Effect)
    ensures e.notice.None?
    ensures e.command.Some? <==> IsAdmin(user) && editing.Some?
    ensures e.command.Some? ==>
              var t := editing.value.task;
              e.command.value.request ==
                UpdateDetails(t.id, t.title, t.description, t.assignedTo, t.dayIndex,
                              DueAtAfterEdit(t.dueAt, editing.value.dueTime, recombined)) &&
              e.command.value.onSuccess == Some(TaskUpdated) &&
              e.command.value.onFailure.None?
  {
    if user.None? || user.value.role != Admin || editing.None? then NoEffect
    else
      var t := editing.value.task;
      var due := DueAtAfterEdit(t.dueAt, editing.value.dueTime, recombined);
      Effect(Some(Command(UpdateDetails(t.id, t.title, t.description, t.assignedTo, t.dayIndex, due),
                          Some(TaskUpdated), None)), None)
  }

  /** A saved edit never moves a task along the workflow: whatever document it patches keeps
      its status and its progress. */
  lemma SaveEditKeepsWorkflowState(user: Option<Actor>, editing: Option<Draft>, recombined: int, other: Task)
    requires SaveEditTask(user, editing, recombined).command.Some?
    ensures var after := Patch(other, SaveEditTask(user, editing, recombined).command.value.request);
            after.status == other.status && after.progress == other.progress &&
            after.weekStart == other.weekStart && after.createdBy == other.createdBy
  {
  }

  /** Opening a task in the edit form and saving it unchanged keeps "no due time" as it is,
      and a task that has a due time keeps one. */
  lemma EditRoundTripKeepsDuePresence(admin: Actor, t: Task, tz: int, recombined: int)
    requires admin.role == Admin
    ensures var r := StartEditTask(Some(admin), t, tz);
            r.Editing? &&
            var e := SaveEditTask(Some(admin), Some(r.draft), recombined);
            e.command.Some? &&
            (e.command.value.request.dueAt.None? <==> t.dueAt.None?)
  {
    var r := StartEditTask(Some(admin), t, tz);
    if t.dueAt.Some? {
      assert r.draft.dueTime.text != "";
    }
  }

  /** Opening a task and saving it unchanged keeps its due time: the field shows the local
      clock, which the save reads back as local time on the task's day. The due time lies in
      that day, on a whole minute (the time input has one-minute steps). */
  lemma {:induction false} UnchangedSaveKeepsDueAt(admin: Actor, t: Task, tz: int, midnight: int)
    requires admin.role == Admin && t.dueAt.Some?
    requires (midnight + tz) % Day == 0
    requires midnight <= t.dueAt.value < midnight + Day && (t.dueAt.value - midnight) % Minute == 0
    ensures var r := StartEditTask(Some(admin), t, tz);
            r.Editing? &&
            var due := RecombinedDue(midnight, r.draft.dueTime.text);
            due == t.dueAt &&
            SaveEditTask(Some(admin), Some(r.draft), due.value).command.value.request.dueAt == t.dueAt
  {
    LocalClockRoundTrip(t.dueAt.value, tz, midnight);
  }

  /** The local "HH:MM" of an instant on a whole minute, read back as local time on its own
      day, is that instant. */
  lemma LocalClockRoundTrip(due: int, tz: int, midnight: int)
    requires (midnight + tz) % Day == 0
    requires midnight <= due < midnight + Day && (due - midnight) % Minute == 0
    ensures RecombinedDue(midnight, HourMinute(due + tz)) == Some(due)
  {
    ReadBack(midnight, due + tz);
    MinuteOfLocalDay(due, tz, midnight);
  }

  /** Reading back an "HH:MM" text places its minute of the day after `midnight`. */
  lemma ReadBack(midnight: int, y: int)
    ensures RecombinedDue(midnight, HourMinute(y)) == Some(midnight + y % Day / Minute * Minute)
  {
  }

  lemma MinuteOfLocalDay(due: int, tz: int, midnight: int)
    requires (midnight + tz) % Day == 0
    requires midnight <= due < midnight + Day && (due - midnight) % Minute == 0
    ensures midnight + (due + tz) % Day / Minute * Minute == due
  {
    var w := due - midnight;
    var j := (midnight + tz) / Day;
    assert due + tz == Day * j + w;
    DivModUnique(due + tz, Day, j, w);
    assert w == Minute * (w / Minute);
  }

  /** As written, the field shows the UTC clock but the save reads it as local time. In
      UTC-3, on the day whose local midnight is 03:00 UTC, a task due at 18:00 local
      (21:00 UTC) shows "21:00", and saving it unchanged moves it three hours later. */
  lemma UnchangedSaveShiftsDueAsWritten()
    ensures var tz, midnight, due := -3 * Hour, 3 * Hour, 21 * Hour;
            (midnight + tz) % Day == 0 &&
            RecombinedDue(midnight, DueTimeTextAsWritten(due)) == Some(due + 3 * Hour)
  {
    DivModUnique(21 * Hour, Day, 0, 21 * Hour);
    DivModUnique(21 * Hour, Minute, 21 * 60, 0);
  }

  /** Deleting a task: administrators only, and only after they confirm the dialog
      (`confirmed` is their answer). */
  function DeleteTaskConfirm(user: Option<Actor>, t: Task, confirmed: bool): (e: Effect)
    ensures !IsAdmin(user) ==> e == Reject(AdminOnlyDelete)
    ensures e.command.Some? <==> IsAdmin(user) && confirmed
    ensures IsAdmin(user) && !confirmed ==> e == NoEffect
    ensures e.command.Some? ==>
              e.notice.None? &&
              e.command.value == Command(Remove(t.id), Some(TaskDeleted), None)
  {
    if user.None? || user.value.role != Admin then Reject(AdminOnlyDelete)
    else if confirmed then Effect(Some(Command(Remove(t.id), Some(TaskDeleted), None)), None)
    else NoEffect
  }

  /** The move button a card shows: in the To-Do section it moves to Doing, in the Doing
      section to Done, and the Done section has none. */
  function SectionTarget(s: Status): Option<Status> {
    match s
    case Todo => Some(Doing)
    case Doing => Some(Done)
    case Done => None
  }

  /** A card shows its move button to administrators and to the task's owner. */
  predicate MoveButtonShown(me: Actor, t: Task) {
    me.role == Admin || Owns(me, t)
  }

  /** Every move button the board shows leads to an accepted move: the buttons only ever
      move forward, so an owner is never refused. */
  lemma ShownButtonsAreAccepted(me: Actor, t: Task)
    requires MoveButtonShown(me, t) && SectionTarget(t.status).Some?
    ensures MoveTask(Some(me), t, SectionTarget(t.status).value).command.Some?
  {
  }

  /** The walk-through of the board: an administrator creates a task for `owner`; the owner
      moves it to Doing (progress stays 0) and then to Done (progress 100); anybody else who
      is not an administrator is turned away with "not your task" and the task stays as it is. */
  lemma CreateThenMoveScenario(admin: Actor, owner: Actor, other: Actor, week: Week, id: TaskId, title: string)
    requires admin.role == Admin && owner.role == User && other.role == User && other.id != owner.id
    ensures var created := CreateTask(Some(admin), week, CreateInput(title, None, Some(owner.id), Some(4), None));
            created.command.Some? &&
            var t0 := Stored(id, created.command.value.request.payload);
            t0.status == Todo && t0.progress == Some(0) && t0.dayIndex == 4 && t0.weekStart == week &&
            var m1 := MoveTask(Some(owner), t0, Doing);
            m1.command.Some? &&
            var t1 := Patch(t0, m1.command.value.request);
            t1.status == Doing && t1.progress == Some(0) &&
            MoveTask(Some(other), t1, Done) == Reject(NotYourTask) &&
            var m2 := MoveTask(Some(owner), t1, Done);
            m2.command.Some? &&
            var t2 := Patch(t1, m2.command.value.request);
            t2.status == Done && t2.progress == Some(100)
  {
  }
}
