# Supremo Kanban: workflow and board logic

A model, in Dafny, of the rules inside the weekly task board of Supremo Kanban
(`page.jsx`). An administrator creates tasks for the staff. Staff move their own
tasks from To-Do to Doing to Done. A one-second tick raises "due soon" and "overdue"
reminders. The board groups the active week's tasks into a 7-day by 3-status grid
and shows each person their completion totals.

Modelling choices:

- Time is integer milliseconds since the epoch.
- The local mirror of the store is a `seq<Task>`, in arrival order.
- The page does not change the store directly. Each action returns an `Effect`: the store
  request it would send (with the toasts shown when the store accepts or rejects it),
  plus any toast shown straight away. This makes "no insert" and "no update" statable.
- Nobody signed in is `None`. A role claim other than `ADMIN` counts as `User`.
- The device's offset from UTC is a parameter `tz` in milliseconds (local = UTC + `tz`).
- Two defects of the code are modelled both as written and corrected (see "## Findings").
  The rest of the model uses the corrected forms: the form stores the selected uid as it
  is, and the edit form shows the due time on the local clock.

Modules:

- `Model` (model.dfy): tasks, actors, toasts, store requests, and how the store merges a
  partial update (`Patch`).
- `Workflow` (workflow.dfy): `moveTask`, `createTask`, `startEditTask`, `saveEditTask`
  and `deleteTaskConfirm`. These are functions of the actor and the task. `MayMove` is
  the single authorization rule for a move.
- `Board` (board.dfy): the week filter, `grouped` and `myStats`. `Grouped` is the
  source's push loop, written as a method and proved against the reference `Cell`.
- `Reminders` (reminders.dfy): one reminder tick. `ReminderTick` is the source's loop,
  proved against `TickNotices`.
- `Clock` (clock.dfy): the card highlight flags, `getTodayIndexForWeek`, and the
  previous/next day buttons.
- `Forms` (forms.dfy): the Create button's blank-title check, and how the form stores
  the chosen assignee.

Three behaviours of the code that a reader may not expect:

- `moveTask` never looks at the current status. An administrator may move any task to
  any status, including back to To-Do. A non-administrator owner may move a task to
  Doing or Done from any status.
- A full edit writes title, description, assignee, day and due time, but never status
  or progress, so an edit never reopens a Done task. `moveTask` itself would accept a
  move from Done (an administrator's to any status, an owner's to Doing), but no Done
  card shows a move button (page.jsx:587-594, 637-644).
- The reminder windows are checked on every tick. In the demo profile each window is
  1 s wide, so a reminder fires on exactly one tick. In the normal profile the due-soon
  window is 60 s wide and the overdue window 10 s wide. So with one tick per second,
  "1 hour left" fires on 60 consecutive ticks and "1 minute late" on 10
  (`Reminders.DueSoonTicks`, `Reminders.OverdueTicks`).

## Model

| member | source | states |
|---|---|---|
| `Workflow.MoveTask` | page.jsx:306-321 | Nobody signed in: no request and no toast. A non-administrator who does not own the task gets "not your task", whatever the target. An owner who is not an administrator gets "cannot return to To-Do" for target To-Do. Refusals are error toasts. A request is sent exactly when `MayMove` holds. It is `UpdateStatus(id, target, progress)`, with progress 100 on Done and otherwise the task's progress (0 when missing). Success on Done shows a success toast congratulating the actor by name on the task's title; other moves show nothing. A move to To-Do is only ever sent for an administrator. |
| `Workflow.MoveWritesOnlyStatusAndProgress` | page.jsx:313-314 | An accepted move changes the stored task's status and progress and no other field. Done always comes with progress 100. |
| `Workflow.RefusedMoveChangesNothing` | page.jsx:307-311 | When `MayMove` fails, no request is sent. A signed-in actor is told why. |
| `Workflow.ShownButtonsAreAccepted` | page.jsx:1302-1311 | The move button a card shows (to administrators and owners; To-Do to Doing, Doing to Done) always leads to an accepted move. |
| `Workflow.CreateTask` | page.jsx:283-304 | The insert is sent exactly for an administrator; anyone else gets the "admin only" error toast and no insert. The payload: status To-Do, progress 0, the active week, `createdBy` = the administrator, the given title, due time and assignee, description defaulting to "", day index defaulting to 0. A failure shows the "could not create" error toast. |
| `Workflow.StartEditTask` | page.jsx:323-330 | Only an administrator opens the edit form; anyone else gets the "admin only" error toast. The form's time field is text, empty exactly when the task has no due time. Otherwise it is the "HH:MM" of the due time on the local clock, which reads back as the due time's local minute of the day (the corrected form; see Findings). |
| `Workflow.HourMinute` | page.jsx:328 | The "HH:MM" text of an instant: its two digits before the colon are the hour of the day, the two after it the minute of the hour, and reading the text back gives the instant's minute of the day. |
| `Workflow.DueTimeTextAsWritten` | page.jsx:328 | As written, the field shows the due time's UTC clock: reading it back gives the minute of the UTC day, whatever the device's offset. |
| `Workflow.RecombinedDue` | page.jsx:336-341 | Saving reads an "HH:MM" text as local time on the task's day: the result lies that many minutes after the day's local midnight. Other text is not read. |
| `Workflow.DueAtAfterEdit` | page.jsx:334-345 | The three-way due-time rule on save: non-empty text gives the recombined time, empty text clears it, a non-text field keeps the old value. |
| `Workflow.SaveEditTask` | page.jsx:331-360 | Without an administrator or an open form: nothing is sent and nothing is shown. Otherwise `UpdateDetails` carries the form's title, description, assignee, day and the due time from `DueAtAfterEdit`. "Task updated" follows success. |
| `Workflow.SaveEditKeepsWorkflowState` | page.jsx:346-352 | A saved edit leaves status, progress, week and creator of any task unchanged. |
| `Workflow.EditRoundTripKeepsDuePresence` | page.jsx:323-345 | Opening a task for editing and saving it unchanged keeps "no due time" as none, and a due time as some due time. |
| `Workflow.UnchangedSaveKeepsDueAt` | page.jsx:323-345 | With the corrected field, opening a task and saving it unchanged writes back exactly its due time. This holds for a due time on a whole minute within the task's local day. |
| `Workflow.LocalClockRoundTrip` | page.jsx:336-341 | The local "HH:MM" of an instant on a whole minute, read back as local time on its own day, is that instant. |
| `Workflow.UnchangedSaveShiftsDueAsWritten` | page.jsx:328-341 | As written, in UTC-3 a task due at 18:00 local shows "21:00". Saving it unchanged moves the due time three hours later. |
| `Workflow.DeleteTaskConfirm` | page.jsx:361-371 | A non-administrator gets "admin only". An administrator's delete is sent exactly when the dialog is confirmed, with "task deleted" on success. Declining sends and shows nothing. |
| `Workflow.CreateThenMoveScenario` | page.jsx:283-321 | An administrator creates a task for an owner on day 4: it is To-Do with progress 0. The owner moves it to Doing (progress stays 0), then to Done (progress 100). Another non-administrator is turned away with "not your task". |
| `Board.WeekTasksMembers` | page.jsx:265 | The week's tasks are exactly the mirror's tasks whose `weekStart` is the active week, and there are no more of them than in the mirror. |
| `Board.WeekTasksConcat` | page.jsx:265 | The week filter keeps mirror order: filtering two runs of tasks gives the first run's week tasks followed by the second's. |
| `Board.WeekCell` | page.jsx:265-272 | A cell of the active week's grid holds exactly the mirror's tasks of that week, day and status, in mirror order. |
| `Board.CellMembers` | page.jsx:266-272 | The reference cell `Cell(ts, d, s)` holds exactly the tasks of `ts` with day index `d` and status `s`. |
| `Board.CellOfConcat` | page.jsx:268-270 | Cells keep arrival order. The cell of a concatenation is the cell of the first part followed by that of the second. |
| `Board.PlaceNext` | page.jsx:269 | Pushing the next task into `[dayIndex][status]` extends a correct grid for the tasks so far to one for those tasks plus the new one. |
| `Board.Grouped` | page.jsx:266-272 | The grid has 7 days. Every cell `[d][s]` equals `Cell(weekTasks, d, s)`. The cell sizes add up to the number of week tasks. The result is None exactly when some week task has a day index outside 0..6 (the page has no column to push it into). |
| `Board.RoundPercent` | page.jsx:278 | `Math.round(done / total * 100)`: the nearest whole percentage, halves rounded up. It lies in 0..100, is 100 when all are done and 0 when none are. |
| `Board.MyStats` | page.jsx:273-280 | Nobody signed in gives {0,0,0}. Otherwise done ≤ total ≤ number of week tasks and pct is in 0..100. pct is 0 with no tasks or none done, 100 when all are done, and otherwise the nearest percentage. |
| `Board.StatsIgnoreOthers` | page.jsx:275 | A task not assigned to the signed-in person leaves their totals unchanged. |
| `Board.StatsIgnoreOtherWeeks` | page.jsx:265-277 | A task of another week does not change the totals of the active week. |
| `Board.StatsCountOwn` | page.jsx:275-277 | A task assigned to them adds one to the total, and one to done exactly when it is Done. |
| `Reminders.TaskNoticesFacts` | page.jsx:246-258 | A task with no due time yields nothing. Due-soon fires exactly in the profile's window before the due time: demo (9 s, 10 s], normal (59 min, 60 min]. Overdue fires exactly in the window after it: demo [5 s, 6 s), normal [60 s, 70 s). A task yields at most one reminder per tick. Due-soon is a warning toast, overdue an error toast. |
| `Reminders.ReminderTick` | page.jsx:243-259 | The loop over the mirror yields `TickNotices`: each task's reminders in mirror order, at most one per task. |
| `Reminders.AtMostOneReminderPerTask` | page.jsx:245-258 | A tick yields no more reminders than there are tasks. |
| `Reminders.TickNoticesConcat` | page.jsx:245 | A tick's reminders over two runs of tasks are those of the first run, then those of the second. |
| `Reminders.NoDueTimeNoReminder` | page.jsx:246 | Adding a task without a due time anywhere in the mirror changes no tick's reminders. |
| `Reminders.TicksInWindow` | page.jsx:243 | Ticks one second apart that fall in a window of whole seconds form one run of consecutive ticks, as long as the window. |
| `Reminders.DueSoonTicks` | page.jsx:249-255 | With one tick per second, due-soon fires on exactly 1 consecutive tick in demo mode and 60 in normal mode. |
| `Reminders.OverdueTicks` | page.jsx:251-257 | With one tick per second, overdue fires on exactly 1 tick in demo mode and 10 in normal mode. |
| `Clock.Flags` | page.jsx:1229-1232 | Due soon is on exactly when the due time is less than an hour ahead (0 < left ≤ 60 min). Overdue is on exactly when now is past the due time. The glow is on exactly when the due time is at most 12 s ahead in demo mode, or at most 10 min ahead in normal mode. With no due time all flags are off. As consequences, due soon and overdue are never both on, the glow implies due soon, and exactly at the due time nothing is on. |
| `Clock.RemindersAgreeWithCard` | page.jsx:249-257 | A due-soon reminder fires only while the card shows due soon, with the glow in demo mode and without it in normal mode. An overdue reminder fires only while the card shows overdue. |
| `Clock.TodayIndex` | page.jsx:106-114 | The result is in 0..6. When now falls in the week it is the day containing now; otherwise it is 0. |
| `Clock.StepBack` | page.jsx:971 | The previous-day button moves to the day before, and stays at 0 from 0 (or below). From a day in 0..6 it stays in 0..6. |
| `Clock.StepForward` | page.jsx:980 | The next-day button moves to the day after, and stays at 6 from 6 (or above). From a day in 0..6 it stays in 0..6. |
| `Clock.StepsKeepRange` | page.jsx:971-980 | From a day in 0..6, any sequence of day buttons and week switches stays in 0..6. |
| `Clock.ActiveDayStaysOnBoard` | page.jsx:178 | The mobile view's day starts as today's index and stays in 0..6, so `grouped[activeDay]` always exists. |
| `Forms.SubmitCreate` | page.jsx:1103-1119 | A title that trims to nothing sends nothing and shows nothing. Otherwise the form's fields go to `CreateTask`, with the assignee through the corrected `SelectedAssignee` rather than the `Number(...)` of page.jsx:1116. Any insert carries the untrimmed title and was made by an administrator. |
| `Forms.BlankTitleNeverInserts` | page.jsx:1104 | Whoever presses Create with a blank title, no store call is made. |
| `Forms.SelectedAssignee` | page.jsx:1116 | The stored assignee is nobody for an empty selection, otherwise the selected uid itself (the corrected form of the conversion). |
| `Forms.PickedAssigneeCanMove` | page.jsx:1113-1119 | The person an administrator picks in the form owns the created task and may move it to Doing or Done. |
| `Forms.AssigneeAsWritten` | page.jsx:1116 | As written: an empty selection is stored as null, anything else as a number. |
| `Forms.AssigneeAsWrittenNeverOwned` | page.jsx:308 | As written, the stored assignee never strictly equals any uid string. |
| `Forms.PickedPersonLockedOutAsWritten` | page.jsx:1116 | As written, picking uid "42" stores the number 42, and 42 === "42" is false. |

## Findings

| source | as written | input that shows it | evidently intended | confidence | as-written member | corrected member |
|---|---|---|---|---|---|---|
| page.jsx:1116 (and 689 in the edit form) | The chosen assignee is stored as `Number(assignedTo)`. The ownership check at page.jsx:308 compares it with `===` to `currentUser.id`, which is a uid string. | An administrator picks the person with uid "42" (or any real uid, which gives NaN). The task stores the number 42. That person's move gets "only your own tasks", because 42 === "42" is false. | Store the selected uid unchanged, so that the owner can move their task. | not executed; high (any number !== any string) | `Forms.AssigneeAsWritten` with `Forms.AssigneeAsWrittenNeverOwned` and `Forms.PickedPersonLockedOutAsWritten` | `Forms.SelectedAssignee` with `Forms.PickedAssigneeCanMove`; `Workflow` compares ids as they are |
| page.jsx:328 with 336-341 | Opening the edit form fills the time field with the due time's UTC "HH:MM" (`toISOString().slice(11, 16)`). Saving reads the field back as local time on the task's day (`setHours`). | In UTC-3, a task due at 18:00 local (21:00 UTC) shows "21:00". An unchanged save writes 21:00 local, three hours later. Every save shifts the due time by the offset again. | Show the local "HH:MM", so that an unchanged save keeps the due time. | not executed; high wherever the offset is not zero | `Workflow.DueTimeTextAsWritten` with `Workflow.UnchangedSaveShiftsDueAsWritten` | `Workflow.StartEditTask` (local clock) with `Workflow.UnchangedSaveKeepsDueAt` |

## Left out

- Remote store and identity provider: app initialization, sign-in and sign-out, the
  auth-state listener, the users upsert, and both live subscriptions (page.jsx:44-54,
  149-238). No request is executed. Store failures appear only as the `onFailure`
  toast a command carries. The `createdAt` server timestamp is not part of `NewTask`.
- The sync layer: the mirror is taken as given, in arrival order. Replacing the mirror
  with each snapshot, and re-subscribing when the week changes, are not modelled.
- Scheduling: the `setInterval` timer and the condition that runs it only while someone
  is signed in and has allowed notifications (page.jsx:241-262). The tick lemmas assume
  ticks exactly one second apart, with no timer drift. Toast ids and auto-dismiss timers
  (page.jsx:117-125) are left out too.
- Consent storage and the consent and login screens (page.jsx:128-140, 434-479, 753-868).
- Date, time-zone and locale work: `getMonday`, `isoDateOnly`, `dateFromWeekAndIndex`,
  `formatShort`, and the week arithmetic of `changeWeek`. Parsing a due date into
  milliseconds is left out too, so an unparseable date (NaN) is not modelled. The
  local midnight of a task's day is a parameter of `Workflow.RecombinedDue`. In general the
  recombined due time is a parameter: `recombined` in `SaveEditTask` and `dueAt` in
  `Forms.CreateForm`.
- Daylight-saving changes: the offset `tz` is one number for the whole day.
- `Workflow.RecombinedDue`: reads only the five-character "HH:MM" text a time input yields.
  The source's `split(":")` with `Number(... || 0)` also accepts other shapes.
- `Workflow.DueTimeTextAsWritten`: reads the clock as `toISOString` writes it for the years
  0000 to 9999. Outside that range the ISO form has a six-digit signed year, so characters
  11 to 16 are no longer the hour and minute.
- `seedDemo` (page.jsx:380-432), and the rendering components and their markup.
- The `confirm()` dialog: its answer is the `confirmed` parameter of `DeleteTaskConfirm`.
- Closing the edit form after a successful save, and clearing the Create form after
  submit: these are UI state.
- `Board.RoundPercent`: computes `Math.round` on the exact rational, not on the
  floating-point product `done / total * 100`.
- `Forms.ToNumber`: reads only non-empty decimal-digit strings; any other text is
  NaN. JavaScript's `Number` also accepts signs, fractions, hexadecimal and surrounding
  white space. The finding does not depend on this, because no number strictly equals
  a string.
- Task documents whose `status` is not one of todo, doing and done. They do not occur
  in the model, because `Status` has only those three values.
- app/layout.jsx, which only injects the configuration, and set-admin.js, a one-off
  script that grants the administrator claim.
