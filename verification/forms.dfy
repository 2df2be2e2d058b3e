/** The "new task" form: its Create button refuses a blank title before anything else,
    and hands the fields to `CreateTask`. Also the assignee select, whose value the page
    converts with `Number(...)` before storing it. */
module Forms {
  import opened Model
  import opened Workflow

  /** The characters `String.prototype.trim` removes: white space and line terminators. */
  predicate Trimmed(c: char) {
    c == ' ' || c == '\t' || c == '\n' || c == '\r' ||
    c == '\U{000B}' || c == '\U{000C}' || c == '\U{00A0}' || c == '\U{FEFF}' ||
    c == '\U{1680}' || ('\U{2000}' <= c <= '\U{200A}') || c == '\U{2028}' || c == '\U{2029}' ||
    c == '\U{202F}' || c == '\U{205F}' || c == '\U{3000}'
  }

  /** `!s.trim()`: nothing is left once white space is trimmed. */
  predicate Blank(s: string) {
    forall i | 0 <= i < |s| :: Trimmed(s[i])
  }

  /** The form's fields when Create is pressed. `assignee` is the value of the select ("" for
      nobody); `dueAt` is the time field recombined with the week and day, None when the time
      field is empty (that local-time computation happens outside this model). */
  datatype CreateForm = CreateForm(
    title: string,
    description: string,
    assignee: string,
    dayIndex: int,
    dueAt: Option<int>)

  /** The assignee stored for a select value: the uid itself, nobody for "". */
  function SelectedAssignee(selected: string): (r: Option<UserId>)
    ensures r.None? <==> selected == ""
    ensures r.Some? ==> r.value == selected
  {
    if selected == "" then None else Some(selected)
  }

  function FormInput(f: CreateForm): CreateInput {
    CreateInput(f.title, Some(f.description), SelectedAssignee(f.assignee), Some(f.dayIndex), f.dueAt)
  }

  /** The Create button: a title that trims to nothing is dropped without a store call or a
      toast; otherwise the fields go to `CreateTask`, title untrimmed. */
  function SubmitCreate(f: CreateForm, user: Option<Actor>, week: Week): (e: Effect)
    ensures Blank(f.title) ==> e == NoEffect
    ensures !Blank(f.title) ==> e == CreateTask(user, week, FormInput(f))
    ensures e.command.Some? ==> !Blank(f.title) && IsAdmin(user) &&
                                e.command.value.request.payload.title == f.title
  {
    if Blank(f.title) then NoEffect else CreateTask(user, week, FormInput(f))
  }

  /** A blank title never reaches the store, whoever presses Create. */
  lemma BlankTitleNeverInserts(f: CreateForm, user: Option<Actor>, week: Week)
    requires Blank(f.title)
    ensures SubmitCreate(f, user, week).command.None?
    ensures SubmitCreate(f, user, week).notice.None?
  {
  }

  /** The person an administrator picks in the form owns the created task and can move it
      forward. */
  lemma {:induction false} PickedAssigneeCanMove(admin: Actor, me: Actor, f: CreateForm, week: Week, id: TaskId, target: Status)
    requires admin.role == Admin && f.assignee == me.id && me.id != "" && !Blank(f.title)
    requires target != Todo
    ensures var e := SubmitCreate(f, Some(admin), week);
            e.command.Some? &&
            MoveTask(Some(me), Stored(id, e.command.value.request.payload), target).command.Some?
  {
    var e := SubmitCreate(f, Some(admin), week);
    assert e == CreateTask(Some(admin), week, FormInput(f));
    var t := Stored(id, e.command.value.request.payload);
    assert t.assignedTo == Some(me.id);
  }

  /** A JavaScript value, as far as the stored assignee needs one. */
  datatype JsValue = JsNull | JsString(s: string) | JsNumber(n: Num)

  /** A JavaScript number: NaN, or a whole number. */
  datatype Num = NaN | Whole(v: nat)

  predicate IsDigit(c: char) {
    '0' <= c <= '9'
  }

  function DigitsValue(s: string): nat
    requires forall i | 0 <= i < |s| :: IsDigit(s[i])
  {
    if s == [] then 0
    else
      assert IsDigit(s[|s| - 1]);
      10 * DigitsValue(s[..|s| - 1]) + (s[|s| - 1] as int - '0' as int)
  }

  /** `Number(s)` for a non-empty string of decimal digits; any other text is NaN here. */
  function ToNumber(s: string): Num {
    if s != [] && forall i | 0 <= i < |s| :: IsDigit(s[i]) then Whole(DigitsValue(s)) else NaN
  }

  /** `===`: same type and same value, and NaN equals nothing. */
  predicate StrictEquals(a: JsValue, b: JsValue) {
    match (a, b)
    case (JsNull, JsNull) => true
    case (JsString(x), JsString(y)) => x == y
    case (JsNumber(Whole(x)), JsNumber(Whole(y))) => x == y
    case _ => false
  }

  /** As written: the form stores `assignedTo ? Number(assignedTo) : null`. */
  function AssigneeAsWritten(selected: string): (v: JsValue)
    ensures selected == "" <==> v == JsNull
    ensures v.JsNumber? <==> selected != ""
  {
    if selected == "" then JsNull else JsNumber(ToNumber(selected))
  }

  /** As written, the stored assignee is a number (or null) and never strictly equals a uid,
      which is a string: the ownership check `t.assignedTo === currentUser.id` fails even for
      the person who was picked, so only an administrator could move the task. */
  lemma AssigneeAsWrittenNeverOwned(selected: string, uid: UserId)
    ensures !StrictEquals(AssigneeAsWritten(selected), JsString(uid))
  {
  }

  /** The concrete case: picking the person whose uid is "42" stores the number 42, and the
      check 42 === "42" fails. */
  lemma PickedPersonLockedOutAsWritten()
    ensures AssigneeAsWritten("42") == JsNumber(Whole(42))
    ensures !StrictEquals(AssigneeAsWritten("42"), JsString("42"))
  {
    assert "42"[..1] == "4";
    assert DigitsValue("4") == 4 by {
      assert "4"[..0] == "";
    }
  }
}
