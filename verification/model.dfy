/** The values the board works on: who is signed in, the task documents of the
    remote store as the local mirror holds them, the toasts the page shows and the
    requests it sends to the store. Time is integer milliseconds since the epoch. */
module Model {

  datatype Option<+T> = None | Some(value: T)

  const Second: int := 1000
  const Minute: int := 60 * Second
  const Hour: int := 60 * Minute
  const Day: int := 24 * Hour

  /** Identity-provider uid of a person. */
  type UserId = string
  /** Store-assigned document id of a task. */
  type TaskId = string
  /** ISO date ("YYYY-MM-DD") of the Monday a task belongs to; only ever compared for equality. */
  type Week = string

  /** The `role` claim of the identity token; a missing or unknown claim counts as User. */
  datatype Role = Admin | User

  datatype Actor = Actor(id: UserId, name: string, role: Role)

  datatype Status = Todo | Doing | Done

  /** A task document as the mirror holds it. `progress` is None when the document lacks it. */
  datatype Task = Task(
    id: TaskId,
    title: string,
    description: string,
    status: Status,
    assignedTo: Option<UserId>,
    createdBy: UserId,
    dueAt: Option<int>,
    weekStart: Week,
    dayIndex: int,
    progress: Option<int>)

  /** The payload of an insert: a task without its store-assigned id
      (the store also adds its own creation timestamp). */
  datatype NewTask = NewTask(
    title: string,
    description: string,
    status: Status,
    assignedTo: Option<UserId>,
    createdBy: UserId,
    dueAt: Option<int>,
    weekStart: Week,
    dayIndex: int,
    progress: int)

  /** The toasts the page pushes. */
  datatype Notice =
    | NotYourTask               // "only your own tasks"
    | CannotReturnToTodo        // "users cannot return to To-Do"
    | AdminOnlyCreate
    | AdminOnlyEdit
    | AdminOnlyDelete
    | CreateFailed
    | TaskUpdated
    | TaskDeleted
    | Congratulations(name: string, title: string)
    | DueSoonReminder(title: string, demo: bool)
    | OverdueReminder(title: string, demo: bool)

  datatype Tone = Info | Warn | Error | Success

  /** The style each toast is pushed with. */
  function ToneOf(n: Notice): Tone {
    match n
    case Congratulations(_, _) => Success
    case TaskUpdated => Success
    case TaskDeleted => Success
    case DueSoonReminder(_, _) => Warn
    case _ => Error
  }

  /** A mutation sent to the remote store. */
  datatype Request =
    | Insert(payload: NewTask)
    | UpdateStatus(id: TaskId, status: Status, progress: int)
    | UpdateDetails(id: TaskId, title: string, description: string,
                    assignedTo: Option<UserId>, dayIndex: int, dueAt: Option<int>)
    | Remove(id: TaskId)

  /** A fire-and-forget request together with the toast shown when the store
      acknowledges it and the one shown when it fails (failures are otherwise only logged). */
  datatype Command = Command(request: Request, onSuccess: Option<Notice>, onFailure: Option<Notice>)

  /** What one user action does: at most one store command and at most one immediate toast. */
  datatype Effect = Effect(command: Option<Command>, notice: Option<Notice>)

  const NoEffect := Effect(None, None)

  function Reject(n: Notice): Effect {
    Effect(None, Some(n))
  }

  /** `t.progress || 0` */
  function ProgressOr0(t: Task): int {
    match t.progress
    case None => 0
    case Some(p) => p
  }

  /** The document the store holds after inserting `p` under the id `id`. */
  function Stored(id: TaskId, p: NewTask): Task {
    Task(id, p.title, p.description, p.status, p.assignedTo, p.createdBy, p.dueAt,
         p.weekStart, p.dayIndex, Some(p.progress))
  }

  /** How the store merges a partial update into the document it names: the fields the
      request carries are overwritten, every other field is kept. Inserts and removals
      do not patch an existing document. */
  function Patch(t: Task, r: Request): Task {
    match r
    case UpdateStatus(id, s, p) =>
      if id == t.id then t.(status := s, progress := Some(p)) else t
    case UpdateDetails(id, title, description, assignedTo, dayIndex, dueAt) =>
      if id == t.id
      then t.(title := title, description := description, assignedTo := assignedTo,
              dayIndex := dayIndex, dueAt := dueAt)
      else t
    case _ => t
  }

  /** `a == b * q + r` with `0 <= r < b` fixes the quotient and the remainder. */
  lemma DivModUnique(a: int, b: int, q: int, r: int)
    requires 0 < b && a == b * q + r && 0 <= r < b
    ensures a / b == q && a % b == r
  {
    var q', r' := a / b, a % b;
    assert a == b * q' + r' && 0 <= r' < b;
    if q' < q {
      assert b * q' + b <= b * q by { MulMono(b, q' + 1, q); }
      assert false;
    } else if q' > q {
      assert b * q + b <= b * q' by { MulMono(b, q + 1, q'); }
      assert false;
    }
  }

  lemma MulMono(m: int, a: int, b: int)
    requires 0 < m && a <= b
    ensures m * a <= m * b
  {
  }
}
