/** The views the board derives from the mirror: the active week's tasks, their
    placement in a grid of 7 days by 3 statuses, and the signed-in person's totals. */
module Board {
  import opened Model

  /** The tasks of the mirror that belong to week `week`, in mirror order. */
  function WeekTasks(tasks: seq<Task>, week: Week): seq<Task> {
    if tasks == [] then []
    else
      var last := tasks[|tasks| - 1];
      var rest := WeekTasks(tasks[..|tasks| - 1], week);
      if last.weekStart == week then rest + [last] else rest
  }

  /** The week's tasks are exactly the mirror's tasks of that week. */
  lemma {:induction false} WeekTasksMembers(tasks: seq<Task>, week: Week)
    ensures |WeekTasks(tasks, week)| <= |tasks|
    ensures forall t :: t in WeekTasks(tasks, week) <==> t in tasks && t.weekStart == week
  {
    if tasks != [] {
      WeekTasksMembers(tasks[..|tasks| - 1], week);
      assert tasks == tasks[..|tasks| - 1] + [tasks[|tasks| - 1]];
    }
  }

  /** The week filter keeps mirror order: filtering two runs of tasks one after the other
      gives the first run's week tasks followed by the second's. */
  lemma {:induction false} WeekTasksConcat(a: seq<Task>, b: seq<Task>, week: Week)
    ensures WeekTasks(a + b, week) == WeekTasks(a, week) + WeekTasks(b, week)
    decreases |b|
  {
    if b == [] {
      assert a + b == a;
    } else {
      var b' := b[..|b| - 1];
      WeekTasksConcat(a, b', week);
      assert (a + b)[..|a + b| - 1] == a + b';
    }
  }

  /** One day of the grid: a list per status. */
  datatype Column = Column(todo: seq<Task>, doing: seq<Task>, done: seq<Task>)

  const EmptyColumn := Column([], [], [])

  function Lane(c: Column, s: Status): seq<Task> {
    match s
    case Todo => c.todo
    case Doing => c.doing
    case Done => c.done
  }

  /** `c[status].push(t)` */
  function PushLane(c: Column, s: Status, t: Task): (r: Column)
    ensures Lane(r, s) == Lane(c, s) + [t]
    ensures forall o :: o != s ==> Lane(r, o) == Lane(c, o)
  {
    match s
    case Todo => c.(todo := c.todo + [t])
    case Doing => c.(doing := c.doing + [t])
    case Done => c.(done := c.done + [t])
  }

  function ColumnSize(c: Column): nat {
    |c.todo| + |c.doing| + |c.done|
  }

  /** The number of tasks placed in a grid. */
  function GridSize(g: seq<Column>): nat {
    if g == [] then 0 else ColumnSize(g[0]) + GridSize(g[1..])
  }

  /** The reference for one cell: the tasks of `ts` on day `d` with status `s`, in order. */
  function Cell(ts: seq<Task>, d: int, s: Status): seq<Task> {
    if ts == [] then []
    else
      var last := ts[|ts| - 1];
      var rest := Cell(ts[..|ts| - 1], d, s);
      if last.dayIndex == d && last.status == s then rest + [last] else rest
  }

  /** A cell holds exactly the tasks of `ts` with that day index and status. */
  lemma {:induction false} CellMembers(ts: seq<Task>, d: int, s: Status)
    ensures |Cell(ts, d, s)| <= |ts|
    ensures forall t :: t in Cell(ts, d, s) <==> t in ts && t.dayIndex == d && t.status == s
  {
    if ts != [] {
      CellMembers(ts[..|ts| - 1], d, s);
      assert ts == ts[..|ts| - 1] + [ts[|ts| - 1]];
    }
  }

  /** Cells keep arrival order: the tasks that arrived first come first in their cell. */
  lemma {:induction false} CellOfConcat(a: seq<Task>, b: seq<Task>, d: int, s: Status)
    ensures Cell(a + b, d, s) == Cell(a, d, s) + Cell(b, d, s)
    decreases |b|
  {
    if b == [] {
      assert a + b == a;
    } else {
      var b' := b[..|b| - 1];
      CellOfConcat(a, b', d, s);
      assert (a + b)[..|a + b| - 1] == a + b';
    }
  }

  /** A cell of the active week's grid is the mirror's cell for that day and status,
      filtered to the week: exactly the mirror's tasks of that week, day and status, in
      mirror order. */
  lemma {:induction false} WeekCell(ts: seq<Task>, week: Week, d: int, s: Status)
    ensures Cell(WeekTasks(ts, week), d, s) == WeekTasks(Cell(ts, d, s), week)
    ensures forall t :: t in Cell(WeekTasks(ts, week), d, s) <==>
              t in ts && t.weekStart == week && t.dayIndex == d && t.status == s
  {
    if ts != [] {
      var rest := ts[..|ts| - 1];
      WeekCell(rest, week, d, s);
      var w := WeekTasks(rest, week);
      var c := Cell(rest, d, s);
      assert (w + [ts[|ts| - 1]])[..|w|] == w;
      assert (c + [ts[|ts| - 1]])[..|c|] == c;
    }
    CellMembers(WeekTasks(ts, week), d, s);
    WeekTasksMembers(ts, week);
  }

  /** Pushing one task into one lane of one day adds one to the grid's size. */
  lemma {:induction false} GridSizePush(g: seq<Column>, d: int, s: Status, t: Task)
    requires 0 <= d < |g|
    ensures GridSize(g[d := PushLane(g[d], s, t)]) == GridSize(g) + 1
  {
    var c := PushLane(g[d], s, t);
    assert ColumnSize(c) == ColumnSize(g[d]) + 1 by {
      match s
      case Todo =>
      case Doing =>
      case Done =>
    }
    if d == 0 {
      assert g[d := c][1..] == g[1..];
    } else {
      GridSizePush(g[1..], d - 1, s, t);
      assert g[d := c][1..] == g[1..][d - 1 := c];
    }
  }

  /** Grid `g` holds, in every cell, exactly the tasks of `ts` that belong there, in order. */
  ghost predicate Places(g: seq<Column>, ts: seq<Task>) {
    |g| == 7 && forall d, s | 0 <= d < 7 :: Lane(g[d], s) == Cell(ts, d, s)
  }

  lemma EmptyGridPlacesNothing()
    ensures Places(seq(7, _ => EmptyColumn), [])
    ensures GridSize(seq(7, _ => EmptyColumn)) == 0
  {
    var g := seq(7, _ => EmptyColumn);
    assert GridSize(g[6..]) == 0;
    assert GridSize(g[5..]) == 0;
    assert GridSize(g[4..]) == 0;
    assert GridSize(g[3..]) == 0;
    assert GridSize(g[2..]) == 0;
    assert GridSize(g[1..]) == 0;
  }

  /** One step of `grouped`: pushing the next task into its cell extends the placement. */
  lemma PlaceNext(g: seq<Column>, ts: seq<Task>, t: Task)
    requires Places(g, ts) && 0 <= t.dayIndex < 7
    ensures Places(g[t.dayIndex := PushLane(g[t.dayIndex], t.status, t)], ts + [t])
  {
    var g' := g[t.dayIndex := PushLane(g[t.dayIndex], t.status, t)];
    assert (ts + [t])[..|ts|] == ts;
    forall d, s | 0 <= d < 7
      ensures Lane(g'[d], s) == Cell(ts + [t], d, s)
    {
    }
  }

  /** `grouped`: the active week's tasks `weekTasks` pushed one by one into the cell of
      their day and status. A task whose day index is not 0..6 has no day to be pushed
      into (the page fails there); that outcome is None. */
  method Grouped(weekTasks: seq<Task>) returns (grid: Option<seq<Column>>)
    ensures grid.None? <==> exists t :: t in weekTasks && !(0 <= t.dayIndex < 7)
    ensures grid.Some? ==> |grid.value| == 7
    ensures grid.Some? ==>
              forall d, s | 0 <= d < 7 :: Lane(grid.value[d], s) == Cell(weekTasks, d, s)
    ensures grid.Some? ==> GridSize(grid.value) == |weekTasks|
  {
    var base := seq(7, _ => EmptyColumn);
    EmptyGridPlacesNothing();
    var i := 0;
    while i < |weekTasks|
      invariant 0 <= i <= |weekTasks|
      invariant forall j | 0 <= j < i :: 0 <= weekTasks[j].dayIndex < 7
      invariant Places(base, weekTasks[..i])
      invariant GridSize(base) == i
    {
      var t := weekTasks[i];
      if !(0 <= t.dayIndex < 7) {
        return None;
      }
      assert weekTasks[..i + 1] == weekTasks[..i] + [t];
      PlaceNext(base, weekTasks[..i], t);
      GridSizePush(base, t.dayIndex, t.status, t);
      base := base[t.dayIndex := PushLane(base[t.dayIndex], t.status, t)];
      i := i + 1;
    }
    assert weekTasks[..i] == weekTasks;
    forall t | t in weekTasks
      ensures 0 <= t.dayIndex < 7
    {
      var j :| 0 <= j < |weekTasks| && weekTasks[j] == t;
    }
    return Some(base);
  }

  /** The totals the header shows for the signed-in person. */
  datatype Stats = Stats(total: int, done: int, pct: int)

  /** The tasks of `ts` assigned to `id`, in order. */
  function Assigned(ts: seq<Task>, id: UserId): (r: seq<Task>)
    ensures |r| <= |ts|
    ensures forall t :: t in r <==> t in ts && t.assignedTo == Some(id)
  {
    if ts == [] then []
    else
      var last := ts[|ts| - 1];
      var rest := Assigned(ts[..|ts| - 1], id);
      assert ts == ts[..|ts| - 1] + [last];
      if last.assignedTo == Some(id) then rest + [last] else rest
  }

  /** How many tasks of `ts` are Done. */
  function DoneCount(ts: seq<Task>): (n: nat)
    ensures n <= |ts|
  {
    if ts == [] then 0
    else DoneCount(ts[..|ts| - 1]) + (if ts[|ts| - 1].status == Done then 1 else 0)
  }

  /** `Math.round(part / whole * 100)` on exact rationals: the nearest whole percentage,
      halves rounded up. */
  function RoundPercent(part: int, whole: int): (p: int)
    requires 0 <= part <= whole && 0 < whole
    ensures 0 <= p <= 100
    ensures 2 * whole * p <= 200 * part + whole < 2 * whole * (p + 1)
    ensures part == whole ==> p == 100
    ensures part == 0 ==> p == 0
  {
    RoundPercentFacts(part, whole);
    (200 * part + whole) / (2 * whole)
  }

  lemma RoundPercentFacts(part: int, whole: int)
    requires 0 <= part <= whole && 0 < whole
    ensures var q := (200 * part + whole) / (2 * whole);
            0 <= q <= 100 &&
            2 * whole * q <= 200 * part + whole < 2 * whole * (q + 1) &&
            (part == whole ==> q == 100) &&
            (part == 0 ==> q == 0)
  {
    var n := 200 * part + whole;
    var m := 2 * whole;
    var q := n / m;
    assert n == m * q + n % m && 0 <= n % m < m;
    assert m * q <= n < m * (q + 1);
    if q > 100 {
      MulMono(m, 101, q);
      assert false;
    }
    if q < 0 {
      MulMono(m, q + 1, 0);
      assert false;
    }
    if part == whole && q < 100 {
      MulMono(m, q + 1, 100);
      assert false;
    }
    if part == 0 && q > 0 {
      MulMono(m, 1, q);
      assert false;
    }
  }

  /** `myStats`: among the active week's tasks, those assigned to the signed-in person, how
      many are Done, and the rounded percentage; all zero when nobody is signed in or they
      have no task this week. */
  function MyStats(user: Option<Actor>, weekTasks: seq<Task>): (r: Stats)
    ensures user.None? ==> r == Stats(0, 0, 0)
    ensures 0 <= r.done <= r.total <= |weekTasks|
    ensures 0 <= r.pct <= 100
    ensures r.total == 0 || r.done == 0 ==> r.pct == 0
    ensures 0 < r.total == r.done ==> r.pct == 100
    ensures 0 < r.total ==> 2 * r.total * r.pct <= 200 * r.done + r.total < 2 * r.total * (r.pct + 1)
  {
    if user.None? then Stats(0, 0, 0)
    else
      var mine := Assigned(weekTasks, user.value.id);
      var done := DoneCount(mine);
      var total := |mine|;
      Stats(total, done, if total > 0 then RoundPercent(done, total) else 0)
  }

  /** A task that is not the signed-in person's does not change their totals. */
  lemma {:induction false} StatsIgnoreOthers(user: Option<Actor>, weekTasks: seq<Task>, t: Task)
    requires user.Some? && t.assignedTo != Some(user.value.id)
    ensures MyStats(user, weekTasks + [t]) == MyStats(user, weekTasks)
  {
    assert (weekTasks + [t])[..|weekTasks|] == weekTasks;
  }

  /** A task of another week does not change the totals of the active week. */
  lemma StatsIgnoreOtherWeeks(user: Option<Actor>, ts: seq<Task>, t: Task, week: Week)
    requires t.weekStart != week
    ensures MyStats(user, WeekTasks(ts + [t], week)) == MyStats(user, WeekTasks(ts, week))
  {
    assert (ts + [t])[..|ts|] == ts;
  }

  /** A task assigned to the signed-in person adds one to their total, and one to their done
      count exactly when it is Done. */
  lemma {:induction false} StatsCountOwn(user: Option<Actor>, weekTasks: seq<Task>, t: Task)
    requires user.Some? && t.assignedTo == Some(user.value.id)
    ensures MyStats(user, weekTasks + [t]).total == MyStats(user, weekTasks).total + 1
    ensures MyStats(user, weekTasks + [t]).done ==
              MyStats(user, weekTasks).done + (if t.status == Done then 1 else 0)
  {
    assert (weekTasks + [t])[..|weekTasks|] == weekTasks;
    var a := Assigned(weekTasks, user.value.id);
    assert Assigned(weekTasks + [t], user.value.id) == a + [t];
    assert (a + [t])[..|a|] == a;
  }
}
