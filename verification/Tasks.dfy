/** Tasks, notices and the ledger of decisions (task_service.py, confirmation_service.py). */
module Tasks {
  import opened Prelude

  datatype TaskState = Pending | Active | Completed | Failed

  /** A row of the tasks table; its id is its position, counted from one. */
  datatype Task = Task(quadrant: int, state: TaskState, flags: int, title: string, source: string,
                       createdAtMs: int, updatedAtMs: int)

  datatype Notice = Notice(title: string, dismissedAtMs: Option<int>)

  datatype ObjectType = OnTask | OnNotice | OnOther

  datatype Record = Record(objectType: ObjectType, objectId: int, confirmed: bool, decidedAtMs: int)

  datatype Db = Db(tasks: seq<Task>, notices: seq<Notice>, records: seq<Record>)

  predicate HasRow<T>(rows: seq<T>, id: int)
  {
    1 <= id <= |rows|
  }

  /** UPDATE ... WHERE id = ? AND state = ?: false when no row matched. */
  predicate CanMove(tasks: seq<Task>, id: int, from: TaskState)
  {
    HasRow(tasks, id) && tasks[id - 1].state == from
  }

  function Move(tasks: seq<Task>, id: int, from: TaskState, to: TaskState, now: int): (r: seq<Task>)
    ensures |r| == |tasks|
  {
    if CanMove(tasks, id, from) then tasks[id - 1 := tasks[id - 1].(state := to, updatedAtMs := now)] else tasks
  }

  predicate CanDismiss(notices: seq<Notice>, id: int)
  {
    HasRow(notices, id) && notices[id - 1].dismissedAtMs.None?
  }

  /** The row changed by a decision, when there is one to change; the record is written later. */
  predicate CanDecide(db: Db, o: ObjectType, id: int)
  {
    match o
    case OnTask => CanMove(db.tasks, id, Pending)
    case OnNotice => CanDismiss(db.notices, id)
    case OnOther => false
  }

  function Decide(db: Db, o: ObjectType, id: int, confirm: bool, now: int): Db
    requires CanDecide(db, o, id)
  {
    match o
    case OnTask => db.(tasks := Move(db.tasks, id, Pending, if confirm then Active else Completed, now))
    case OnNotice => db.(notices := db.notices[id - 1 := db.notices[id - 1].(dismissedAtMs := Some(now))])
    case OnOther => db
  }

  function CountIf(tasks: seq<Task>, p: Task -> bool): nat
  {
    if tasks == [] then 0 else (if p(tasks[0]) then 1 else 0) + CountIf(tasks[1..], p)
  }

  function CountPending(tasks: seq<Task>): nat
  {
    CountIf(tasks, (t: Task) => t.state == Pending)
  }

  class TaskService {
    var tasks: seq<Task>

    constructor ()
      ensures tasks == []
    {
      tasks := [];
    }

    method Create(quadrant: int, title: string, source: string, flags: int, now: int) returns (id: int)
      modifies this
      ensures tasks == old(tasks) + [Task(quadrant, Pending, flags, title, source, now, now)]
      ensures id == |tasks|
    {
      tasks := tasks + [Task(quadrant, Pending, flags, title, source, now, now)];
      id := |tasks|;
    }

    method Transition(id: int, from: TaskState, to: TaskState, now: int) returns (task: Option<Task>)
      modifies this
      ensures tasks == Move(old(tasks), id, from, to, now)
      ensures task == if CanMove(old(tasks), id, from) then Some(tasks[id - 1]) else None
    {
      if 1 <= id <= |tasks| && tasks[id - 1].state == from {
        tasks := tasks[id - 1 := tasks[id - 1].(state := to, updatedAtMs := now)];
        return Some(tasks[id - 1]);
      }
      return None;
    }

    method Confirm(id: int, now: int) returns (task: Option<Task>)
      modifies this
      ensures tasks == Move(old(tasks), id, Pending, Active, now)
      ensures task.Some? <==> CanMove(old(tasks), id, Pending)
    {
      task := Transition(id, Pending, Active, now);
    }

    method Reject(id: int, now: int) returns (task: Option<Task>)
      modifies this
      ensures tasks == Move(old(tasks), id, Pending, Completed, now)
      ensures task.Some? <==> CanMove(old(tasks), id, Pending)
    {
      task := Transition(id, Pending, Completed, now);
    }

    method Complete(id: int, now: int) returns (task: Option<Task>)
      modifies this
      ensures tasks == Move(old(tasks), id, Active, Completed, now)
      ensures task.Some? <==> CanMove(old(tasks), id, Active)
    {
      task := Transition(id, Active, Completed, now);
    }

    method Fail(id: int, now: int) returns (task: Option<Task>)
      modifies this
      ensures tasks == Move(old(tasks), id, Active, Failed, now)
      ensures task.Some? <==> CanMove(old(tasks), id, Active)
    {
      task := Transition(id, Active, Failed, now);
    }

    method Retry(id: int, now: int) returns (task: Option<Task>)
      modifies this
      ensures tasks == Move(old(tasks), id, Failed, Pending, now)
      ensures task.Some? <==> CanMove(old(tasks), id, Failed)
    {
      task := Transition(id, Failed, Pending, now);
    }
  }

  datatype Decision = NotDecided | Decided(confirmed: bool, pendingCount: nat)

  class ConfirmationService {
    const taskService: TaskService
    var notices: seq<Notice>
    var records: seq<Record>

    constructor (taskService: TaskService)
      ensures this.taskService == taskService && notices == [] && records == []
    {
      this.taskService := taskService;
      notices := [];
      records := [];
    }

    function View(): Db
      reads this, taskService
    {
      Db(taskService.tasks, notices, records)
    }

    method Dismiss(id: int, now: int) returns (done: bool)
      modifies this`notices
      ensures done <==> CanDismiss(old(notices), id)
      ensures notices ==
        if done then old(notices)[id - 1 := old(notices)[id - 1].(dismissedAtMs := Some(now))] else old(notices)
    {
      done := 1 <= id <= |notices| && notices[id - 1].dismissedAtMs.None?;
      if done {
        notices := notices[id - 1 := notices[id - 1].(dismissedAtMs := Some(now))];
      }
    }

    /** confirm and reject: change the row, then record the decision, then count what is pending. */
    method Settle(o: ObjectType, id: int, confirm: bool, now: int) returns (r: Decision)
      modifies this`notices, this`records, taskService
      ensures r.NotDecided? <==> !CanDecide(old(View()), o, id)
      ensures r.NotDecided? ==> View() == old(View())
      ensures r.Decided? ==>
        && View() == Decide(old(View()), o, id, confirm, now).(records := old(records) + [Record(o, id, confirm, now)])
        && r == Decided(confirm, CountPending(taskService.tasks))
    {
      match o {
        case OnTask =>
          var task: Option<Task>;
          if confirm {
            task := taskService.Confirm(id, now);
          } else {
            task := taskService.Reject(id, now);
          }
          if task.None? {
            return NotDecided;
          }
        case OnNotice =>
          var done := Dismiss(id, now);
          if !done {
            return NotDecided;
          }
        case OnOther =>
          return NotDecided;
      }
      records := records + [Record(o, id, confirm, now)];
      return Decided(confirm, CountPending(taskService.tasks));
    }
  }

  // ----- Conservation over interleaved runs -----

  /** The tables, the decisions made but not yet recorded, and the retries so far. */
  datatype Books = Books(db: Db, unrecorded: seq<Record>, retries: seq<int>)

  datatype Act =
    | Create(task: Task)
    | Post(notice: Notice)
    | Change(objectType: ObjectType, objectId: int, confirm: bool, now: int)
    | WriteRecord(index: nat)
    | Finish(taskId: int, succeeded: bool, now: int)
    | Retry(taskId: int, now: int)

  predicate Enabled(b: Books, a: Act)
  {
    match a
    case Create(task) => task.state == Pending
    case Post(notice) => notice.dismissedAtMs.None?
    case Change(o, id, _, _) => CanDecide(b.db, o, id)
    case WriteRecord(index) => index < |b.unrecorded|
    case Finish(_, _, _) => true
    case Retry(_, _) => true
  }

  /** One await-free stretch of a service call; a decision and its record are two of them. */
  function Next(b: Books, a: Act): Books
    requires Enabled(b, a)
  {
    match a
    case Create(task) => b.(db := b.db.(tasks := b.db.tasks + [task]))
    case Post(notice) => b.(db := b.db.(notices := b.db.notices + [notice]))
    case Change(o, id, confirm, now) =>
      b.(db := Decide(b.db, o, id, confirm, now), unrecorded := b.unrecorded + [Record(o, id, confirm, now)])
    case WriteRecord(index) =>
      b.(db := b.db.(records := b.db.records + [b.unrecorded[index]]),
         unrecorded := b.unrecorded[..index] + b.unrecorded[index + 1..])
    case Finish(id, succeeded, now) =>
      b.(db := b.db.(tasks := Move(b.db.tasks, id, Active, if succeeded then Completed else Failed, now)))
    case Retry(id, now) =>
      if CanMove(b.db.tasks, id, Failed) then
        b.(db := b.db.(tasks := Move(b.db.tasks, id, Failed, Pending, now)), retries := b.retries + [id])
      else b
  }

  function TaskDecisions(records: seq<Record>): nat
  {
    if records == [] then 0 else (if records[0].objectType == OnTask then 1 else 0) + TaskDecisions(records[1..])
  }

  function DecisionsOn(records: seq<Record>, id: int): nat
  {
    if records == [] then 0
    else (if records[0].objectType == OnTask && records[0].objectId == id then 1 else 0) + DecisionsOn(records[1..], id)
  }

  function Times(ids: seq<int>, id: int): nat
  {
    if ids == [] then 0 else (if ids[0] == id then 1 else 0) + Times(ids[1..], id)
  }

  lemma {:induction false} DecisionsAppend(xs: seq<Record>, ys: seq<Record>, id: int)
    ensures TaskDecisions(xs + ys) == TaskDecisions(xs) + TaskDecisions(ys)
    ensures DecisionsOn(xs + ys, id) == DecisionsOn(xs, id) + DecisionsOn(ys, id)
  {
    if xs == [] {
      assert xs + ys == ys;
    } else {
      assert (xs + ys)[1..] == xs[1..] + ys;
      DecisionsAppend(xs[1..], ys, id);
    }
  }

  lemma {:induction false} TimesAppend(xs: seq<int>, x: int, id: int)
    ensures Times(xs + [x], id) == Times(xs, id) + (if x == id then 1 else 0)
  {
    if xs == [] {
      assert xs + [x] == [x];
    } else {
      assert (xs + [x])[1..] == xs[1..] + [x];
      TimesAppend(xs[1..], x, id);
    }
  }

  lemma {:induction false} CountReplaced(tasks: seq<Task>, i: nat, t: Task, p: Task -> bool)
    requires i < |tasks|
    ensures CountIf(tasks[i := t], p) + (if p(tasks[i]) then 1 else 0) == CountIf(tasks, p) + (if p(t) then 1 else 0)
  {
    if i == 0 {
      assert tasks[0 := t][1..] == tasks[1..];
    } else {
      assert tasks[i := t][1..] == tasks[1..][i - 1 := t];
      CountReplaced(tasks[1..], i - 1, t, p);
    }
  }

  lemma {:induction false} CountAppended(tasks: seq<Task>, t: Task, p: Task -> bool)
    ensures CountIf(tasks + [t], p) == CountIf(tasks, p) + (if p(t) then 1 else 0)
  {
    if tasks == [] {
      assert tasks + [t] == [t];
    } else {
      assert (tasks + [t])[1..] == tasks[1..] + [t];
      CountAppended(tasks[1..], t, p);
    }
  }

  /** Decisions made on a task, recorded or about to be. */
  function MadeOn(b: Books, id: int): nat
  {
    DecisionsOn(b.db.records, id) + DecisionsOn(b.unrecorded, id)
  }

  function Made(b: Books): nat
  {
    TaskDecisions(b.db.records) + TaskDecisions(b.unrecorded)
  }

  /** Each task was decided as often as it was retried, and once more unless it is pending. */
  ghost predicate TaskBalanced(b: Books, id: int)
  {
    MadeOn(b, id) - Times(b.retries, id)
    == if HasRow(b.db.tasks, id) && b.db.tasks[id - 1].state != Pending then 1 else 0
  }

  /** What is pending is what was created or retried and not decided. */
  ghost predicate TotalBalanced(b: Books)
  {
    CountPending(b.db.tasks) == |b.db.tasks| + |b.retries| - Made(b)
  }

  lemma {:induction false} MoveCounts(tasks: seq<Task>, id: int, from: TaskState, to: TaskState, now: int)
    requires CanMove(tasks, id, from)
    ensures CountPending(Move(tasks, id, from, to, now))
         == CountPending(tasks) - (if from == Pending then 1 else 0) + (if to == Pending then 1 else 0)
  {
    CountReplaced(tasks, id - 1, tasks[id - 1].(state := to, updatedAtMs := now), (t: Task) => t.state == Pending);
  }

  lemma {:induction false} WritingKeepsMade(b: Books, index: nat, id: int)
    requires index < |b.unrecorded|
    ensures MadeOn(Next(b, WriteRecord(index)), id) == MadeOn(b, id) && Made(Next(b, WriteRecord(index))) == Made(b)
  {
    var one, before, after := [b.unrecorded[index]], b.unrecorded[..index], b.unrecorded[index + 1..];
    assert b.unrecorded == before + (one + after);
    DecisionsAppend(before, one + after, id);
    DecisionsAppend(one, after, id);
    DecisionsAppend(before, after, id);
    DecisionsAppend(b.db.records, one, id);
  }

  lemma {:induction false} NextKeepsTaskBalance(b: Books, a: Act, id: int)
    requires Enabled(b, a) && TaskBalanced(b, id)
    ensures TaskBalanced(Next(b, a), id)
  {
    match a
    case Change(o, objectId, confirm, now) => DecisionsAppend(b.unrecorded, [Record(o, objectId, confirm, now)], id);
    case WriteRecord(index) => WritingKeepsMade(b, index, id);
    case Retry(taskId, _) => TimesAppend(b.retries, taskId, id);
    case _ =>
  }

  lemma {:induction false} NextKeepsTotal(b: Books, a: Act)
    requires Enabled(b, a) && TotalBalanced(b)
    ensures TotalBalanced(Next(b, a))
  {
    match a
    case Create(task) => CountAppended(b.db.tasks, task, (t: Task) => t.state == Pending);
    case Change(o, id, confirm, now) =>
      DecisionsAppend(b.unrecorded, [Record(o, id, confirm, now)], id);
      if o == OnTask {
        MoveCounts(b.db.tasks, id, Pending, if confirm then Active else Completed, now);
      }
    case WriteRecord(index) => WritingKeepsMade(b, index, 0);
    case Finish(id, succeeded, now) =>
      if CanMove(b.db.tasks, id, Active) {
        MoveCounts(b.db.tasks, id, Active, if succeeded then Completed else Failed, now);
      }
    case Retry(id, now) =>
      if CanMove(b.db.tasks, id, Failed) {
        MoveCounts(b.db.tasks, id, Failed, Pending, now);
      }
    case _ =>
  }

  ghost predicate IsRun(books: seq<Books>, acts: seq<Act>)
  {
    && |books| == |acts| + 1
    && books[0] == Books(Db([], [], []), [], [])
    && forall i :: 0 <= i < |acts| ==> Enabled(books[i], acts[i]) && books[i + 1] == Next(books[i], acts[i])
  }

  /** In every state of every interleaving the books balance, task by task and in total. */
  lemma {:induction false} BooksBalance(books: seq<Books>, acts: seq<Act>, n: nat, id: int)
    requires IsRun(books, acts) && n < |books|
    ensures TaskBalanced(books[n], id) && TotalBalanced(books[n])
    decreases n
  {
    if n > 0 {
      BooksBalance(books, acts, n - 1, id);
      assert books[n - 1 + 1] == Next(books[n - 1], acts[n - 1]);
      NextKeepsTaskBalance(books[n - 1], acts[n - 1], id);
      NextKeepsTotal(books[n - 1], acts[n - 1]);
    }
  }

  /** Whenever no decision is waiting to be recorded, the tables alone balance. */
  lemma {:induction false} RecordedBooksBalance(books: seq<Books>, acts: seq<Act>, n: nat, id: int)
    requires IsRun(books, acts) && n < |books| && books[n].unrecorded == [] && HasRow(books[n].db.tasks, id)
    ensures var b := books[n];
      && DecisionsOn(b.db.records, id) - Times(b.retries, id) == (if b.db.tasks[id - 1].state == Pending then 0 else 1)
      && CountPending(b.db.tasks) == |b.db.tasks| + |b.retries| - TaskDecisions(b.db.records)
  {
    BooksBalance(books, acts, n, id);
  }

  /** A completed task stays completed. */
  lemma {:induction false} CompletedForGood(books: seq<Books>, acts: seq<Act>, i: nat, j: nat, id: int)
    requires IsRun(books, acts) && i <= j < |books|
    requires HasRow(books[i].db.tasks, id) && books[i].db.tasks[id - 1].state == Completed
    ensures HasRow(books[j].db.tasks, id) && books[j].db.tasks[id - 1].state == Completed
    decreases j
  {
    if i < j {
      CompletedForGood(books, acts, i, j - 1, id);
      assert books[j - 1 + 1] == Next(books[j - 1], acts[j - 1]);
    }
  }

  // ----- The dashboard -----

  /** One row of SELECT quadrant, state, COUNT(*) ... GROUP BY quadrant, state. */
  datatype Group = Group(quadrant: int, state: TaskState, count: nat)

  datatype Dashboard = Dashboard(active: seq<nat>, completed: nat, failed: nat)

  predicate InGroup(g: Group, t: Task)
  {
    t.quadrant == g.quadrant && t.state == g.state
  }

  predicate InGroups(groups: seq<Group>, t: Task)
  {
    exists i :: 0 <= i < |groups| && InGroup(groups[i], t)
  }

  /** What GROUP BY yields: every task in a group, no group twice, every count right. */
  ghost predicate IsGrouping(groups: seq<Group>, tasks: seq<Task>)
  {
    && (forall i, j :: 0 <= i < j < |groups| ==>
          groups[i].quadrant != groups[j].quadrant || groups[i].state != groups[j].state)
    && (forall i :: 0 <= i < |groups| ==> groups[i].count == CountIf(tasks, (t: Task) => InGroup(groups[i], t)))
    && (forall t :: t in tasks ==> InGroups(groups, t))
  }

  function InState(s: TaskState): Task -> bool
  {
    (t: Task) => t.state == s
  }

  /** Tasks the dashboard shows as open in a quadrant. */
  function OpenIn(quadrant: int): Task -> bool
  {
    (t: Task) => t.quadrant == quadrant && (t.state == Pending || t.state == Active)
  }

  /** Open tasks outside the four quadrants, which the dashboard does not show. */
  function OpenElsewhere(): Task -> bool
  {
    (t: Task) => !(0 <= t.quadrant < 4) && (t.state == Pending || t.state == Active)
  }

  lemma {:induction false} CountSame(tasks: seq<Task>, p: Task -> bool, q: Task -> bool)
    requires forall t :: t in tasks ==> p(t) == q(t)
    ensures CountIf(tasks, p) == CountIf(tasks, q)
  {
    if tasks != [] {
      CountSame(tasks[1..], p, q);
    }
  }

  lemma {:induction false} CountSplit(tasks: seq<Task>, p: Task -> bool, q: Task -> bool, r: Task -> bool)
    requires forall t :: t in tasks ==> !(q(t) && r(t)) && (p(t) <==> q(t) || r(t))
    ensures CountIf(tasks, p) == CountIf(tasks, q) + CountIf(tasks, r)
  {
    if tasks != [] {
      CountSplit(tasks[1..], p, q, r);
    }
  }

  /** Tasks of a kind that the first n groups cover. */
  function Covered(tasks: seq<Task>, groups: seq<Group>, kind: Task -> bool): nat
  {
    CountIf(tasks, t => kind(t) && InGroups(groups, t))
  }

  lemma {:induction false} CountNone(tasks: seq<Task>, p: Task -> bool)
    requires forall t :: t in tasks ==> !p(t)
    ensures CountIf(tasks, p) == 0
  {
    if tasks != [] {
      CountNone(tasks[1..], p);
    }
  }

  lemma {:induction false} InOneMore(groups: seq<Group>, n: nat, t: Task)
    requires n < |groups|
    ensures InGroups(groups[..n + 1], t) <==> InGroups(groups[..n], t) || InGroup(groups[n], t)
  {}

  /** A group adds its count to every kind its tasks belong to; one of them, t, stands for all. */
  lemma {:induction false} OneMoreGroup(tasks: seq<Task>, groups: seq<Group>, n: nat, kind: Task -> bool, t: Task)
    requires IsGrouping(groups, tasks) && n < |groups| && InGroup(groups[n], t)
    requires forall u :: InGroup(groups[n], u) ==> kind(u) == kind(t)
    ensures Covered(tasks, groups[..n + 1], kind)
         == Covered(tasks, groups[..n], kind) + (if kind(t) then groups[n].count else 0)
  {
    var g := groups[n];
    forall u
      ensures InGroups(groups[..n + 1], u) <==> InGroups(groups[..n], u) || InGroup(g, u)
    {
      InOneMore(groups, n, u);
    }
    CountSplit(tasks, v => kind(v) && InGroups(groups[..n + 1], v), v => kind(v) && InGroups(groups[..n], v),
               v => kind(v) && InGroup(g, v));
    if kind(t) {
      CountSame(tasks, v => kind(v) && InGroup(g, v), v => InGroup(g, v));
      CountSame(tasks, v => InGroup(groups[n], v), v => InGroup(g, v));
    } else {
      CountNone(tasks, v => kind(v) && InGroup(g, v));
    }
  }

  lemma {:induction false} NoneCovered(tasks: seq<Task>, groups: seq<Group>, kind: Task -> bool)
    ensures Covered(tasks, groups[..0], kind) == 0
  {
    forall t
      ensures !InGroups(groups[..0], t)
    {}
    CountNone(tasks, t => kind(t) && InGroups(groups[..0], t));
  }

  lemma {:induction false} AllCovered(tasks: seq<Task>, groups: seq<Group>, kind: Task -> bool)
    requires IsGrouping(groups, tasks)
    ensures Covered(tasks, groups, kind) == CountIf(tasks, kind)
  {
    CountSame(tasks, t => kind(t) && InGroups(groups, t), kind);
  }

  /** The six counters, added up group by group in whatever order the groups come. */
  method MakeDashboard(groups: seq<Group>, ghost tasks: seq<Task>) returns (d: Dashboard)
    requires IsGrouping(groups, tasks)
    ensures |d.active| == 4 && forall q :: 0 <= q < 4 ==> d.active[q] == CountIf(tasks, OpenIn(q))
    ensures d.completed == CountIf(tasks, InState(Completed)) && d.failed == CountIf(tasks, InState(Failed))
  {
    var active: seq<nat> := [0, 0, 0, 0];
    var completed, failed := 0, 0;
    NoneCovered(tasks, groups, InState(Completed));
    NoneCovered(tasks, groups, InState(Failed));
    forall q | 0 <= q < 4 ensures Covered(tasks, groups[..0], OpenIn(q)) == 0 {
      NoneCovered(tasks, groups, OpenIn(q));
    }
    for i := 0 to |groups|
      invariant completed == Covered(tasks, groups[..i], InState(Completed))
      invariant failed == Covered(tasks, groups[..i], InState(Failed))
      invariant |active| == 4 && forall q :: 0 <= q < 4 ==> active[q] == Covered(tasks, groups[..i], OpenIn(q))
    {
      var g := groups[i];
      ghost var t := Task(g.quadrant, g.state, 0, "", "", 0, 0);
      OneMoreGroup(tasks, groups, i, InState(Completed), t);
      OneMoreGroup(tasks, groups, i, InState(Failed), t);
      forall q | 0 <= q < 4
        ensures Covered(tasks, groups[..i + 1], OpenIn(q)) ==
          Covered(tasks, groups[..i], OpenIn(q)) + (if OpenIn(q)(t) then g.count else 0)
      {
        OneMoreGroup(tasks, groups, i, OpenIn(q), t);
      }
      if g.state == Completed {
        completed := completed + g.count;
      } else if g.state == Failed {
        failed := failed + g.count;
      } else if 0 <= g.quadrant < 4 {
        active := active[g.quadrant := active[g.quadrant] + g.count];
      }
    }
    assert groups[..|groups|] == groups;
    AllCovered(tasks, groups, InState(Completed));
    AllCovered(tasks, groups, InState(Failed));
    forall q | 0 <= q < 4 ensures Covered(tasks, groups, OpenIn(q)) == CountIf(tasks, OpenIn(q)) {
      AllCovered(tasks, groups, OpenIn(q));
    }
    return Dashboard(active, completed, failed);
  }

  /** The six counters and the open tasks outside the four quadrants account for every task once. */
  lemma {:induction false} EveryTaskCounted(tasks: seq<Task>)
    ensures CountIf(tasks, InState(Completed)) + CountIf(tasks, InState(Failed))
      + CountIf(tasks, OpenIn(0)) + CountIf(tasks, OpenIn(1)) + CountIf(tasks, OpenIn(2)) + CountIf(tasks, OpenIn(3))
      + CountIf(tasks, OpenElsewhere()) == |tasks|
  {
    if tasks != [] {
      EveryTaskCounted(tasks[1..]);
    }
  }
}
