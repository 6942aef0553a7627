/** What the tables hold, told from the acts of a run: creations, decisions, finishes and retries. */
module TaskHistory {
  import opened Prelude
  import opened Tasks

  predicate RowAt(books: seq<Books>, i: nat, id: int)
  {
    i < |books| && 1 <= id <= |books[i].db.tasks|
  }

  /** Act i changes the state of a task. */
  predicate Moves(books: seq<Books>, i: nat, id: int)
  {
    RowAt(books, i, id) && RowAt(books, i + 1, id)
    && books[i].db.tasks[id - 1].state != books[i + 1].db.tasks[id - 1].state
  }

  function TimeOf(a: Act): int
  {
    match a
    case Create(task) => task.createdAtMs
    case Post(_) => 0
    case Change(_, _, _, now) => now
    case WriteRecord(_) => 0
    case Finish(_, _, now) => now
    case Retry(_, now) => now
  }

  /** Rows keep their ids and what they were created with; an act that changes the rest changes the state
      and stamps its time. */
  lemma {:induction false} RowStep(books: seq<Books>, acts: seq<Act>, i: nat, id: int)
    requires IsRun(books, acts) && i < |acts| && RowAt(books, i, id)
    ensures RowAt(books, i + 1, id)
    ensures var t, t' := books[i].db.tasks[id - 1], books[i + 1].db.tasks[id - 1];
      t' == t.(state := t'.state, updatedAtMs := if Moves(books, i, id) then TimeOf(acts[i]) else t.updatedAtMs)
  {
    assert books[i + 1] == Next(books[i], acts[i]);
  }

  /** Only a creation adds a row, at the end. */
  lemma {:induction false} RowsAdded(books: seq<Books>, acts: seq<Act>, i: nat)
    requires IsRun(books, acts) && i < |acts|
    ensures |books[i + 1].db.tasks| == |books[i].db.tasks| + if acts[i].Create? then 1 else 0
    ensures acts[i].Create? ==> books[i + 1].db.tasks == books[i].db.tasks + [acts[i].task]
    ensures |books[i + 1].db.notices| == |books[i].db.notices| + if acts[i].Post? then 1 else 0
    ensures acts[i].Post? ==> books[i + 1].db.notices == books[i].db.notices + [acts[i].notice]
  {
    assert books[i + 1] == Next(books[i], acts[i]);
  }

  /** Which acts change the state of a task, and to what. */
  lemma {:induction false} MovesExactly(books: seq<Books>, acts: seq<Act>, i: nat, id: int)
    requires IsRun(books, acts) && i < |acts| && RowAt(books, i, id)
    ensures var before, after := books[i].db.tasks[id - 1].state, books[i + 1].db.tasks[id - 1].state;
      match acts[i]
      case Change(OnTask, target, confirm, _) =>
        if target == id then before == Pending && after == (if confirm then Active else Completed) else after == before
      case Finish(target, succeeded, _) =>
        after == if target == id && before == Active then (if succeeded then Completed else Failed) else before
      case Retry(target, _) => after == if target == id && before == Failed then Pending else before
      case _ => after == before
  {
    assert books[i + 1] == Next(books[i], acts[i]);
  }

  /** Act i is the last before n to change the state of a task. */
  ghost predicate LastMove(books: seq<Books>, i: nat, n: nat, id: int)
  {
    i < n && Moves(books, i, id) && forall j: nat :: i < j < n ==> !Moves(books, j, id)
  }

  /** A task is ACTIVE, COMPLETED, FAILED or again PENDING exactly by the last act that moved it: confirmed;
      rejected or finished well; finished badly; retried. Its time is that act's. */
  lemma {:induction false} LastMoveTells(books: seq<Books>, acts: seq<Act>, i: nat, n: nat, id: int)
    requires IsRun(books, acts) && n < |books| && LastMove(books, i, n, id)
    ensures RowAt(books, n, id)
    ensures var t, a := books[n].db.tasks[id - 1], acts[i];
      && (t.state == Active <==> a.Change? && a.confirm)
      && (t.state == Completed <==> (a.Change? && !a.confirm) || (a.Finish? && a.succeeded))
      && (t.state == Failed <==> a.Finish? && !a.succeeded)
      && (t.state == Pending <==> a.Retry?)
      && t.updatedAtMs == TimeOf(a)
    decreases n
  {
    var m := n - 1;
    if m == i {
      MovesExactly(books, acts, i, id);
      RowStep(books, acts, i, id);
    } else {
      LastMoveTells(books, acts, i, m, id);
      RowStep(books, acts, m, id);
      assert !Moves(books, m, id);
    }
  }

  /** A task no act has moved is as it was created. */
  lemma {:induction false} NoMoveTells(books: seq<Books>, acts: seq<Act>, i: nat, n: nat, id: int)
    requires IsRun(books, acts) && i < n < |books| && acts[i].Create? && id == |books[i].db.tasks| + 1
    requires forall j: nat :: i < j < n ==> !Moves(books, j, id)
    ensures RowAt(books, n, id) && books[n].db.tasks[id - 1] == acts[i].task && acts[i].task.state == Pending
    decreases n
  {
    var m := n - 1;
    if m == i {
      RowsAdded(books, acts, i);
      assert Enabled(books[i], acts[i]);
    } else {
      NoMoveTells(books, acts, i, m, id);
      RowStep(books, acts, m, id);
      assert !Moves(books, m, id);
    }
  }

  predicate IsOpen(b: Books, o: ObjectType, id: int)
  {
    match o
    case OnTask => 1 <= id <= |b.db.tasks| && b.db.tasks[id - 1].state == Pending
    case OnNotice => 1 <= id <= |b.db.notices| && b.db.notices[id - 1].dismissedAtMs == None
    case OnOther => false
  }

  /** A decision can be made exactly on a pending task or a notice not yet dismissed. */
  lemma {:induction false} DecidedWhenOpen(b: Books, o: ObjectType, id: int, confirm: bool, now: int)
    ensures Enabled(b, Change(o, id, confirm, now)) <==> IsOpen(b, o, id)
  {}

  // ----- Records -----

  /** The record an act calls for, if it is a decision. */
  function RecordOf(a: Act): multiset<Record>
  {
    match a
    case Change(o, id, confirm, now) => multiset{Record(o, id, confirm, now)}
    case _ => multiset{}
  }

  /** The records the decisions of a run call for. */
  function DecisionsOf(acts: seq<Act>): multiset<Record>
    decreases |acts|
  {
    if acts == [] then multiset{} else DecisionsOf(acts[..|acts| - 1]) + RecordOf(acts[|acts| - 1])
  }

  /** The records written and those waiting to be. */
  function Held(b: Books): multiset<Record>
  {
    multiset(b.db.records) + multiset(b.unrecorded)
  }

  lemma {:induction false} Passed(written: seq<Record>, waiting: seq<Record>, k: nat)
    requires k < |waiting|
    ensures multiset(written + [waiting[k]]) + multiset(waiting[..k] + waiting[k + 1..])
         == multiset(written) + multiset(waiting)
  {
    assert waiting == waiting[..k] + ([waiting[k]] + waiting[k + 1..]);
  }

  lemma {:induction false} Waits(written: seq<Record>, waiting: seq<Record>, record: Record)
    ensures multiset(written) + multiset(waiting + [record]) == multiset(written) + multiset(waiting) + multiset{record}
  {}

  lemma {:induction false} HeldNext(b: Books, a: Act)
    requires Enabled(b, a)
    ensures Held(Next(b, a)) == Held(b) + RecordOf(a)
  {
    match a
    case WriteRecord(index) => Passed(b.db.records, b.unrecorded, index);
    case Change(o, id, confirm, now) => Waits(b.db.records, b.unrecorded, Record(o, id, confirm, now));
    case _ =>
  }

  /** These are the records written and waiting. */
  ghost predicate Tallied(b: Books, records: multiset<Record>)
  {
    Held(b) == records
  }

  lemma {:induction false} TalliedNext(b: Books, a: Act, records: multiset<Record>)
    requires Enabled(b, a) && Tallied(b, records)
    ensures Tallied(Next(b, a), records + RecordOf(a))
  {
    HeldNext(b, a);
  }

  lemma {:induction false} DecisionsNext(acts: seq<Act>, m: nat)
    requires m < |acts|
    ensures DecisionsOf(acts[..m + 1]) == DecisionsOf(acts[..m]) + RecordOf(acts[m])
  {
    assert acts[..m + 1][..m] == acts[..m];
  }

  /** Every decision is recorded as it was made, confirmed or rejected, once, or still waits to be. */
  lemma {:induction false} RecordsAreDecisions(books: seq<Books>, acts: seq<Act>, n: nat)
    requires IsRun(books, acts) && n < |books|
    ensures Tallied(books[n], DecisionsOf(acts[..n]))
    decreases n
  {
    if n > 0 {
      RecordsAreDecisions(books, acts, n - 1);
      TalliedNext(books[n - 1], acts[n - 1], DecisionsOf(acts[..n - 1]));
      DecisionsNext(acts, n - 1);
      assert books[n - 1 + 1] == Next(books[n - 1], acts[n - 1]);
    }
  }

  // ----- Notices -----

  predicate DismissesNotice(a: Act, id: int)
  {
    a.Change? && a.objectType == OnNotice && a.objectId == id
  }

  lemma {:induction false} NoticeStep(books: seq<Books>, acts: seq<Act>, i: nat, id: int)
    requires IsRun(books, acts) && i < |acts| && 1 <= id <= |books[i].db.notices|
    ensures 1 <= id <= |books[i + 1].db.notices|
    ensures var before, after := books[i].db.notices[id - 1], books[i + 1].db.notices[id - 1];
      && after.title == before.title
      && if DismissesNotice(acts[i], id) then before.dismissedAtMs == None && after.dismissedAtMs == Some(acts[i].now)
         else after == before
  {
    assert books[i + 1] == Next(books[i], acts[i]);
  }

  /** A notice is dismissed at most once, by a decision on it, confirmed or rejected alike, and keeps its time. */
  lemma {:induction false} DismissedOnce(books: seq<Books>, acts: seq<Act>, i: nat, n: nat, id: int)
    requires IsRun(books, acts) && i < n < |books| && DismissesNotice(acts[i], id)
    ensures 1 <= id <= |books[n].db.notices| && books[n].db.notices[id - 1].dismissedAtMs == Some(acts[i].now)
    ensures forall j :: i < j < n ==> !DismissesNotice(acts[j], id)
    decreases n
  {
    var m := n - 1;
    assert Enabled(books[m], acts[m]);
    if m > i {
      DismissedOnce(books, acts, i, m, id);
    }
    NoticeStep(books, acts, m, id);
  }

  /** A call of confirm or reject is a decision and its record with nothing in between. */
  lemma {:induction false} SettleIsTwoActs(b: Books, o: ObjectType, id: int, confirm: bool, now: int)
    requires Enabled(b, Change(o, id, confirm, now)) && b.unrecorded == []
    ensures var decided := Next(b, Change(o, id, confirm, now));
      && Enabled(decided, WriteRecord(0))
      && Next(decided, WriteRecord(0)) ==
           b.(db := Decide(b.db, o, id, confirm, now).(records := b.db.records + [Record(o, id, confirm, now)]))
  {}
}
