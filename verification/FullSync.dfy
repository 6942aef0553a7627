/** The full panel synchronisation, its aborts, and the publishes that run beside it (orchestrator.py). */
module FullSync {
  import opened Prelude
  import opened Tasks

  const MAX_ITEMS := 16

  datatype Command =
    | SyncBegin | ModeSet | AttentionSet | WorkStateSet | DashboardSet | NoticeShow
    | ListBegin(count: nat) | Item(task: Task) | ListEnd | SyncEnd

  function CoreState(): seq<Command>
  {
    [ModeSet, AttentionSet, WorkStateSet]
  }

  function Items(tasks: seq<Task>): (r: seq<Command>)
    ensures |r| == |tasks| && forall i :: 0 <= i < |r| ==> r[i] == Item(tasks[i])
  {
    seq(|tasks|, i requires 0 <= i < |tasks| => Item(tasks[i]))
  }

  /** The commands of one whole sync. */
  function Script(tasks: seq<Task>): (r: seq<Command>)
    ensures |r| == |tasks| + 9
  {
    [SyncBegin] + CoreState() + [DashboardSet, NoticeShow, ListBegin(|tasks|)] + Items(tasks) + [ListEnd, SyncEnd]
  }

  /** The command at each place of a script. */
  ghost predicate Places(s: seq<Command>, tasks: seq<Task>)
  {
    var n := |tasks|;
    && |s| == n + 9
    && s[0] == SyncBegin && s[1] == ModeSet && s[2] == AttentionSet && s[3] == WorkStateSet
    && s[4] == DashboardSet && s[5] == NoticeShow && s[6] == ListBegin(n)
    && (forall i :: 0 <= i < n ==> s[7 + i] == Item(tasks[i]))
    && s[7 + n] == ListEnd && s[8 + n] == SyncEnd
  }

  lemma {:induction false} ScriptPlaces(tasks: seq<Task>)
    ensures Places(Script(tasks), tasks)
  {}

  /** How one send ends: answered, given up after the command went out, or raised before it did, as
      when the link is down or the payload cannot be encoded. */
  datatype Outcome = Answered | Unanswered | NotSent

  /** Sends made in order stop at the first that raises; answers says how each ends. */
  ghost predicate StoppedAtFailure(script: seq<Command>, sent: seq<Command>, complete: bool, answers: nat -> Outcome)
  {
    && sent <= script
    && (complete ==> sent == script && AllAnswered(sent, answers))
    && (!complete ==>
          if sent != [] && !answers(|sent| - 1).Answered? then
            answers(|sent| - 1).Unanswered? && AllAnswered(sent[..|sent| - 1], answers)
          else |sent| < |script| && answers(|sent|).NotSent? && AllAnswered(sent, answers))
  }

  ghost predicate AllAnswered(sent: seq<Command>, answers: nat -> Outcome)
  {
    forall i :: 0 <= i < |sent| ==> answers(i).Answered?
  }

  /** self._uart.send, with the encoding of its payload. */
  method Send(ghost script: seq<Command>, before: seq<Command>, c: Command, answers: nat -> Outcome)
    returns (sent: seq<Command>, ok: bool)
    requires before < script && script[|before|] == c && AllAnswered(before, answers)
    ensures ok ==> sent == before + [c] && sent <= script && AllAnswered(sent, answers)
    ensures !ok ==> StoppedAtFailure(script, sent, false, answers)
  {
    var outcome := answers(|before|);
    if outcome.NotSent? {
      return before, false;
    }
    sent := before + [c];
    ok := outcome.Answered?;
    assert sent[..|sent| - 1] == before;
  }

  method SendCoreState(ghost script: seq<Command>, before: seq<Command>, answers: nat -> Outcome)
    returns (sent: seq<Command>, ok: bool)
    requires before + CoreState() <= script && AllAnswered(before, answers)
    ensures ok ==> sent == before + CoreState() && AllAnswered(sent, answers)
    ensures !ok ==> StoppedAtFailure(script, sent, false, answers)
  {
    var core := before + CoreState();
    assert core[|before|] == ModeSet && core[|before| + 1] == AttentionSet && core[|before| + 2] == WorkStateSet;
    sent, ok := Send(script, before, ModeSet, answers);
    if ok {
      sent, ok := Send(script, sent, AttentionSet, answers);
    }
    if ok {
      sent, ok := Send(script, sent, WorkStateSet, answers);
    }
  }

  method SendSnapshot(ghost script: seq<Command>, tasks: seq<Task>, answers: nat -> Outcome)
    returns (sent: seq<Command>, complete: bool)
    requires Places(script, tasks)
    ensures StoppedAtFailure(script, sent, complete, answers)
  {
    sent, complete := Send(script, [], SyncBegin, answers);
    if !complete { return; }
    assert sent + CoreState() <= script;
    sent, complete := SendCoreState(script, sent, answers);
    if !complete { return; }
    sent, complete := Send(script, sent, DashboardSet, answers);
    if !complete { return; }
    sent, complete := Send(script, sent, NoticeShow, answers);
    if !complete { return; }
    sent, complete := Send(script, sent, ListBegin(|tasks|), answers);
    if !complete { return; }
    for k := 0 to |tasks|
      invariant |sent| == 7 + k && sent <= script && AllAnswered(sent, answers)
    {
      sent, complete := Send(script, sent, Item(tasks[k]), answers);
      if !complete { return; }
    }
    sent, complete := Send(script, sent, ListEnd, answers);
    if !complete { return; }
    sent, complete := Send(script, sent, SyncEnd, answers);
  }

  /** _full_sync_locked: None stands for a table read that raises, after which nothing is sent; else
      what goes out is the script up to the first send that raises. */
  method FullSyncLocked(tables: Option<seq<Task>>, answers: nat -> Outcome) returns (sent: seq<Command>, complete: bool)
    ensures tables.None? ==> sent == [] && !complete
    ensures tables.Some? ==> StoppedAtFailure(Script(tables.value), sent, complete, answers)
  {
    if tables.None? {
      return [], false;
    }
    ScriptPlaces(tables.value);
    sent, complete := SendSnapshot(Script(tables.value), tables.value, answers);
  }

  /** The sync reaches SYNC_END only if every send before it was answered, and then it is whole: as many
      items as announced, each task once and in order. */
  lemma {:induction false} EndMeansWhole(tasks: seq<Task>, sent: seq<Command>, complete: bool, answers: nat -> Outcome)
    requires StoppedAtFailure(Script(tasks), sent, complete, answers) && SyncEnd in sent
    ensures sent == Script(tasks) && AllAnswered(sent[..|sent| - 1], answers)
  {}

  // ----- The stream the panel sees: syncs one at a time, publishes at any time -----

  predicate IsCore(c: Command)
  {
    c.ModeSet? || c.AttentionSet? || c.WorkStateSet?
  }

  /** The sync holding the lock: its tasks and how many of its commands were sent. */
  datatype Sync = Idle | Open(tasks: seq<Task>, position: nat)

  datatype Line = Line(sync: Sync, stream: seq<Command>)

  datatype Event =
    | Acquire(tasks: seq<Task>)
    | SendNext(outcome: Outcome)
    | Publish(command: Command)

  predicate Enabled(l: Line, e: Event)
  {
    match e
    case Acquire(tasks) => l.sync.Idle? && |tasks| <= MAX_ITEMS
    case SendNext(_) => l.sync.Open? && l.sync.position < |Script(l.sync.tasks)|
    case Publish(command) => IsCore(command)
  }

  function Next(l: Line, e: Event): Line
    requires Enabled(l, e)
  {
    match e
    case Acquire(tasks) => l.(sync := Open(tasks, 0))
    case SendNext(outcome) =>
      var s := l.sync;
      var stream := if outcome.NotSent? then l.stream else l.stream + [Script(s.tasks)[s.position]];
      if !outcome.Answered? || s.position + 1 == |Script(s.tasks)| then Line(Idle, stream)
      else Line(Open(s.tasks, s.position + 1), stream)
    case Publish(command) => l.(stream := l.stream + [command])
  }

  function Run(events: seq<Event>): Option<Line>
    decreases |events|
  {
    if events == [] then Some(Line(Idle, []))
    else
      var n := |events| - 1;
      match Run(events[..n])
      case None => None
      case Some(l) => if Enabled(l, events[n]) then Some(Next(l, events[n])) else None
  }

  /** A sync with the line to itself, after k of its sends. */
  function Alone(tasks: seq<Task>, answers: nat -> Outcome, k: nat): Line
    requires |tasks| <= MAX_ITEMS
    decreases k
  {
    if k == 0 then Next(Line(Idle, []), Acquire(tasks))
    else
      var l := Alone(tasks, answers, k - 1);
      if l.sync.Open? && l.sync.position < |Script(l.sync.tasks)| then Next(l, SendNext(answers(k - 1))) else l
  }

  lemma {:induction false} OneSend(script: seq<Command>, k: nat, answers: nat -> Outcome)
    requires k < |script| && AllAnswered(script[..k], answers)
    ensures answers(k).NotSent? ==> StoppedAtFailure(script, script[..k], false, answers)
    ensures answers(k).Unanswered? ==> StoppedAtFailure(script, script[..k + 1], false, answers)
    ensures answers(k).Answered? ==> AllAnswered(script[..k + 1], answers)
    ensures script[..k] + [script[k]] == script[..k + 1]
  {
    assert script[..k + 1][..k] == script[..k];
  }

  /** The sync is under way with everything answered, or over as the whole call would end it. */
  ghost predicate OnItsWay(l: Line, tasks: seq<Task>, script: seq<Command>, k: nat, answers: nat -> Outcome)
  {
    match l.sync
    case Open(ts, position) =>
      ts == tasks && position == k < |script| && l.stream == script[..k] && AllAnswered(l.stream, answers)
    case Idle =>
      script != [] &&
      StoppedAtFailure(script, l.stream, |l.stream| == |script| && answers(|script| - 1).Answered?, answers)
  }

  lemma {:induction false} SendOnItsWay(l: Line, tasks: seq<Task>, script: seq<Command>, k: nat,
                                        answers: nat -> Outcome)
    requires script == Script(tasks) && l.sync.Open? && OnItsWay(l, tasks, script, k, answers)
    ensures OnItsWay(Next(l, SendNext(answers(k))), tasks, script, k + 1, answers)
  {
    OneSend(script, k, answers);
    assert script[..|script|] == script;
  }

  /** Step by step on the line a sync sends what the whole call does: it goes on while its sends are
      answered, stops at the first that is not, and ends with SYNC_END. */
  lemma {:induction false} AloneStopsAtFailure(tasks: seq<Task>, answers: nat -> Outcome, k: nat)
    requires |tasks| <= MAX_ITEMS
    ensures OnItsWay(Alone(tasks, answers, k), tasks, Script(tasks), k, answers)
    decreases k
  {
    if k > 0 {
      AloneStopsAtFailure(tasks, answers, k - 1);
      var l := Alone(tasks, answers, k - 1);
      if l.sync.Open? {
        SendOnItsWay(l, tasks, Script(tasks), k - 1, answers);
      }
    }
  }

  function WithoutCore(commands: seq<Command>): seq<Command>
    decreases |commands|
  {
    if commands == [] then []
    else
      var before, last := commands[..|commands| - 1], commands[|commands| - 1];
      if IsCore(last) then WithoutCore(before) else WithoutCore(before) + [last]
  }

  /** Every publish reaches the line at once, between whatever a sync sends. */
  lemma {:induction false} PublishesSent(events: seq<Event>, command: Command)
    requires Run(events).Some? && IsCore(command)
    ensures Run(events + [Publish(command)]) == Some(Run(events).value.(stream := Run(events).value.stream + [command]))
  {
    assert (events + [Publish(command)])[..|events|] == events;
  }

  /** What the panel has collected since the last SYNC_BEGIN, core state aside. */
  function Collected(stream: seq<Command>): seq<Command>
    decreases |stream|
  {
    if stream == [] then []
    else
      var before, last := stream[..|stream| - 1], stream[|stream| - 1];
      if last.SyncBegin? then [SyncBegin]
      else if IsCore(last) then Collected(before)
      else Collected(before) + [last]
  }

  /** What was collected is one whole snapshot of at most sixteen tasks. */
  ghost predicate Whole(collected: seq<Command>)
  {
    exists tasks :: |tasks| <= 16 && collected == WithoutCore(Script(tasks))
  }

  /** If there is a SYNC_END at this place, it closed a whole snapshot. */
  ghost predicate EndWhole(stream: seq<Command>, p: nat)
    requires p < |stream|
  {
    stream[p].SyncEnd? ==> Whole(Collected(stream[..p + 1]))
  }

  /** Every SYNC_END so far closed a whole snapshot. */
  ghost predicate EndsWhole(stream: seq<Command>)
  {
    forall p :: 0 <= p < |stream| ==> EndWhole(stream, p)
  }

  lemma {:induction false} EndWholeEarlier(stream: seq<Command>, more: seq<Command>, p: nat)
    requires p < |stream| && stream <= more
    ensures EndWhole(more, p) <==> EndWhole(stream, p)
  {
    assert more[..p + 1] == stream[..p + 1];
  }

  lemma {:induction false} EndsWholeGrows(stream: seq<Command>, c: Command)
    requires EndsWhole(stream) && (c.SyncEnd? ==> Whole(Collected(stream + [c])))
    ensures EndsWhole(stream + [c])
  {
    var more := stream + [c];
    forall p | 0 <= p < |more|
      ensures EndWhole(more, p)
    {
      if p < |stream| {
        EndWholeEarlier(stream, more, p);
      } else {
        assert more[..p + 1] == more;
      }
    }
  }

  ghost predicate Consistent(l: Line)
  {
    && EndsWhole(l.stream)
    && (l.sync.Open? ==>
          && |l.sync.tasks| <= MAX_ITEMS && l.sync.position < |Script(l.sync.tasks)|
          && (l.sync.position > 0 ==> Collected(l.stream) == WithoutCore(Script(l.sync.tasks)[..l.sync.position])))
  }

  lemma {:induction false} CollectedGrows(stream: seq<Command>, c: Command)
    ensures Collected(stream + [c]) ==
      if c.SyncBegin? then [SyncBegin] else if IsCore(c) then Collected(stream) else Collected(stream) + [c]
  {}

  lemma {:induction false} ScriptGrows(tasks: seq<Task>, k: nat)
    requires k < |Script(tasks)|
    ensures Script(tasks)[k].SyncBegin? <==> k == 0
    ensures Script(tasks)[k].SyncEnd? <==> k == |Script(tasks)| - 1
    ensures WithoutCore(Script(tasks)[..k + 1]) ==
      WithoutCore(Script(tasks)[..k]) + (if IsCore(Script(tasks)[k]) then [] else [Script(tasks)[k]])
  {
    ScriptPlaces(tasks);
    assert Script(tasks)[..k + 1][..k] == Script(tasks)[..k];
  }

  /** Sending the command at a place of the script keeps collection and script in step. */
  lemma {:induction false} CollectsScript(stream: seq<Command>, tasks: seq<Task>, k: nat)
    requires k < |Script(tasks)|
    requires k > 0 ==> Collected(stream) == WithoutCore(Script(tasks)[..k])
    ensures Collected(stream + [Script(tasks)[k]]) == WithoutCore(Script(tasks)[..k + 1])
  {
    ScriptGrows(tasks, k);
    CollectedGrows(stream, Script(tasks)[k]);
    assert Script(tasks)[..0] == [];
  }

  lemma {:induction false} ScriptIsWhole(tasks: seq<Task>, collected: seq<Command>)
    requires |tasks| <= MAX_ITEMS && collected == WithoutCore(Script(tasks))
    ensures Whole(collected)
  {}

  lemma {:induction false} SendKeepsConsistent(l: Line, outcome: Outcome)
    requires Consistent(l) && Enabled(l, SendNext(outcome))
    ensures Consistent(Next(l, SendNext(outcome)))
  {
    var tasks, k := l.sync.tasks, l.sync.position;
    var script := Script(tasks);
    CollectsScript(l.stream, tasks, k);
    ScriptGrows(tasks, k);
    if script[k].SyncEnd? {
      assert script[..k + 1] == script;
      ScriptIsWhole(tasks, Collected(l.stream + [script[k]]));
    }
    EndsWholeGrows(l.stream, script[k]);
  }

  lemma {:induction false} NextKeepsConsistent(l: Line, e: Event)
    requires Consistent(l) && Enabled(l, e)
    ensures Consistent(Next(l, e))
  {
    match e
    case Acquire(_) =>
    case SendNext(outcome) => SendKeepsConsistent(l, outcome);
    case Publish(command) =>
      CollectedGrows(l.stream, command);
      EndsWholeGrows(l.stream, command);
  }

  /** However syncs fail and publishes interleave, each SYNC_END the panel gets closes exactly one
      whole snapshot: announced count, items and list end all from the same sync. */
  lemma {:induction false} NoPartialSnapshot(events: seq<Event>)
    requires Run(events).Some?
    ensures EndsWhole(Run(events).value.stream)
    ensures Consistent(Run(events).value)
    decreases |events|
  {
    if events != [] {
      var n := |events| - 1;
      NoPartialSnapshot(events[..n]);
      NextKeepsConsistent(Run(events[..n]).value, events[n]);
    }
  }

  /** What a whole snapshot holds, in order, with core state and without. */
  lemma {:induction false} WholeSnapshot(tasks: seq<Task>)
    ensures Script(tasks) ==
      [SyncBegin, ModeSet, AttentionSet, WorkStateSet, DashboardSet, NoticeShow, ListBegin(|tasks|)]
      + Items(tasks) + [ListEnd, SyncEnd]
    ensures WithoutCore(Script(tasks)) ==
      [SyncBegin, DashboardSet, NoticeShow, ListBegin(|tasks|)] + Items(tasks) + [ListEnd, SyncEnd]
  {
    var begin, mid := [SyncBegin] + CoreState(), [DashboardSet, NoticeShow, ListBegin(|tasks|)];
    var items, end := Items(tasks), [ListEnd, SyncEnd];
    var tail := mid + items + end;
    assert Script(tasks) == begin + tail;
    WithoutCoreAppend(begin, tail);
    BeginWithoutCore();
    NoCoreAtAll(tail);
    assert [SyncBegin] + tail == [SyncBegin, DashboardSet, NoticeShow, ListBegin(|tasks|)] + items + end;
  }

  lemma {:induction false} BeginWithoutCore()
    ensures WithoutCore([SyncBegin] + CoreState()) == [SyncBegin]
  {
    WithoutCoreAppend([SyncBegin], CoreState());
    NoCoreAtAll([SyncBegin]);
    OnlyCore(CoreState());
  }

  lemma {:induction false} WithoutCoreAppend(xs: seq<Command>, ys: seq<Command>)
    ensures WithoutCore(xs + ys) == WithoutCore(xs) + WithoutCore(ys)
    decreases |ys|
  {
    if ys == [] {
      assert xs + ys == xs;
    } else {
      var n := |ys| - 1;
      assert (xs + ys)[..|xs| + n] == xs + ys[..n];
      WithoutCoreAppend(xs, ys[..n]);
    }
  }

  lemma {:induction false} NoCoreAtAll(xs: seq<Command>)
    requires forall c :: c in xs ==> !IsCore(c)
    ensures WithoutCore(xs) == xs
    decreases |xs|
  {
    if xs != [] {
      NoCoreAtAll(xs[..|xs| - 1]);
    }
  }

  lemma {:induction false} OnlyCore(xs: seq<Command>)
    requires forall c :: c in xs ==> IsCore(c)
    ensures WithoutCore(xs) == []
    decreases |xs|
  {
    if xs != [] {
      OnlyCore(xs[..|xs| - 1]);
    }
  }
}
