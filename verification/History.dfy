/** What the state shows, told from what happened: messages heard, evaluations, and panel, executor and
    task steps, with no reference to how a step is computed. */
module History {
  import opened Prelude
  import opened StateMachine
  import opened PressureAdapter
  import opened Orchestrator

  // ----- The messages heard in a run -----

  function Heard(steps: seq<Step>): seq<Timed>
    decreases |steps|
  {
    if steps == [] then []
    else
      var before, last := steps[..|steps| - 1], steps[|steps| - 1];
      if last.action.AdapterReceive? then Heard(before) + [Timed(last.action.message, last.now)] else Heard(before)
  }

  lemma {:induction false} HeardNext(steps: seq<Step>, n: nat)
    requires n < |steps|
    ensures Heard(steps[..n + 1]) ==
      if steps[n].action.AdapterReceive? then Heard(steps[..n]) + [Timed(steps[n].action.message, steps[n].now)]
      else Heard(steps[..n])
  {
    assert steps[..n + 1][..n] == steps[..n];
  }

  lemma {:induction false} AfterNext(h: seq<Timed>, t: Timed)
    ensures After(h + [t]) == Receive(After(h), t.message, t.now).adapter
  {
    assert (h + [t])[..|h|] == h;
  }

  /** The adapter holds what the messages heard so far made of it. */
  lemma {:induction false} AdapterHeard(worlds: seq<World>, steps: seq<Step>, config: Config, n: nat)
    requires IsRun(worlds, steps, config) && n < |worlds|
    ensures worlds[n].adapter == After(Heard(steps[..n]))
    decreases n
  {
    if n > 0 {
      var m := n - 1;
      AdapterHeard(worlds, steps, config, m);
      assert worlds[m + 1] == Next(worlds[m], steps[m], config);
      HeardNext(steps, m);
      if steps[m].action.AdapterReceive? {
        AfterNext(Heard(steps[..m]), Timed(steps[m].action.message, steps[m].now));
      }
    }
  }

  // ----- Pressure, told from the messages -----

  /** The device last said online, and its last new sample is no older than the limit. */
  ghost predicate HasCurrentSample(h: seq<Timed>, now: int, staleMs: int)
  {
    SaysOnline(h) && exists i: nat :: IsLastNew(h, i) && now - h[i].now <= staleMs
  }

  /** The last new sample has cushion or footrest set. */
  ghost predicate LastIsPressed(h: seq<Timed>)
  {
    exists i: nat :: IsLastNew(h, i) && (h[i].message.reading.cushion || h[i].message.reading.footrest)
  }

  lemma {:induction false} OneLastNew(h: seq<Timed>, i: nat, j: nat)
    requires IsLastNew(h, i) && IsLastNew(h, j)
    ensures i == j
  {}

  lemma {:induction false} SampleOnMessages(h: seq<Timed>, now: int, staleMs: int)
    ensures SampleCounts(After(h).pressure, now, staleMs) <==> HasCurrentSample(h, now, staleMs)
    ensures After(h).pressure.lastSample.Some? ==> (SampleReleased(After(h).pressure) <==> !LastIsPressed(h))
  {
    HeldExactly(h);
    var p := After(h).pressure;
    if p.lastSample.Some? {
      var i: nat :| IsLastNew(h, i) && p.lastSample.value == Sample(h[i].message.reading, h[i].now);
      forall j: nat | IsLastNew(h, j)
        ensures j == i
      {
        OneLastNew(h, i, j);
      }
    }
  }

  /** When step j evaluates, the messages heard say released. */
  ghost predicate ReleaseHeard(steps: seq<Step>, j: nat, staleMs: int)
    requires j < |steps|
  {
    HasCurrentSample(Heard(steps[..j]), steps[j].now, staleMs) && !LastIsPressed(Heard(steps[..j]))
  }

  lemma {:induction false} ReleaseOnMessages(worlds: seq<World>, steps: seq<Step>, config: Config, j: nat)
    requires IsRun(worlds, steps, config) && j < |steps|
    ensures SeesRelease(worlds[j], steps[j], config) <==> ReleaseHeard(steps, j, config.staleMs)
  {
    AdapterHeard(worlds, steps, config, j);
    SampleOnMessages(Heard(steps[..j]), steps[j].now, config.staleMs);
  }

  /** Step j hears a new sample with cushion or footrest set. */
  ghost predicate PressHeard(steps: seq<Step>, j: nat)
    requires j < |steps|
  {
    var h := Heard(steps[..j + 1]);
    && steps[j].action.AdapterReceive? && IsNew(h, |h| - 1)
    && (h[|h| - 1].message.reading.cushion || h[|h| - 1].message.reading.footrest)
  }

  lemma {:induction false} PressOnMessages(worlds: seq<World>, steps: seq<Step>, config: Config, j: nat)
    requires IsRun(worlds, steps, config) && j < |steps|
    ensures AcceptsPress(worlds[j], steps[j]) <==> PressHeard(steps, j)
  {
    AdapterHeard(worlds, steps, config, j);
    HeardNext(steps, j);
    var h := Heard(steps[..j + 1]);
    if steps[j].action.AdapterReceive? {
      assert h[..|h| - 1] == Heard(steps[..j]);
      if steps[j].action.message.Sampled? {
        NewIsTaken(h, |h| - 1);
      }
    }
  }

  // ----- Modes, told from the messages -----

  /** Evaluations from step k to step n span the dwell and all found a release. */
  ghost predicate DwellHeard(steps: seq<Step>, k: nat, n: nat, config: Config)
    requires n < |steps|
  {
    && k <= n && Evaluates(steps[k]) && steps[n].now - steps[k].now >= config.dwellMs
    && forall j :: k <= j <= n && Evaluates(steps[j]) ==> ReleaseHeard(steps, j, config.staleMs)
  }

  lemma {:induction false} ClockBound(worlds: seq<World>, steps: seq<Step>, config: Config, n: nat)
    requires IsRun(worlds, steps, config) && n < |worlds|
    ensures worlds[n].since.Some? ==> worlds[n].since.value <= worlds[n].now
    decreases n
  {
    if n > 0 {
      ClockBound(worlds, steps, config, n - 1);
      assert worlds[n - 1 + 1] == Next(worlds[n - 1], steps[n - 1], config);
    }
  }

  /** The timer has been running since before the first of a stretch of releases. */
  lemma {:induction false} SinceBefore(worlds: seq<World>, steps: seq<Step>, config: Config, k: nat, n: nat)
    requires IsRun(worlds, steps, config) && k < n < |worlds| && Evaluates(steps[k])
    requires forall j :: k <= j < n && Evaluates(steps[j]) ==> SeesRelease(worlds[j], steps[j], config)
    ensures worlds[n].since.Some? && worlds[n].since.value <= steps[k].now
    decreases n
  {
    var m := n - 1;
    assert worlds[m + 1] == Next(worlds[m], steps[m], config);
    EvaluationTimes(worlds[m], steps[m], config);
    if m == k {
      ClockBound(worlds, steps, config, m);
    } else {
      SinceBefore(worlds, steps, config, k, m);
    }
  }

  lemma {:induction false} DwellMeansNight(worlds: seq<World>, steps: seq<Step>, config: Config, k: nat, n: nat)
    requires IsRun(worlds, steps, config) && n < |steps| && Evaluates(steps[n]) && DwellHeard(steps, k, n, config)
    ensures worlds[n + 1].state.mode == NightExec
  {
    forall j | k <= j <= n && Evaluates(steps[j])
      ensures SeesRelease(worlds[j], steps[j], config)
    {
      ReleaseOnMessages(worlds, steps, config, j);
    }
    assert worlds[n + 1] == Next(worlds[n], steps[n], config);
    EvaluationShown(worlds[n], steps[n], config);
    if k < n {
      SinceBefore(worlds, steps, config, k, n);
    } else {
      ClockBound(worlds, steps, config, n);
    }
  }

  /** After an evaluation, in every run: SENSOR_ERROR exactly when the device did not last say online, sent
      no new sample, or sent its last one too long ago; DAY_WORK exactly when it is current and pressed. */
  lemma {:induction false} EvaluationTells(worlds: seq<World>, steps: seq<Step>, config: Config, n: nat)
    requires IsRun(worlds, steps, config) && n < |steps| && Evaluates(steps[n])
    ensures var s, h := worlds[n + 1].state, Heard(steps[..n]);
      var current := HasCurrentSample(h, steps[n].now, config.staleMs);
      && (SensorError in s.attention <==> !current)
      && (s.mode == DayWork <==> current && LastIsPressed(h))
      && (!current ==> s.mode == Idle)
      && s.pressure == After(h).pressure
  {
    assert worlds[n + 1] == Next(worlds[n], steps[n], config);
    EvaluationShown(worlds[n], steps[n], config);
    AdapterHeard(worlds, steps, config, n);
    SampleOnMessages(Heard(steps[..n]), steps[n].now, config.staleMs);
  }

  /** After an evaluation the mode is NIGHT_EXEC exactly when evaluations that span the dwell all found a
      release; and then no press was heard between them. */
  lemma {:induction false} NightExecExactly(worlds: seq<World>, steps: seq<Step>, config: Config, n: nat)
    requires IsRun(worlds, steps, config) && n < |steps| && Evaluates(steps[n])
    ensures worlds[n + 1].state.mode == NightExec <==> exists k: nat :: DwellHeard(steps, k, n, config)
    ensures worlds[n + 1].state.mode == NightExec ==>
      exists k: nat :: DwellHeard(steps, k, n, config) && forall j :: k < j <= n ==> !PressHeard(steps, j)
  {
    if worlds[n + 1].state.mode == NightExec {
      NoPressLost(worlds, steps, config, n);
      var k: nat :| PressFree(worlds, steps, config, k, n);
      forall j | k <= j <= n
        ensures SeesRelease(worlds[j], steps[j], config) <==> ReleaseHeard(steps, j, config.staleMs)
        ensures AcceptsPress(worlds[j], steps[j]) <==> PressHeard(steps, j)
      {
        ReleaseOnMessages(worlds, steps, config, j);
        PressOnMessages(worlds, steps, config, j);
      }
      assert DwellHeard(steps, k, n, config);
    }
    forall k: nat | DwellHeard(steps, k, n, config)
      ensures worlds[n + 1].state.mode == NightExec
    {
      DwellMeansNight(worlds, steps, config, k, n);
    }
  }

  // ----- Every update is evaluated -----

  /** Step j hears a message that changes what the adapter holds: online, offline or a new sample. */
  ghost predicate UpdateHeard(steps: seq<Step>, j: nat)
    requires j < |steps|
  {
    var h := Heard(steps[..j + 1]);
    steps[j].action.AdapterReceive? && Updates(h, |h| - 1)
  }

  lemma {:induction false} UpdateOnMessages(worlds: seq<World>, steps: seq<Step>, config: Config, j: nat)
    requires IsRun(worlds, steps, config) && j < |steps| && steps[j].action.AdapterReceive?
    ensures worlds[j + 1].evaluationDue <==> UpdateHeard(steps, j)
  {
    AdapterHeard(worlds, steps, config, j);
    HeardNext(steps, j);
    var h := Heard(steps[..j + 1]);
    assert h[..|h| - 1] == Heard(steps[..j]);
    NextUpdates(h);
    assert worlds[j + 1] == Next(worlds[j], steps[j], config);
  }

  /** The adapter waits for an evaluation exactly since a message that changed what it holds, until its
      evaluation runs. */
  lemma {:induction false} DueExactly(worlds: seq<World>, steps: seq<Step>, config: Config, n: nat)
    requires IsRun(worlds, steps, config) && n < |worlds|
    ensures worlds[n].evaluationDue <==>
      exists j: nat :: j < n && UpdateHeard(steps, j) && forall k :: j < k < n ==> !steps[k].action.AdapterEvaluate?
    decreases n
  {
    if n > 0 {
      var m := n - 1;
      DueExactly(worlds, steps, config, m);
      assert Enabled(worlds[m], steps[m]) && worlds[m + 1] == Next(worlds[m], steps[m], config);
      if steps[m].action.AdapterReceive? {
        UpdateOnMessages(worlds, steps, config, m);
      }
    }
  }

  /** Between a message that changed what the adapter holds and the next message it takes, its
      evaluation runs. */
  lemma {:induction false} UpdatesEvaluated(worlds: seq<World>, steps: seq<Step>, config: Config, j: nat, n: nat)
    requires IsRun(worlds, steps, config) && j < n < |steps|
    requires UpdateHeard(steps, j) && steps[n].action.AdapterReceive?
    ensures exists k :: j < k < n && steps[k].action.AdapterEvaluate?
  {
    DueExactly(worlds, steps, config, n);
    assert Enabled(worlds[n], steps[n]);
  }

  // ----- The other parts of the state, told from the steps that own them -----

  predicate ConcernsPanel(step: Step)
  {
    step.action.HelloAccepted? || step.action.HeartbeatOk? || step.action.HeartbeatTimedOut?
  }

  /** A pause of the running executor, or a resume of the starting or paused one. */
  predicate MovesExecutor(w: World, step: Step)
  {
    step.action.ExecutorTries? &&
    if step.action.to == Paused then w.executor == Running else w.executor == Starting || w.executor == Paused
  }

  const TRANSITIONS: set<(WorkState, WorkState)> :=
    {(Stopped, Starting), (Starting, Running), (Starting, Failed), (Running, Paused), (Running, Completed),
     (Running, Failed), (Paused, Running), (Paused, Stopped), (Completed, Stopped), (Failed, Stopped),
     (Failed, Starting)}

  /** The executor's transitions: only a running one is paused, completes or, like a starting one, fails. */
  lemma {:induction false} ExecutorMovesExactly(w: World, to: WorkState, now: int)
    ensures Enabled(w, Step(ExecutorMoves(to), now)) <==> w.now <= now && (w.executor, to) in TRANSITIONS
  {}

  lemma {:induction false} PartsMove(w: World, step: Step, config: Config)
    requires Enabled(w, step) && Meaningful(w)
    ensures var w' := Next(w, step, config);
      && w'.state.panelOnline == (if ConcernsPanel(step) then !step.action.HeartbeatTimedOut? else w.state.panelOnline)
      && w'.state.telemetry == (if step.action.HeartbeatOk? then step.action.telemetry else w.state.telemetry)
      && w'.state.confirmationCount
         == (if step.action.PendingCounted? then step.action.pending else w.state.confirmationCount)
      && w'.state.workState == (if MovesExecutor(w, step) then step.action.to else w.state.workState)
      && w'.executor == (if MovesExecutor(w, step) || step.action.ExecutorMoves? then step.action.to else w.executor)
  {
    PanelSteps(w, step, config);
  }

  /** Each part of the state is what the last step of its kind made it: the panel is online after a hello
      or a heartbeat and not after a timeout, telemetry is the last heartbeat's, the count the last one
      taken, and the work state the target of the last pause or resume the executor allowed. */
  lemma {:induction false} LastStepTells(worlds: seq<World>, steps: seq<Step>, config: Config, k: nat, n: nat)
    requires IsRun(worlds, steps, config) && k < n < |worlds|
    ensures var s, a := worlds[n].state, steps[k].action;
      && (ConcernsPanel(steps[k]) && (forall j :: k < j < n ==> !ConcernsPanel(steps[j])) ==>
            s.panelOnline == !a.HeartbeatTimedOut?)
      && (a.HeartbeatOk? && (forall j :: k < j < n ==> !steps[j].action.HeartbeatOk?) ==> s.telemetry == a.telemetry)
      && (a.PendingCounted? && (forall j :: k < j < n ==> !steps[j].action.PendingCounted?) ==>
            s.confirmationCount == a.pending)
      && (MovesExecutor(worlds[k], steps[k]) && (forall j :: k < j < n ==> !MovesExecutor(worlds[j], steps[j])) ==>
            s.workState == a.to)
    decreases n
  {
    var m := n - 1;
    assert worlds[m + 1] == Next(worlds[m], steps[m], config);
    AlwaysMeaningful(worlds, steps, config, m);
    PartsMove(worlds[m], steps[m], config);
    if k < m {
      LastStepTells(worlds, steps, config, k, m);
    }
  }

  /** Before the first step of its kind each part is what the orchestrator starts with. */
  lemma {:induction false} NoStepTells(worlds: seq<World>, steps: seq<Step>, config: Config, n: nat)
    requires IsRun(worlds, steps, config) && n < |worlds|
    ensures var s := worlds[n].state;
      && ((forall j :: 0 <= j < n ==> !ConcernsPanel(steps[j])) ==> !s.panelOnline)
      && ((forall j :: 0 <= j < n ==> !steps[j].action.HeartbeatOk?) ==> s.telemetry == Telemetry(0, 0, 0, 0))
      && ((forall j :: 0 <= j < n ==> !steps[j].action.PendingCounted?) ==> s.confirmationCount == 0)
      && ((forall j :: 0 <= j < n ==> !MovesExecutor(worlds[j], steps[j])) ==> s.workState == Stopped)
      && ((forall j :: 0 <= j < n ==> !Evaluates(steps[j])) ==>
            s.mode == Idle && SensorError in s.attention && s.pressure == PressureState(false, None, 0))
    decreases n
  {
    if n > 0 {
      var m := n - 1;
      NoStepTells(worlds, steps, config, m);
      assert worlds[m + 1] == Next(worlds[m], steps[m], config);
      AlwaysMeaningful(worlds, steps, config, m);
      PartsMove(worlds[m], steps[m], config);
      PartsHaveOwners(worlds[m], steps[m], config);
    }
  }

  /** In every run a step raises the revision exactly when the panel's content changes or it counts what is
      pending, moves the executor or dismisses a notice; and what changes carries the step's time. */
  lemma {:induction false} RevisionTells(worlds: seq<World>, steps: seq<Step>, config: Config, n: nat)
    requires IsRun(worlds, steps, config) && n < |steps|
    ensures var s, s', a := worlds[n].state, worlds[n + 1].state, steps[n].action;
      && s'.revision == s.revision +
           (if ContentOf(s') != ContentOf(s) || a.PendingCounted? || a.NoticeDismissed?
               || MovesExecutor(worlds[n], steps[n])
            then 1 else 0)
      && (s' == s || s'.updatedAtMs == steps[n].now)
      && worlds[0].state.revision == 0
  {
    AlwaysMeaningful(worlds, steps, config, n);
    assert worlds[n + 1] == Next(worlds[n], steps[n], config);
    RevisionMoves(worlds[n], steps[n], config);
  }

  lemma {:induction false} RevisionMoves(w: World, step: Step, config: Config)
    requires Meaningful(w) && Enabled(w, step)
    ensures var s, s', a := w.state, Next(w, step, config).state, step.action;
      && s'.revision == s.revision +
           (if ContentOf(s') != ContentOf(s) || a.PendingCounted? || a.NoticeDismissed? || MovesExecutor(w, step)
            then 1 else 0)
      && (s' == s || s'.updatedAtMs == step.now)
  {
    PanelSteps(w, step, config);
    if Evaluates(step) {
      EvaluationShown(w, step, config);
    }
  }
}
