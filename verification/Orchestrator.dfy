/** The authoritative state and the steps that change it (models.py, orchestrator.py), composed with
    the pressure adapter and the gateway's panel tracking. */
module Orchestrator {
  import opened Prelude
  import opened StateMachine
  import opened PressureAdapter

  datatype WorkState = Stopped | Starting | Running | Paused | Completed | Failed

  datatype Flag =
    | NeedConfirm | SensorError | PanelOffline | BackendError | StorageWarning | AgentFailed | NetworkOffline

  /** The bits set in an AttentionFlag. */
  type Attention = set<Flag>

  datatype Telemetry = Telemetry(uptimeMs: int, errorFlags: int, appliedRevision: int, lastHeartbeatAtMs: int)

  datatype SystemState = SystemState(
    revision: nat, mode: Mode, attention: Attention, workState: WorkState, pressure: PressureState,
    panelOnline: bool, confirmationCount: nat, updatedAtMs: int, telemetry: Telemetry)

  /** What the panel is shown of a revision. */
  datatype Content = Content(mode: Mode, attention: Attention, workState: WorkState, confirmationCount: nat,
                             pressure: PressureState)

  function ContentOf(s: SystemState): Content
  {
    Content(s.mode, s.attention, s.workState, s.confirmationCount, s.pressure)
  }

  function InitialState(now: int): SystemState
  {
    SystemState(0, Idle, {SensorError}, Stopped, PressureState(false, None, 0), false, 0, now, Telemetry(0, 0, 0, 0))
  }

  /** evolve: the changed fields are already in place, the revision advances if asked to. */
  function Evolve(s: SystemState, bump: bool): SystemState
  {
    s.(revision := if bump then s.revision + 1 else s.revision)
  }

  function MergeAttention(current: Attention, sensorError: bool): Attention
  {
    (current - {SensorError}) + (if sensorError then {SensorError} else {})
  }

  /** The state after an evaluation: unchanged when nothing shown would change. */
  function ApplyDecision(s: SystemState, d: Decision, pressure: PressureState, now: int): SystemState
  {
    var attention := MergeAttention(s.attention, d.sensorError);
    if pressure == s.pressure && d.mode == s.mode && attention == s.attention then s
    else Evolve(s.(mode := d.mode, attention := attention, pressure := pressure, updatedAtMs := now), true)
  }

  function ApplyHeartbeat(s: SystemState, t: Telemetry, now: int): SystemState
  {
    Evolve(s.(panelOnline := true, attention := s.attention - {PanelOffline}, telemetry := t, updatedAtMs := now),
           false)
  }

  function ApplyConnectivity(s: SystemState, online: bool, now: int): SystemState
  {
    var attention := if online then s.attention - {PanelOffline} else s.attention + {PanelOffline};
    Evolve(s.(panelOnline := online, attention := attention, updatedAtMs := now), attention != s.attention)
  }

  /** What the gateway tells the orchestrator about the panel. */
  datatype PanelEvent = ConnectivityChanged(online: bool) | HeartbeatReceived(telemetry: Telemetry) | HeartbeatFailed

  function ApplyEvent(s: SystemState, e: PanelEvent, now: int): SystemState
  {
    match e
    case ConnectivityChanged(online) => ApplyConnectivity(s, online, now)
    case HeartbeatReceived(t) => ApplyHeartbeat(s, t, now)
    case HeartbeatFailed => s
  }

  function ApplyEvents(s: SystemState, events: seq<PanelEvent>, now: int): SystemState
    decreases |events|
  {
    if events == [] then s else ApplyEvents(ApplyEvent(s, events[0], now), events[1..], now)
  }

  /** The gateway announces the panel's coming or going once, when its own flag changes. */
  function Announce(seen: bool, online: bool): seq<PanelEvent>
  {
    if seen == online then [] else [ConnectivityChanged(online)]
  }

  function ApplyPendingCount(s: SystemState, pending: nat, now: int): SystemState
  {
    var attention := if pending > 0 then s.attention + {NeedConfirm} else s.attention - {NeedConfirm};
    Evolve(s.(confirmationCount := pending, attention := attention, updatedAtMs := now), true)
  }

  function ApplyWorkState(s: SystemState, w: WorkState, now: int): SystemState
  {
    Evolve(s.(workState := w, updatedAtMs := now), true)
  }

  function ApplyDismissal(s: SystemState, now: int): SystemState
  {
    Evolve(s.(updatedAtMs := now), true)
  }

  /** The executor's transitions. */
  predicate MayMove(from: WorkState, to: WorkState)
  {
    match from
    case Stopped => to == Starting
    case Starting => to == Running || to == Failed
    case Running => to == Paused || to == Completed || to == Failed
    case Paused => to == Running || to == Stopped
    case Completed => to == Stopped
    case Failed => to == Stopped || to == Starting
  }

  /** The gateway's view of the panel: its online flag and the revision last confirmed. */
  class PanelWatch {
    var panelOnline: bool
    var lastAppliedRevision: int

    constructor ()
      ensures !panelOnline && lastAppliedRevision == 0
    {
      panelOnline := false;
      lastAppliedRevision := 0;
    }

    method HelloAccepted() returns (events: seq<PanelEvent>)
      modifies this`panelOnline
      ensures panelOnline && events == Announce(old(panelOnline), true)
    {
      events := [];
      if !panelOnline {
        panelOnline := true;
        events := [ConnectivityChanged(true)];
      }
    }

    method HeartbeatAnswered(ok: bool, t: Telemetry) returns (events: seq<PanelEvent>)
      modifies this
      ensures ok ==> panelOnline && lastAppliedRevision == t.appliedRevision
      ensures ok ==> events == Announce(old(panelOnline), true) + [HeartbeatReceived(t)]
      ensures !ok ==> panelOnline == old(panelOnline) && lastAppliedRevision == old(lastAppliedRevision)
      ensures !ok ==> events == [HeartbeatFailed]
    {
      if !ok {
        return [HeartbeatFailed];
      }
      lastAppliedRevision := t.appliedRevision;
      events := [];
      if !panelOnline {
        panelOnline := true;
        events := [ConnectivityChanged(true)];
      }
      events := events + [HeartbeatReceived(t)];
    }

    method HeartbeatTimedOut() returns (events: seq<PanelEvent>)
      modifies this`panelOnline
      ensures !panelOnline && events == Announce(old(panelOnline), false)
    {
      events := [];
      if panelOnline {
        panelOnline := false;
        events := [ConnectivityChanged(false)];
      }
    }
  }

  class NightshiftOrchestrator {
    const machine: StateMachineV2
    var state: SystemState

    constructor (machine: StateMachineV2, now: int)
      ensures this.machine == machine && state == InitialState(now)
    {
      this.machine := machine;
      state := InitialState(now);
    }

    method EvaluateAndApply(pressure: PressureState, now: int) returns (changed: bool)
      modifies this, machine
      ensures var e := Evaluate(old(machine.allReleasedSinceMs), pressure, now, machine.dwellMs, machine.staleMs);
        && machine.allReleasedSinceMs == e.since
        && state == ApplyDecision(old(state), e.decision, pressure, now)
      ensures changed <==> ContentOf(state) != old(ContentOf(state))
    {
      var decision := machine.EvaluateNow(pressure, now);
      var attention := MergeAttention(state.attention, decision.sensorError);
      if pressure == state.pressure && decision.mode == state.mode && attention == state.attention {
        return false;
      }
      state := state.(revision := state.revision + 1, mode := decision.mode, attention := attention,
                      pressure := pressure, updatedAtMs := now);
      return true;
    }

    method OnHeartbeatReceived(t: Telemetry, now: int) returns (fullSync: bool)
      modifies this
      ensures state == ApplyHeartbeat(old(state), t, now) && fullSync == !old(state.panelOnline)
    {
      fullSync := !state.panelOnline;
      state := state.(panelOnline := true, attention := state.attention - {PanelOffline},
                      telemetry := t, updatedAtMs := now);
    }

    method OnConnectivityChanged(online: bool, now: int) returns (publish: bool)
      modifies this
      ensures state == ApplyConnectivity(old(state), online, now)
      ensures publish == (state.attention != old(state.attention))
    {
      var attention := state.attention;
      if online {
        attention := attention - {PanelOffline};
      } else {
        attention := attention + {PanelOffline};
      }
      publish := attention != state.attention;
      state := state.(revision := if publish then state.revision + 1 else state.revision,
                      panelOnline := online, attention := attention, updatedAtMs := now);
    }

    /** _on_event for the gateway's events; HeartbeatFailed changes nothing. */
    method OnEvent(e: PanelEvent, now: int)
      modifies this
      ensures state == ApplyEvent(old(state), e, now)
    {
      match e {
        case HeartbeatReceived(t) =>
          var fullSync := OnHeartbeatReceived(t, now);
        case ConnectivityChanged(online) =>
          var publish := OnConnectivityChanged(online, now);
        case HeartbeatFailed =>
      }
    }

    method UpdateConfirmationCount(pending: nat, now: int)
      modifies this
      ensures state == ApplyPendingCount(old(state), pending, now)
    {
      var attention := state.attention;
      if pending > 0 {
        attention := attention + {NeedConfirm};
      } else {
        attention := attention - {NeedConfirm};
      }
      state := state.(revision := state.revision + 1, confirmationCount := pending,
                      attention := attention, updatedAtMs := now);
    }
  }

  // ----- The composed system: one step per stretch of code between awaits -----

  /** evaluationDue: the adapter awaits on_updated and takes no message before its evaluation ran.
      panelSeen is the gateway's _panel_online. */
  datatype World = World(state: SystemState, since: Option<int>, adapter: Adapter, evaluationDue: bool,
                         panelSeen: bool, executor: WorkState, now: int)

  datatype Config = Config(dwellMs: int, staleMs: int)

  datatype Action =
    | AdapterReceive(message: Message)
    | AdapterEvaluate
    | TickEvaluate
    | HelloAccepted
    | HeartbeatOk(telemetry: Telemetry)
    | HeartbeatRefused
    | HeartbeatTimedOut
    | ExecutorTries(to: WorkState)
    | ExecutorMoves(to: WorkState)
    | PendingCounted(pending: nat)
    | NoticeDismissed

  datatype Step = Step(action: Action, now: int)

  function InitialWorld(now: int): World
  {
    World(InitialState(now), None, NewAdapter(), false, false, Stopped, now)
  }

  predicate Enabled(w: World, step: Step)
  {
    && w.now <= step.now
    && match step.action
       case AdapterReceive(_) => !w.evaluationDue
       case AdapterEvaluate => w.evaluationDue
       case ExecutorMoves(to) => MayMove(w.executor, to)
       case ExecutorTries(to) => to == Paused || to == Running
       case _ => true
  }

  function Decide(w: World, now: int, config: Config): Evaluation
  {
    Evaluate(w.since, w.adapter.pressure, now, config.dwellMs, config.staleMs)
  }

  function ApplyEvaluation(w: World, now: int, config: Config): World
  {
    var e := Decide(w, now, config);
    w.(since := e.since, state := ApplyDecision(w.state, e.decision, w.adapter.pressure, now), now := now)
  }

  /** The gateway sets its flag and emits the events; the orchestrator applies them at once. */
  function Track(w: World, online: bool, more: seq<PanelEvent>, now: int): World
  {
    w.(panelSeen := online, state := ApplyEvents(w.state, Announce(w.panelSeen, online) + more, now), now := now)
  }

  function Next(w: World, step: Step, config: Config): World
    requires Enabled(w, step)
  {
    var t := w.(now := step.now);
    match step.action
    case AdapterReceive(m) =>
      var r := Receive(w.adapter, m, step.now);
      t.(adapter := r.adapter, evaluationDue := r.updated)
    case AdapterEvaluate => ApplyEvaluation(w, step.now, config).(evaluationDue := false)
    case TickEvaluate => ApplyEvaluation(w, step.now, config)
    case HelloAccepted => Track(w, true, [], step.now)
    case HeartbeatOk(telemetry) => Track(w, true, [HeartbeatReceived(telemetry)], step.now)
    case HeartbeatRefused => Track(w, w.panelSeen, [HeartbeatFailed], step.now)
    case HeartbeatTimedOut => Track(w, false, [], step.now)
    case ExecutorTries(to) =>
      if MayMove(w.executor, to) then t.(executor := to, state := ApplyWorkState(w.state, to, step.now)) else t
    case ExecutorMoves(to) => t.(executor := to)
    case PendingCounted(pending) => t.(state := ApplyPendingCount(w.state, pending, step.now))
    case NoticeDismissed => t.(state := ApplyDismissal(w.state, step.now))
  }

  /** Every interleaving of the steps, with no regard to the orchestrator's lock. */
  ghost predicate IsRun(worlds: seq<World>, steps: seq<Step>, config: Config)
  {
    && |worlds| == |steps| + 1
    && worlds[0] == InitialWorld(worlds[0].now)
    && forall i :: 0 <= i < |steps| ==>
         Enabled(worlds[i], steps[i]) && worlds[i + 1] == Next(worlds[i], steps[i], config)
  }

  lemma {:induction false} OneEvent(s: SystemState, e: PanelEvent, now: int)
    ensures ApplyEvents(s, [e], now) == ApplyEvent(s, e, now)
  {}

  lemma {:induction false} TrackedState(w: World, online: bool, more: seq<PanelEvent>, now: int)
    ensures Track(w, online, more, now).state ==
      ApplyEvents(if w.panelSeen == online then w.state else ApplyConnectivity(w.state, online, now), more, now)
  {
    if w.panelSeen == online {
      assert [] + more == more;
    } else {
      assert ([ConnectivityChanged(online)] + more)[1..] == more;
    }
  }

  /** The steps that concern the panel, event by event. */
  lemma {:induction false} PanelSteps(w: World, step: Step, config: Config)
    requires Enabled(w, step)
    ensures var s, s' := w.state, Next(w, step, config).state;
      match step.action
      case HelloAccepted => s' == if w.panelSeen then s else ApplyConnectivity(s, true, step.now)
      case HeartbeatOk(t) =>
        s' == ApplyHeartbeat(if w.panelSeen then s else ApplyConnectivity(s, true, step.now), t, step.now)
      case HeartbeatRefused => s' == s
      case HeartbeatTimedOut => s' == if w.panelSeen then ApplyConnectivity(s, false, step.now) else s
      case _ => true
  {
    match step.action
    case HelloAccepted => TrackedState(w, true, [], step.now);
    case HeartbeatOk(t) =>
      TrackedState(w, true, [HeartbeatReceived(t)], step.now);
      OneEvent(if w.panelSeen then w.state else ApplyConnectivity(w.state, true, step.now), HeartbeatReceived(t),
               step.now);
    case HeartbeatRefused =>
      TrackedState(w, w.panelSeen, [HeartbeatFailed], step.now);
      OneEvent(w.state, HeartbeatFailed, step.now);
    case HeartbeatTimedOut => TrackedState(w, false, [], step.now);
    case _ =>
  }

  // ----- Attention bits -----

  ghost predicate Meaningful(w: World)
  {
    && (NeedConfirm in w.state.attention <==> w.state.confirmationCount > 0)
    && (SensorError in w.state.attention ==> w.state.mode == Idle)
    && (PanelOffline in w.state.attention ==> !w.state.panelOnline)
    && w.panelSeen == w.state.panelOnline
  }

  lemma {:induction false} EvaluationKeepsMeaningful(w: World, now: int, config: Config)
    requires Meaningful(w)
    ensures Meaningful(ApplyEvaluation(w, now, config))
  {}

  lemma {:induction false} PanelKeepsMeaningful(w: World, step: Step, config: Config)
    requires Meaningful(w) && Enabled(w, step)
    requires step.action.HelloAccepted? || step.action.HeartbeatOk? ||
             step.action.HeartbeatRefused? || step.action.HeartbeatTimedOut?
    ensures Meaningful(Next(w, step, config))
  {
    PanelSteps(w, step, config);
  }

  lemma {:induction false} NextKeepsMeaningful(w: World, step: Step, config: Config)
    requires Meaningful(w) && Enabled(w, step)
    ensures Meaningful(Next(w, step, config))
  {
    match step.action
    case AdapterEvaluate => EvaluationKeepsMeaningful(w, step.now, config);
    case TickEvaluate => EvaluationKeepsMeaningful(w, step.now, config);
    case HelloAccepted => PanelKeepsMeaningful(w, step, config);
    case HeartbeatOk(_) => PanelKeepsMeaningful(w, step, config);
    case HeartbeatRefused => PanelKeepsMeaningful(w, step, config);
    case HeartbeatTimedOut => PanelKeepsMeaningful(w, step, config);
    case _ =>
  }

  /** In every reachable state the attention bits mean what they say, and the gateway and the
      orchestrator agree on whether the panel is there. */
  lemma {:induction false} AlwaysMeaningful(worlds: seq<World>, steps: seq<Step>, config: Config, n: nat)
    requires IsRun(worlds, steps, config) && n < |worlds|
    ensures Meaningful(worlds[n])
    decreases n
  {
    if n > 0 {
      AlwaysMeaningful(worlds, steps, config, n - 1);
      assert worlds[n - 1 + 1] == Next(worlds[n - 1], steps[n - 1], config);
      NextKeepsMeaningful(worlds[n - 1], steps[n - 1], config);
    }
  }

  predicate Evaluates(step: Step)
  {
    step.action.AdapterEvaluate? || step.action.TickEvaluate?
  }

  /** After an evaluation the state shows the decision just taken and the pressure it was taken on,
      whether or not it was worth a new revision; every other bit is as it was. */
  lemma {:induction false} EvaluationShown(w: World, step: Step, config: Config)
    requires Enabled(w, step) && Evaluates(step)
    ensures var w' := Next(w, step, config);
      var d := Decide(w, step.now, config).decision;
      && w'.state.mode == d.mode && w'.state.pressure == w.adapter.pressure
      && (SensorError in w'.state.attention <==> d.sensorError)
      && w'.state.attention - {SensorError} == w.state.attention - {SensorError}
      && (w'.state.revision == w.state.revision <==> ContentOf(w'.state) == ContentOf(w.state))
  {}

  /** Between evaluations the state goes on showing the latest decision. */
  lemma {:induction false} LatestDecisionShown(worlds: seq<World>, steps: seq<Step>, config: Config, k: nat, n: nat)
    requires IsRun(worlds, steps, config) && k < n < |worlds|
    requires Evaluates(steps[k]) && forall j :: k < j < n ==> !Evaluates(steps[j])
    ensures var d := Decide(worlds[k], steps[k].now, config).decision;
      && worlds[n].state.mode == d.mode
      && (SensorError in worlds[n].state.attention <==> d.sensorError)
    decreases n
  {
    var w, step := worlds[n - 1], steps[n - 1];
    assert worlds[n - 1 + 1] == Next(w, step, config);
    if k == n - 1 {
      EvaluationShown(w, step, config);
    } else {
      LatestDecisionShown(worlds, steps, config, k, n - 1);
      PartsHaveOwners(w, step, config);
    }
  }

  /** Each part of the state has one kind of step that changes it. */
  lemma {:induction false} PartsHaveOwners(w: World, step: Step, config: Config)
    requires Enabled(w, step)
    ensures var s, s' := w.state, Next(w, step, config).state;
      && (!Evaluates(step) ==>
            && s'.mode == s.mode && s'.pressure == s.pressure
            && (SensorError in s'.attention <==> SensorError in s.attention))
      && (!step.action.PendingCounted? ==>
            && s'.confirmationCount == s.confirmationCount
            && (NeedConfirm in s'.attention <==> NeedConfirm in s.attention))
      && (step.action.PendingCounted? ==> s'.confirmationCount == step.action.pending)
      && (!step.action.ExecutorTries? ==> s'.workState == s.workState)
      && (!step.action.HelloAccepted? && !step.action.HeartbeatOk? && !step.action.HeartbeatTimedOut? ==>
            s'.panelOnline == s.panelOnline && (PanelOffline in s'.attention <==> PanelOffline in s.attention))
      && s'.attention - {SensorError, NeedConfirm, PanelOffline}
         == s.attention - {SensorError, NeedConfirm, PanelOffline}
  {
    PanelSteps(w, step, config);
  }

  /** PANEL_OFFLINE is shown exactly while a panel that was once there is gone. */
  lemma {:induction false} PanelOfflineExactly(worlds: seq<World>, steps: seq<Step>, config: Config, n: nat)
    requires IsRun(worlds, steps, config) && n < |worlds|
    ensures PanelOffline in worlds[n].state.attention
       <==> !worlds[n].state.panelOnline && exists i :: 0 <= i <= n && worlds[i].state.panelOnline
    decreases n
  {
    if n > 0 {
      PanelOfflineExactly(worlds, steps, config, n - 1);
      AlwaysMeaningful(worlds, steps, config, n - 1);
      PanelStep(worlds[n - 1], steps[n - 1], config);
      assert worlds[n - 1 + 1] == Next(worlds[n - 1], steps[n - 1], config);
    }
  }

  lemma {:induction false} PanelStep(w: World, step: Step, config: Config)
    requires Meaningful(w) && Enabled(w, step)
    ensures var s, s' := w.state, Next(w, step, config).state;
      && (s'.panelOnline ==> PanelOffline !in s'.attention)
      && (!s'.panelOnline ==> (PanelOffline in s'.attention <==> s.panelOnline || PanelOffline in s.attention))
  {
    PanelSteps(w, step, config);
  }

  // ----- Revisions -----

  /** At most one revision later, and one later whenever the content differs. */
  predicate Revises(s: SystemState, s': SystemState)
  {
    && s.revision <= s'.revision <= s.revision + 1
    && (s'.revision == s.revision ==> ContentOf(s') == ContentOf(s))
  }

  lemma {:induction false} ConnectivityRevises(s: SystemState, online: bool, now: int)
    ensures Revises(s, ApplyConnectivity(s, online, now))
    ensures online ==> PanelOffline !in ApplyConnectivity(s, online, now).attention
  {}

  lemma {:induction false} NextRevises(w: World, step: Step, config: Config)
    requires Meaningful(w) && Enabled(w, step)
    ensures Revises(w.state, Next(w, step, config).state)
  {
    PanelSteps(w, step, config);
    ConnectivityRevises(w.state, true, step.now);
    ConnectivityRevises(w.state, false, step.now);
    match step.action
    case HeartbeatOk(t) =>
      HeartbeatKeepsContent(if w.panelSeen then w.state else ApplyConnectivity(w.state, true, step.now), t, step.now);
    case _ =>
  }

  lemma {:induction false} StepRevises(worlds: seq<World>, steps: seq<Step>, config: Config, n: nat)
    requires IsRun(worlds, steps, config) && n < |steps|
    ensures Revises(worlds[n].state, worlds[n + 1].state)
  {
    AlwaysMeaningful(worlds, steps, config, n);
    NextRevises(worlds[n], steps[n], config);
  }

  lemma {:induction false} RevisionsChain(worlds: seq<World>, i: nat, j: nat)
    requires i <= j < |worlds|
    requires forall k: nat :: k + 1 < |worlds| ==> Revises(worlds[k].state, worlds[k + 1].state)
    ensures worlds[i].state.revision <= worlds[j].state.revision <= worlds[i].state.revision + (j - i)
    ensures worlds[i].state.revision == worlds[j].state.revision ==>
      ContentOf(worlds[i].state) == ContentOf(worlds[j].state)
    decreases j
  {
    if i < j {
      RevisionsChain(worlds, i, j - 1);
      var k: nat := j - 1;
      assert Revises(worlds[k].state, worlds[k + 1].state);
    }
  }

  /** Revisions never go back, rise by at most one per step, and a revision has one content: any two
      states of a run with the same revision show the panel the same thing. */
  lemma {:induction false} SameRevisionSameContent(worlds: seq<World>, steps: seq<Step>, config: Config, i: nat, j: nat)
    requires IsRun(worlds, steps, config) && i <= j < |worlds|
    ensures worlds[i].state.revision <= worlds[j].state.revision <= worlds[i].state.revision + (j - i)
    ensures worlds[i].state.revision == worlds[j].state.revision ==>
      ContentOf(worlds[i].state) == ContentOf(worlds[j].state)
  {
    forall k: nat | k + 1 < |worlds|
      ensures Revises(worlds[k].state, worlds[k + 1].state)
    {
      StepRevises(worlds, steps, config, k);
    }
    RevisionsChain(worlds, i, j);
  }

  /** On its own the orchestrator does not keep that promise: a heartbeat changes the content of a
      revision exactly when PANEL_OFFLINE is still set, which the gateway's preceding
      connectivity event rules out. */
  lemma {:induction false} HeartbeatKeepsContent(s: SystemState, t: Telemetry, now: int)
    ensures ApplyHeartbeat(s, t, now).revision == s.revision
    ensures ContentOf(ApplyHeartbeat(s, t, now)) == ContentOf(s) <==> PanelOffline !in s.attention
  {}

  // ----- No press is lost to the dwell -----

  /** The step takes a new sample. */
  predicate Accepts(w: World, step: Step)
  {
    step.action.AdapterReceive? && step.action.message.Sampled?
    && step.action.message.reading.seqNo > SeqFloor(w.adapter, step.action.message.reading.bootId)
  }

  predicate AcceptsPress(w: World, step: Step)
  {
    Accepts(w, step) && step.action.message.reading.Pressed()
  }

  predicate SeesRelease(w: World, step: Step, config: Config)
  {
    w.adapter.pressure.Released(step.now, config.staleMs)
  }

  /** The dwell run now being timed began with the evaluation of step k. */
  ghost predicate TimedFrom(worlds: seq<World>, steps: seq<Step>, config: Config, k: nat, n: nat)
    requires |worlds| == |steps| + 1 && n < |worlds|
  {
    && k < n && Evaluates(steps[k])
    && worlds[n].since == Some(steps[k].now)
    && (forall j :: k <= j < n && Evaluates(steps[j]) ==> SeesRelease(worlds[j], steps[j], config))
    && (forall j :: k < j < n && AcceptsPress(worlds[j], steps[j]) ==>
          && worlds[n].evaluationDue
          && worlds[n].adapter.pressure.lastSample.Some?
          && worlds[n].adapter.pressure.lastSample.value.reading.Pressed())
  }

  lemma {:induction false} EvaluationTimes(w: World, step: Step, config: Config)
    requires Enabled(w, step)
    ensures var w' := Next(w, step, config);
      && (!Evaluates(step) ==> w'.since == w.since)
      && (Evaluates(step) && !SeesRelease(w, step, config) ==> w'.since == None)
      && (Evaluates(step) && SeesRelease(w, step, config) ==>
            w'.since == if w.since.Some? then w.since else Some(step.now))
      && (Evaluates(step) ==> w'.adapter == w.adapter)
  {}

  lemma {:induction false} AdapterWaits(w: World, step: Step, config: Config)
    requires Enabled(w, step) && !Evaluates(step)
    ensures var w' := Next(w, step, config);
      && (w.evaluationDue ==> w'.evaluationDue && w'.adapter == w.adapter)
      && (AcceptsPress(w, step) ==>
            && !w.evaluationDue && w'.evaluationDue
            && w'.adapter.pressure.lastSample == Some(Sample(step.action.message.reading, step.now)))
  {}

  lemma {:induction false} TimerTracksRun(worlds: seq<World>, steps: seq<Step>, config: Config, n: nat) returns (k: nat)
    requires IsRun(worlds, steps, config) && n < |worlds|
    ensures worlds[n].since.Some? ==> TimedFrom(worlds, steps, config, k, n)
    decreases n
  {
    k := 0;
    if n > 0 {
      var m := n - 1;
      k := TimerTracksRun(worlds, steps, config, m);
      assert worlds[m + 1] == Next(worlds[m], steps[m], config);
      if !Evaluates(steps[m]) {
        ReceiveKeepsTimer(worlds, steps, config, k, m);
      } else {
        if worlds[m].since.None? {
          k := m;
        }
        EvaluationKeepsTimer(worlds, steps, config, k, m);
      }
    }
  }

  lemma {:induction false} ReceiveKeepsTimer(worlds: seq<World>, steps: seq<Step>, config: Config, k: nat, m: nat)
    requires IsRun(worlds, steps, config) && m < |steps| && !Evaluates(steps[m])
    requires worlds[m].since.Some? ==> TimedFrom(worlds, steps, config, k, m)
    ensures worlds[m + 1].since.Some? ==> TimedFrom(worlds, steps, config, k, m + 1)
  {
    EvaluationTimes(worlds[m], steps[m], config);
    AdapterWaits(worlds[m], steps[m], config);
  }

  lemma {:induction false} EvaluationKeepsTimer(worlds: seq<World>, steps: seq<Step>, config: Config, k: nat, m: nat)
    requires IsRun(worlds, steps, config) && m < |steps| && Evaluates(steps[m])
    requires if worlds[m].since.Some? then TimedFrom(worlds, steps, config, k, m) else k == m
    ensures worlds[m + 1].since.Some? ==> TimedFrom(worlds, steps, config, k, m + 1)
  {
    EvaluationTimes(worlds[m], steps[m], config);
  }

  /** Steps k to n span the dwell, and between them nothing but releases was evaluated or accepted. */
  ghost predicate PressFree(worlds: seq<World>, steps: seq<Step>, config: Config, k: nat, n: nat)
    requires |worlds| == |steps| + 1 && n < |steps|
  {
    && k <= n && Evaluates(steps[k]) && steps[n].now - steps[k].now >= config.dwellMs
    && (forall j :: k <= j <= n && Evaluates(steps[j]) ==> SeesRelease(worlds[j], steps[j], config))
    && (forall j :: k < j <= n ==> !AcceptsPress(worlds[j], steps[j]))
  }

  /** When an evaluation ends with NIGHT_EXEC there was an evaluation at least the dwell earlier such
      that every evaluation from it on was valid and all-released, and no sample accepted since it
      had cushion or footrest set. */
  lemma {:induction false} NoPressLost(worlds: seq<World>, steps: seq<Step>, config: Config, n: nat)
    requires IsRun(worlds, steps, config) && n < |steps|
    requires Evaluates(steps[n]) && worlds[n + 1].state.mode == NightExec
    ensures exists k: nat :: PressFree(worlds, steps, config, k, n)
  {
    assert worlds[n + 1] == Next(worlds[n], steps[n], config);
    EvaluationShown(worlds[n], steps[n], config);
    EvaluationTimes(worlds[n], steps[n], config);
    var k := TimerTracksRun(worlds, steps, config, n);
    if worlds[n].since.None? {
      k := n;
    }
    assert SeesRelease(worlds[n], steps[n], config);
    assert PressFree(worlds, steps, config, k, n);
  }

  /** The adapter's waiting is what makes this true: had it taken a press and the next release before
      an evaluation ran, the timer would run through the press to NIGHT_EXEC. */
  lemma {:induction false} UnevaluatedPressIsLost(boot: string, config: Config)
    requires 4 <= config.dwellMs <= config.staleMs
    ensures var online := Receive(NewAdapter(), Availability(true, None), 0).adapter;
      var held := Receive(online, Sampled(Reading(boot, 0, false, false, 0)), 0).adapter;
      var pressed := Receive(held, Sampled(Reading(boot, 1, true, false, 0)), 1);
      var released := Receive(pressed.adapter, Sampled(Reading(boot, 2, false, false, 0)), 2);
      var first := Evaluate(None, held.pressure, 0, config.dwellMs, config.staleMs);
      && pressed.updated && released.updated
      && Evaluate(first.since, released.adapter.pressure, config.dwellMs, config.dwellMs, config.staleMs).decision.mode
         == NightExec
      && Evaluate(first.since, pressed.adapter.pressure, 1, config.dwellMs, config.staleMs).since == None
  {}
}
