/** Pressure samples and the dwell timer that turns them into modes (pressure.py, state_machine.py). */
module StateMachine {
  import opened Prelude

  /** What the sensor put into a sample; the codec admits no negative sequence number. */
  datatype Reading = Reading(bootId: string, seqNo: nat, cushion: bool, footrest: bool, uptimeMs: nat)
  {
    predicate Pressed()
    {
      cushion || footrest
    }
  }

  datatype Sample = Sample(reading: Reading, receivedAtMs: int)

  datatype PressureState = PressureState(online: bool, lastSample: Option<Sample>, updatedAtMs: int)
  {
    predicate IsValid(now: int, staleMs: int)
    {
      online && lastSample.Some? && now - lastSample.value.receivedAtMs <= staleMs
    }

    predicate Released(now: int, staleMs: int)
    {
      IsValid(now, staleMs) && !lastSample.value.reading.Pressed()
    }
  }

  datatype Mode = Idle | DayWork | NightExec

  datatype Decision = Decision(mode: Mode, reason: string, sensorError: bool)

  datatype Evaluation = Evaluation(since: Option<int>, decision: Decision)

  /** One call of evaluate, given when the current all-released run began. */
  function Evaluate(since: Option<int>, p: PressureState, now: int, dwellMs: int, staleMs: int): Evaluation
  {
    if !p.IsValid(now, staleMs) then
      Evaluation(None, Decision(Idle, if !p.online then "pressure_offline" else "pressure_stale", true))
    else if p.lastSample.value.reading.cushion then
      Evaluation(None, Decision(DayWork, "cushion_pressed", false))
    else if p.lastSample.value.reading.footrest then
      Evaluation(None, Decision(DayWork, "footrest_pressed", false))
    else
      var began := if since.None? then now else since.value;
      if now - began >= dwellMs then
        Evaluation(Some(began), Decision(NightExec, "all_released_dwell", false))
      else
        Evaluation(Some(began), Decision(Idle, "all_released_pending_dwell", false))
  }

  class StateMachineV2 {
    const dwellMs: int
    const staleMs: int
    var allReleasedSinceMs: Option<int>

    constructor (dwellMs: int, staleMs: int)
      ensures allReleasedSinceMs == None && this.dwellMs == dwellMs && this.staleMs == staleMs
    {
      this.dwellMs := dwellMs;
      this.staleMs := staleMs;
      allReleasedSinceMs := None;
    }

    method EvaluateNow(p: PressureState, now: int) returns (d: Decision)
      modifies this
      ensures Evaluation(allReleasedSinceMs, d) == Evaluate(old(allReleasedSinceMs), p, now, dwellMs, staleMs)
    {
      if !p.IsValid(now, staleMs) {
        allReleasedSinceMs := None;
        return Decision(Idle, if !p.online then "pressure_offline" else "pressure_stale", true);
      }
      var reading := p.lastSample.value.reading;
      if reading.cushion {
        allReleasedSinceMs := None;
        return Decision(DayWork, "cushion_pressed", false);
      }
      if reading.footrest {
        allReleasedSinceMs := None;
        return Decision(DayWork, "footrest_pressed", false);
      }
      if allReleasedSinceMs == None {
        allReleasedSinceMs := Some(now);
      }
      var heldMs := now - allReleasedSinceMs.value;
      if heldMs >= dwellMs {
        return Decision(NightExec, "all_released_dwell", false);
      }
      return Decision(Idle, "all_released_pending_dwell", false);
    }

    method Reset()
      modifies this
      ensures allReleasedSinceMs == None
    {
      allReleasedSinceMs := None;
    }
  }

  // ----- Whole traces of calls -----

  datatype Call = Call(pressure: PressureState, now: int)

  predicate ReleasedCall(c: Call, staleMs: int)
  {
    c.pressure.Released(c.now, staleMs)
  }

  function SinceAfter(calls: seq<Call>, dwellMs: int, staleMs: int): Option<int>
    decreases |calls|
  {
    if calls == [] then None
    else
      var n := |calls| - 1;
      Evaluate(SinceAfter(calls[..n], dwellMs, staleMs), calls[n].pressure, calls[n].now, dwellMs, staleMs).since
  }

  /** The decision of call n of a trace. */
  function DecisionAt(calls: seq<Call>, n: nat, dwellMs: int, staleMs: int): Decision
    requires n < |calls|
  {
    Evaluate(SinceAfter(calls[..n], dwellMs, staleMs), calls[n].pressure, calls[n].now, dwellMs, staleMs).decision
  }

  ghost predicate ClockRuns(calls: seq<Call>)
  {
    forall i, j :: 0 <= i < j < |calls| ==> calls[i].now <= calls[j].now
  }

  /** Calls k to n are all valid and all-released. */
  ghost predicate ReleasedThrough(calls: seq<Call>, k: nat, n: nat, staleMs: int)
    requires n < |calls|
  {
    forall j :: k <= j <= n ==> ReleasedCall(calls[j], staleMs)
  }

  /** The timer holds the time of the first call of the current all-released run. */
  lemma {:induction false} SinceIsRunStart(calls: seq<Call>, dwellMs: int, staleMs: int) returns (k: nat)
    ensures k <= |calls| && forall j :: k <= j < |calls| ==> ReleasedCall(calls[j], staleMs)
    ensures k > 0 ==> !ReleasedCall(calls[k - 1], staleMs)
    ensures SinceAfter(calls, dwellMs, staleMs) == if k == |calls| then None else Some(calls[k].now)
    decreases |calls|
  {
    if calls == [] {
      k := 0;
    } else {
      var n := |calls| - 1;
      k := SinceIsRunStart(calls[..n], dwellMs, staleMs);
      if !ReleasedCall(calls[n], staleMs) {
        k := n + 1;
      }
    }
  }

  lemma {:induction false} RunStartsFirst(calls: seq<Call>, start: nat, k: nat, n: nat, staleMs: int)
    requires start <= n < |calls| && k <= n && ReleasedThrough(calls, k, n, staleMs)
    requires start > 0 ==> !ReleasedCall(calls[start - 1], staleMs)
    ensures start <= k
  {}

  lemma {:induction false} LaterIsAfter(calls: seq<Call>, k: nat, n: nat)
    requires ClockRuns(calls) && k < |calls| && n < |calls| && calls[k].now < calls[n].now
    ensures k < n
  {}

  /** The device is online and its last sample no older than the limit. */
  predicate SampleCounts(p: PressureState, now: int, staleMs: int)
  {
    p.online && p.lastSample.Some? && now - p.lastSample.value.receivedAtMs <= staleMs
  }

  predicate SampleReleased(p: PressureState)
    requires p.lastSample.Some?
  {
    !p.lastSample.value.reading.cushion && !p.lastSample.value.reading.footrest
  }

  /** What one decision says of the pressure it was taken on: the sensor error, and only in IDLE, exactly
      without a sample that counts; DAY_WORK exactly on one with an input set; and why. */
  ghost predicate DecisionTells(d: Decision, p: PressureState, now: int, staleMs: int)
  {
    && (d.sensorError <==> !SampleCounts(p, now, staleMs))
    && (d.mode == DayWork <==> SampleCounts(p, now, staleMs) && !SampleReleased(p))
    && (d.sensorError ==> d.mode == Idle && d.reason == if p.online then "pressure_stale" else "pressure_offline")
    && (d.mode == DayWork ==>
          d.reason == if p.lastSample.value.reading.cushion then "cushion_pressed" else "footrest_pressed")
    && (d.mode == NightExec ==> d.reason == "all_released_dwell")
    && (d.mode == Idle && !d.sensorError ==> d.reason == "all_released_pending_dwell")
  }

  /** Calls k to n all had a sample that counted and no input set. */
  ghost predicate ReleasedCalls(calls: seq<Call>, k: nat, n: nat, staleMs: int)
    requires n < |calls|
  {
    forall j :: k <= j <= n ==>
      SampleCounts(calls[j].pressure, calls[j].now, staleMs) && SampleReleased(calls[j].pressure)
  }

  /** Call n decides NIGHT_EXEC exactly when some call k, not later, opens a stretch of valid
      all-released calls up to n that spans the dwell; and what else a decision tells. */
  lemma {:induction false} NightExactly(calls: seq<Call>, n: nat, dwellMs: int, staleMs: int)
    requires ClockRuns(calls) && n < |calls|
    ensures DecisionAt(calls, n, dwellMs, staleMs).mode == NightExec
       <==> exists k: nat :: k <= n && ReleasedCalls(calls, k, n, staleMs) && calls[n].now - calls[k].now >= dwellMs
    ensures DecisionTells(DecisionAt(calls, n, dwellMs, staleMs), calls[n].pressure, calls[n].now, staleMs)
  {
    NightByRelease(calls, n, dwellMs, staleMs);
    assert forall k: nat :: k <= n ==> (ReleasedThrough(calls, k, n, staleMs) <==> ReleasedCalls(calls, k, n, staleMs));
  }

  lemma {:induction false} NightByRelease(calls: seq<Call>, n: nat, dwellMs: int, staleMs: int)
    requires ClockRuns(calls) && n < |calls|
    ensures DecisionAt(calls, n, dwellMs, staleMs).mode == NightExec
       <==> exists k: nat :: k <= n && ReleasedThrough(calls, k, n, staleMs) && calls[n].now - calls[k].now >= dwellMs
  {
    var start := SinceIsRunStart(calls[..n], dwellMs, staleMs);
    if ReleasedCall(calls[n], staleMs) {
      assert ReleasedThrough(calls, start, n, staleMs);
      forall k: nat | k <= n && ReleasedThrough(calls, k, n, staleMs)
        ensures calls[start].now <= calls[k].now
      {
        RunStartsFirst(calls, start, k, n, staleMs);
      }
    } else {
      assert forall k: nat :: k <= n ==> !ReleasedThrough(calls, k, n, staleMs);
    }
  }

  // ----- How long a release must last to be noticed -----

  /** Calls come at most gap milliseconds apart. */
  ghost predicate AtMostApart(calls: seq<Call>, gap: int)
  {
    forall i :: 0 < i < |calls| ==> calls[i].now - calls[i - 1].now <= gap
  }

  /** The first call at or after a time. */
  lemma {:induction false} FirstCallFrom(calls: seq<Call>, time: int, i: nat) returns (k: nat)
    requires i < |calls| && calls[i].now >= time
    ensures k <= i && calls[k].now >= time && forall j :: 0 <= j < k ==> calls[j].now < time
    decreases i
  {
    if i > 0 && forall j :: 0 <= j < i ==> calls[j].now < time {
      k := i;
    } else if i == 0 {
      k := 0;
    } else {
      var j :| 0 <= j < i && calls[j].now >= time;
      k := FirstCallFrom(calls, time, j);
    }
  }

  /** A release that lasts from one time to another, with calls before and after it. */
  ghost predicate ReleaseWithin(calls: seq<Call>, from: int, to: int, staleMs: int)
  {
    && |calls| >= 2 && calls[0].now < from && calls[|calls| - 1].now > to
    && forall j :: 0 <= j < |calls| && from <= calls[j].now <= to ==> ReleasedCall(calls[j], staleMs)
  }

  ghost predicate Noticed(calls: seq<Call>, from: int, to: int, dwellMs: int, staleMs: int)
  {
    exists n :: 0 <= n < |calls| && from <= calls[n].now <= to &&
                DecisionAt(calls, n, dwellMs, staleMs).mode == NightExec
  }

  /** The least number of milliseconds a release must last to be noticed whenever it comes. */
  function NoticeBound(gap: int, dwellMs: int): int
  {
    if dwellMs > 0 then dwellMs + 2 * gap - 2 else gap - 1
  }

  /** With calls at most gap apart, every release that long is noticed before it ends. */
  lemma {:induction false} LongReleaseNoticed(calls: seq<Call>, from: int, to: int, gap: int, dwellMs: int,
                                              staleMs: int)
    requires ClockRuns(calls) && AtMostApart(calls, gap) && gap > 0
    requires ReleaseWithin(calls, from, to, staleMs) && to - from >= NoticeBound(gap, dwellMs)
    ensures Noticed(calls, from, to, dwellMs, staleMs)
  {
    var k := FirstCallFrom(calls, from, |calls| - 1);
    assert calls[k - 1].now < from;
    assert calls[k].now <= from - 1 + gap;
    var n := k;
    if dwellMs > 0 {
      n := FirstCallFrom(calls, calls[k].now + dwellMs, |calls| - 1);
      LaterIsAfter(calls, k, n);
      assert calls[n - 1].now < calls[k].now + dwellMs;
    }
    assert calls[n].now <= to;
    forall j | k <= j <= n
      ensures ReleasedCall(calls[j], staleMs)
    {
      assert from <= calls[j].now <= to;
    }
    NightByRelease(calls, n, dwellMs, staleMs);
    assert ReleasedThrough(calls, k, n, staleMs);
  }

  function PressureAt(time: int, pressed: bool): PressureState
  {
    PressureState(true, Some(Sample(Reading("b", 0, pressed, false, 0), time)), time)
  }

  /** The times of calls just before, late into, throughout, and just after a release that is one
      millisecond too short; only before and after it where there is no dwell. */
  function UnluckyTime(i: int, from: int, gap: int, dwellMs: int): int
  {
    if i == 0 then from - 1
    else if i <= dwellMs then from - 2 + gap + i
    else from + NoticeBound(gap, dwellMs)
  }

  function UnluckyCall(i: int, from: int, gap: int, dwellMs: int): Call
  {
    var now := UnluckyTime(i, from, gap, dwellMs);
    Call(PressureAt(now, i == 0 || i > dwellMs), now)
  }

  function UnluckyCalls(from: int, gap: int, dwellMs: int): (calls: seq<Call>)
    ensures |calls| == (if dwellMs > 0 then dwellMs else 0) + 2
    ensures forall i :: 0 <= i < |calls| ==> calls[i] == UnluckyCall(i, from, gap, dwellMs)
  {
    seq((if dwellMs > 0 then dwellMs else 0) + 2, i => UnluckyCall(i, from, gap, dwellMs))
  }

  lemma {:induction false} UnluckyTrace(from: int, to: int, gap: int, dwellMs: int, staleMs: int)
    requires gap > 0 && staleMs >= 0 && to - from < NoticeBound(gap, dwellMs)
    ensures var calls := UnluckyCalls(from, gap, dwellMs);
      && ClockRuns(calls) && AtMostApart(calls, gap)
      && ReleaseWithin(calls, from, to, staleMs)
      && !ReleasedCall(calls[0], staleMs)
  {}

  /** Every shorter release can go unnoticed. */
  lemma {:induction false} ShorterReleaseMissed(from: int, to: int, gap: int, dwellMs: int, staleMs: int)
    requires gap > 0 && staleMs >= 0 && to - from < NoticeBound(gap, dwellMs)
    ensures var calls := UnluckyCalls(from, gap, dwellMs);
      && ClockRuns(calls) && AtMostApart(calls, gap)
      && ReleaseWithin(calls, from, to, staleMs)
      && !Noticed(calls, from, to, dwellMs, staleMs)
  {
    var calls := UnluckyCalls(from, gap, dwellMs);
    UnluckyTrace(from, to, gap, dwellMs, staleMs);
    forall n | 0 <= n < |calls| && from <= calls[n].now <= to
      ensures DecisionAt(calls, n, dwellMs, staleMs).mode != NightExec
    {
      NightByRelease(calls, n, dwellMs, staleMs);
      forall k: nat | k <= n && ReleasedThrough(calls, k, n, staleMs)
        ensures calls[n].now - calls[k].now < dwellMs
      {
        assert k > 0 && n <= dwellMs;
      }
    }
  }

  /** However calls at most gap apart fall, a release of this length is noticed before it ends. */
  ghost predicate AlwaysNoticed(length: int, gap: int, dwellMs: int, staleMs: int)
  {
    forall calls, from, to ::
      ClockRuns(calls) && AtMostApart(calls, gap) && to - from == length && ReleaseWithin(calls, from, to, staleMs) ==>
        Noticed(calls, from, to, dwellMs, staleMs)
  }

  /** The lengths of release that are always noticed; dwell + gap is among them only for gaps of one
      and two milliseconds. */
  lemma {:induction false} NoticedExactly(length: int, gap: int, dwellMs: int, staleMs: int)
    requires gap > 0 && staleMs >= 0
    ensures AlwaysNoticed(length, gap, dwellMs, staleMs) <==> length >= NoticeBound(gap, dwellMs)
    ensures dwellMs > 0 && length == dwellMs + gap ==> (AlwaysNoticed(length, gap, dwellMs, staleMs) <==> gap <= 2)
  {
    if length >= NoticeBound(gap, dwellMs) {
      forall calls, from, to | ClockRuns(calls) && AtMostApart(calls, gap) && to - from == length
                               && ReleaseWithin(calls, from, to, staleMs)
        ensures Noticed(calls, from, to, dwellMs, staleMs)
      {
        LongReleaseNoticed(calls, from, to, gap, dwellMs, staleMs);
      }
    } else {
      ShorterReleaseMissed(0, length, gap, dwellMs, staleMs);
    }
  }
}
