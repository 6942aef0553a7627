/** Dispatch of received frames: session changes and UI actions (gateway.py). */
module Gateway {
  import opened Prelude
  import opened Protocol
  import opened Session
  import Deframer
  import Wire

  predicate AckRequested(f: Frame) { f.flags % 2 == 1 }

  predicate IsResponse(f: Frame) { f.flags / 2 % 2 == 1 }

  const RESPONSE := 2

  /** What the UI action handler does; a gateway without a handler answers (NOT_READY, []). A handler's
      exception leaves _handle_ui_action: the log call that reports it raises as well. */
  datatype Answer = Answer(status: int, reply: bytes) | Raises

  datatype Arrival = Arrival(frame: Frame, answer: Answer)

  /** What one dispatch did. */
  datatype Report =
    | Ignored
    | Refused(status: int)
    | SessionStarted(bootId: int)
    | SessionKept
    | Executed(key: Key, entry: Entry)
    | HandlerRaised(key: Key)
    | Replayed(key: Key, entry: Entry)
    | Conflicted(key: Key)
    | Busy(key: Key)

  datatype Step = Step(session: State, report: Report, ack: Option<Frame>)

  /** _send_ack: nothing is sent when the status or the data do not fit a frame. */
  function AckFor(f: Frame, status: int, data: bytes): Option<Frame>
  {
    if !Fits16(status) then None
    else
      var ack := Frame(f.version, RESPONSE, f.sequence, f.command, Le16(status) + data);
      if ack.Raw().Ok? then Some(ack) else None
  }

  function AckIfRequested(f: Frame, status: int, data: bytes): Option<Frame>
  {
    if AckRequested(f) then AckFor(f, status, data) else None
  }

  function HandleUiAction(s: State, f: Frame, answer: Answer, digest: bytes -> string, limit: nat): Step
    requires limit > 0
  {
    if ParseUiAction(f.payload).Err? then Step(s, Refused(INVALID_LENGTH), AckIfRequested(f, INVALID_LENGTH, []))
    else match s.bootId
      case None => Step(s, Refused(NOT_READY), AckIfRequested(f, NOT_READY, []))
      case Some(boot) =>
        var key := Key(boot, f.sequence, f.command);
        var summary := digest(f.payload);
        var (checked, disposition) := Check(s, boot, f.sequence, f.command, summary);
        match disposition
        case Replay(status, reply) =>
          Step(checked, Replayed(key, Entry(summary, status, reply)), AckIfRequested(f, status, reply))
        case Conflict => Step(checked, Conflicted(key), AckIfRequested(f, STATE_CONFLICT, []))
        case InFlight => Step(checked, Busy(key), AckIfRequested(f, BUSY, []))
        case _ =>
          match answer
          case Raises => Step(checked, HandlerRaised(key), None)
          case Answer(status, reply) =>
            var entry := Entry(summary, status, reply);
            Step(Record(checked, key, entry, limit), Executed(key, entry), AckIfRequested(f, status, reply))
  }

  function Dispatch(s: State, a: Arrival, digest: bytes -> string, limit: nat): Step
    requires limit > 0
  {
    var f := a.frame;
    if IsResponse(f) then Step(s, Ignored, None)
    else if f.command == HELLO then
      match ParseHello(f.payload)
      case Err(_) => Step(s, Refused(INVALID_ARGUMENT), AckFor(f, INVALID_ARGUMENT, []))
      case Ok(hello) =>
        if s.bootId == Some(hello.bootId) then Step(s, SessionKept, AckFor(f, OK, []))
        else Step(Reset(hello.bootId), SessionStarted(hello.bootId), AckFor(f, OK, []))
    else if f.command == UI_ACTION then HandleUiAction(s, f, a.answer, digest, limit)
    else Step(s, Ignored, AckIfRequested(f, OK, []))
  }

  class UartGateway {
    const session: UartSession

    constructor (session: UartSession)
      ensures this.session == session
    {
      this.session := session;
    }

    method OnUiAction(f: Frame, answer: Answer) returns (report: Report, ack: Option<Frame>)
      requires session.maxCacheSize > 0
      modifies session
      ensures Step(session.View(), report, ack)
           == HandleUiAction(old(session.View()), f, answer, session.digest, session.maxCacheSize)
    {
      if ParseUiAction(f.payload).Err? {
        return Refused(INVALID_LENGTH), AckIfRequested(f, INVALID_LENGTH, []);
      }
      if session.bootId == None {
        return Refused(NOT_READY), AckIfRequested(f, NOT_READY, []);
      }
      var key := Key(session.bootId.value, f.sequence, f.command);
      var dedup := session.CheckAction(session.bootId.value, f.sequence, f.command, f.payload);
      match dedup {
        case Replay(status, reply) =>
          report := Replayed(key, Entry(session.digest(f.payload), status, reply));
          ack := AckIfRequested(f, status, reply);
        case Conflict =>
          report := Conflicted(key);
          ack := AckIfRequested(f, STATE_CONFLICT, []);
        case InFlight =>
          report := Busy(key);
          ack := AckIfRequested(f, BUSY, []);
        case Execute(k, summary) =>
          if answer.Raises? {
            return HandlerRaised(k), None;
          }
          session.RecordResult(k, summary, answer.status, answer.reply);
          report := Executed(key, Entry(summary, answer.status, answer.reply));
          ack := AckIfRequested(f, answer.status, answer.reply);
        case NewSession =>
          assert false;
      }
    }

    method OnFrame(a: Arrival) returns (report: Report, ack: Option<Frame>)
      requires session.maxCacheSize > 0
      modifies session
      ensures Step(session.View(), report, ack)
           == Dispatch(old(session.View()), a, session.digest, session.maxCacheSize)
    {
      var f := a.frame;
      if IsResponse(f) {
        return Ignored, None;
      }
      if f.command == HELLO {
        var hello := ParseHello(f.payload);
        if hello.Err? {
          return Refused(INVALID_ARGUMENT), AckFor(f, INVALID_ARGUMENT, []);
        }
        var previous := session.bootId;
        if previous != Some(hello.value.bootId) {
          session.ResetTo(hello.value.bootId);
          return SessionStarted(hello.value.bootId), AckFor(f, OK, []);
        }
        return SessionKept, AckFor(f, OK, []);
      }
      if f.command == UI_ACTION {
        report, ack := OnUiAction(f, a.answer);
        return;
      }
      return Ignored, AckIfRequested(f, OK, []);
    }
  }

  // ----- Whole runs -----

  datatype Run = Run(session: State, log: seq<Report>, acks: seq<Option<Frame>>)

  /** The gateway's session after a sequence of arrivals, one dispatched at a time. */
  function Play(arrivals: seq<Arrival>, digest: bytes -> string, limit: nat): (r: Run)
    requires limit > 0
    ensures |r.log| == |r.acks| == |arrivals|
    decreases |arrivals|
  {
    if arrivals == [] then Run(Fresh(), [], [])
    else
      var n := |arrivals| - 1;
      var before := Play(arrivals[..n], digest, limit);
      var step := Dispatch(before.session, arrivals[n], digest, limit);
      Run(step.session, before.log + [step.report], before.acks + [step.ack])
  }

  /** The results recorded since the session last started, oldest first. */
  function Records(log: seq<Report>): seq<Item>
    decreases |log|
  {
    if log == [] then []
    else
      var before, last := log[..|log| - 1], log[|log| - 1];
      match last
      case SessionStarted(_) => []
      case Executed(key, entry) => Records(before) + [Item(key, entry)]
      case _ => Records(before)
  }

  /** The keys whose handler raised in this session. */
  function Stuck(log: seq<Report>): set<Key>
    decreases |log|
  {
    if log == [] then {}
    else
      var before, last := log[..|log| - 1], log[|log| - 1];
      match last
      case SessionStarted(_) => {}
      case HandlerRaised(key) => Stuck(before) + {key}
      case _ => Stuck(before)
  }

  /** The boot the session belongs to. */
  function BootOf(log: seq<Report>): Option<int>
    decreases |log|
  {
    if log == [] then None
    else if log[|log| - 1].SessionStarted? then Some(log[|log| - 1].bootId)
    else BootOf(log[..|log| - 1])
  }

  function LastOf<T>(s: seq<T>, n: nat): seq<T>
  {
    if |s| <= n then s else s[|s| - n..]
  }

  ghost predicate DistinctKeys(items: seq<Item>)
  {
    forall i, j :: 0 <= i < j < |items| ==> items[i].key != items[j].key
  }

  /** The handler was called. */
  predicate Ran(report: Report)
  {
    report.Executed? || report.HandlerRaised?
  }

  ghost predicate RanInSession(log: seq<Report>)
  {
    forall k :: 0 <= k < |log| && Ran(log[k]) ==> BootOf(log[..k]) == Some(log[k].key.bootId)
  }

  ghost predicate Window(s: State, log: seq<Report>, limit: nat)
  {
    && s.cache == LastOf(Records(log), limit)
    && DistinctKeys(s.cache)
    && s.inFlight == Stuck(log)
    && (forall item :: item in s.cache ==> item.key !in s.inFlight)
    && s.bootId == BootOf(log)
    && RanInSession(log)
  }

  lemma {:induction false} WindowSlides<T>(s: seq<T>, x: T, n: nat)
    requires n > 0
    ensures LastOf(s + [x], n) == (if |LastOf(s, n)| >= n then LastOf(s, n)[1..] else LastOf(s, n)) + [x]
  {}

  /** The cache once room has been made for one more result. */
  function Kept(s: State, limit: nat): seq<Item>
  {
    if |s.cache| >= limit && s.cache != [] then s.cache[1..] else s.cache
  }

  lemma {:induction false} RecordAppends(s: State, limit: nat, key: Key, entry: Entry)
    requires limit > 0 && DistinctKeys(s.cache) && key !in s.inFlight && !HasKey(s.cache, key)
    ensures Record(s.(inFlight := s.inFlight + {key}), key, entry, limit)
         == s.(cache := Kept(s, limit) + [Item(key, entry)])
    ensures DistinctKeys(Kept(s, limit) + [Item(key, entry)])
    ensures forall item :: item in Kept(s, limit) ==> item in s.cache
  {
    assert s.inFlight + {key} - {key} == s.inFlight;
  }

  /** What a dispatch does to the session, read off its report. */
  lemma {:induction false} DispatchEffect(s: State, a: Arrival, digest: bytes -> string, limit: nat)
    requires limit > 0
    ensures var step := Dispatch(s, a, digest, limit);
      && (Ran(step.report) ==>
            var key := step.report.key;
            s.bootId == Some(key.bootId) && !HasKey(s.cache, key) && key !in s.inFlight)
      && match step.report
         case Executed(key, entry) => step.session == Record(s.(inFlight := s.inFlight + {key}), key, entry, limit)
         case HandlerRaised(key) => step.session == s.(inFlight := s.inFlight + {key})
         case SessionStarted(boot) => step.session == Reset(boot)
         case _ => step.session == s
  {}

  lemma {:induction false} LogGrows(log: seq<Report>, report: Report)
    requires RanInSession(log)
    requires Ran(report) ==> BootOf(log) == Some(report.key.bootId)
    ensures (log + [report])[..|log|] == log && RanInSession(log + [report])
  {
    var log' := log + [report];
    assert log'[..|log|] == log;
    forall k | 0 <= k < |log'| && Ran(log'[k])
      ensures BootOf(log'[..k]) == Some(log'[k].key.bootId)
    {
      assert log'[..k] == log[..k];
    }
  }

  lemma {:induction false} RecordKeepsWindow(s: State, log: seq<Report>, key: Key, entry: Entry, limit: nat)
    requires limit > 0 && Window(s, log, limit)
    requires s.bootId == Some(key.bootId) && !HasKey(s.cache, key) && key !in s.inFlight
    ensures Window(Record(s.(inFlight := s.inFlight + {key}), key, entry, limit), log + [Executed(key, entry)], limit)
  {
    var log' := log + [Executed(key, entry)];
    LogGrows(log, Executed(key, entry));
    RecordAppends(s, limit, key, entry);
    WindowSlides(Records(log), Item(key, entry), limit);
    assert Records(log') == Records(log) + [Item(key, entry)];
  }

  lemma {:induction false} RaiseKeepsWindow(s: State, log: seq<Report>, key: Key, limit: nat)
    requires limit > 0 && Window(s, log, limit) && s.bootId == Some(key.bootId) && !HasKey(s.cache, key)
    ensures Window(s.(inFlight := s.inFlight + {key}), log + [HandlerRaised(key)], limit)
  {
    LogGrows(log, HandlerRaised(key));
    assert Stuck(log + [HandlerRaised(key)]) == Stuck(log) + {key};
  }

  lemma {:induction false} DispatchKeepsWindow(s: State, log: seq<Report>, a: Arrival,
                                               digest: bytes -> string, limit: nat)
    requires limit > 0 && Window(s, log, limit)
    ensures var step := Dispatch(s, a, digest, limit); Window(step.session, log + [step.report], limit)
  {
    DispatchEffect(s, a, digest, limit);
    var step := Dispatch(s, a, digest, limit);
    LogGrows(log, step.report);
    match step.report
    case Executed(key, entry) => RecordKeepsWindow(s, log, key, entry, limit);
    case HandlerRaised(key) => RaiseKeepsWindow(s, log, key, limit);
    case SessionStarted(_) => assert Records(log + [step.report]) == [] && Stuck(log + [step.report]) == {};
    case _ =>
  }

  lemma {:induction false} PlayNext(before: seq<Arrival>, a: Arrival, digest: bytes -> string, limit: nat)
    requires limit > 0
    ensures var r := Play(before, digest, limit);
      var step := Dispatch(r.session, a, digest, limit);
      Play(before + [a], digest, limit) == Run(step.session, r.log + [step.report], r.acks + [step.ack])
  {}

  /** After any run the cache holds exactly the last results recorded in this session, in order,
      under distinct keys, and what is in flight is exactly what the handler raised on. */
  lemma {:induction false} CacheIsWindow(arrivals: seq<Arrival>, digest: bytes -> string, limit: nat)
    requires limit > 0
    ensures Window(Play(arrivals, digest, limit).session, Play(arrivals, digest, limit).log, limit)
    decreases |arrivals|
  {
    if arrivals != [] {
      var before, a := arrivals[..|arrivals| - 1], arrivals[|arrivals| - 1];
      CacheIsWindow(before, digest, limit);
      var r := Play(before, digest, limit);
      var step := Dispatch(r.session, a, digest, limit);
      assert arrivals == before + [a];
      assert Play(arrivals, digest, limit) == Run(step.session, r.log + [step.report], r.acks + [step.ack]) by {
        PlayNext(before, a, digest, limit);
      }
      DispatchKeepsWindow(r.session, r.log, a, digest, limit);
    }
  }

  lemma {:induction false} KeysOfBoot(log: seq<Report>, key: Key)
    requires RanInSession(log)
    requires key in Stuck(log) || exists item :: item in Records(log) && item.key == key
    ensures BootOf(log) == Some(key.bootId)
    decreases |log|
  {
    var n := |log| - 1;
    var before := log[..n];
    assert forall k :: 0 <= k < n ==> before[..k] == log[..k] && before[k] == log[k];
    if !Ran(log[n]) || log[n].key != key {
      KeysOfBoot(before, key);
    }
  }

  /** After any run every key cached or in flight is of the boot the session belongs to. */
  lemma {:induction false} SessionOfBoot(arrivals: seq<Arrival>, digest: bytes -> string, limit: nat, key: Key)
    requires limit > 0
    requires var s := Play(arrivals, digest, limit).session; key in s.inFlight || HasKey(s.cache, key)
    ensures Play(arrivals, digest, limit).session.bootId == Some(key.bootId)
  {
    var r := Play(arrivals, digest, limit);
    CacheIsWindow(arrivals, digest, limit);
    if HasKey(r.session.cache, key) {
      var i :| 0 <= i < |r.session.cache| && r.session.cache[i].key == key;
      assert r.session.cache[i] in Records(r.log);
    }
    KeysOfBoot(r.log, key);
  }

  /** The status, by its number on the wire, and the data a report is acknowledged with. */
  function AnswerOf(report: Report): (int, bytes)
  {
    match report
    case Refused(status) => (status, [])
    case Executed(_, entry) => (entry.status, entry.reply)
    case Replayed(_, entry) => (entry.status, entry.reply)
    case Conflicted(_) => (0x000B, [])
    case Busy(_) => (0x0005, [])
    case _ => (0x0000, [])
  }

  /** Responses (flag bit 1) are never answered, hellos always, other frames when they ask (flag bit 0)
      and no handler raised. */
  predicate Answers(f: Frame, report: Report)
  {
    f.flags / 2 % 2 == 0 && (f.command == 0x0001 || f.flags % 2 == 1) && !report.HandlerRaised?
  }

  lemma {:induction false} AnsweredOnce(s: State, a: Arrival, digest: bytes -> string, limit: nat)
    requires limit > 0
    ensures var step, f := Dispatch(s, a, digest, limit), a.frame;
      && step.ack == (if Answers(f, step.report)
                      then AckFor(f, AnswerOf(step.report).0, AnswerOf(step.report).1) else None)
  {}

  /** The report and the acknowledgement of arrival k are those of its dispatch. */
  ghost predicate DispatchedAt(arrivals: seq<Arrival>, k: nat, r: Run, digest: bytes -> string, limit: nat)
    requires limit > 0 && k < |arrivals| == |r.log| == |r.acks|
  {
    var before := Play(arrivals[..k], digest, limit);
    var step := Dispatch(before.session, arrivals[k], digest, limit);
    r.log[..k] == before.log && r.log[k] == step.report && r.acks[k] == step.ack
  }

  lemma {:induction false} PlayedAt(arrivals: seq<Arrival>, k: nat, digest: bytes -> string, limit: nat)
    requires limit > 0 && k < |arrivals|
    ensures DispatchedAt(arrivals, k, Play(arrivals, digest, limit), digest, limit)
    decreases |arrivals|
  {
    var n := |arrivals| - 1;
    if k < n {
      PlayedAt(arrivals[..n], k, digest, limit);
      assert arrivals[..n][..k] == arrivals[..k];
      var r, before := Play(arrivals, digest, limit), Play(arrivals[..n], digest, limit);
      assert r.log[..n] == before.log && r.acks[..n] == before.acks;
      assert r.log[..k] == r.log[..n][..k] && r.log[k] == r.log[..n][k] && r.acks[k] == r.acks[..n][k];
    }
  }

  /** The frame can be sent, and reaches the panel's parser unchanged. */
  ghost predicate Arrives(ack: Frame)
  {
    ack.Raw().Ok? && Deliver(Wire.Stuff(ack.Raw().value)) == Some(ack)
  }

  /** The frame is the response to this request, with this answer. */
  ghost predicate Responds(ack: Frame, f: Frame, status: int, data: bytes)
  {
    && ack.flags == 2 && ack.sequence == f.sequence && ack.command == f.command
    && |ack.payload| >= 2 && Read16(ack.payload, 0) == status && ack.payload[2..] == data
  }

  lemma {:induction false} AckFits(f: Frame, status: int, data: bytes)
    requires f.Packable()
    ensures var ack := AckFor(f, status, data);
      && (ack.Some? <==> Fits16(status) && |data| <= MAX_PAYLOAD - 2)
      && (ack.Some? ==>
            && ack.value == Frame(f.version, RESPONSE, f.sequence, f.command, Le16(status) + data)
            && ack.value.Raw().Ok?)
  {}

  lemma {:induction false} AckReads(status: int, data: bytes)
    requires Fits16(status)
    ensures Read16(Le16(status) + data, 0) == status && (Le16(status) + data)[2..] == data
  {
    assert [] + Le16(status) + data == Le16(status) + data;
    ReadLe16([], status, data);
  }

  lemma {:induction false} AckArrives(f: Frame, status: int, data: bytes)
    requires f.Packable() && f.version == VERSION && AckFor(f, status, data).Some?
    ensures Arrives(AckFor(f, status, data).value)
  {
    AckFits(f, status, data);
    Deframer.SentImage(AckFor(f, status, data).value);
  }

  lemma {:induction false} AckResponds(f: Frame, status: int, data: bytes)
    requires f.Packable() && AckFor(f, status, data).Some?
    ensures Responds(AckFor(f, status, data).value, f, status, data)
  {
    AckFits(f, status, data);
    AckReads(status, data);
  }

  /** At any place of any run: who is acknowledged, and with which status and data; an answer that fits a
      frame arrives as the response to its request. */
  lemma {:induction false} EveryRequestAnswered(arrivals: seq<Arrival>, k: nat, digest: bytes -> string, limit: nat)
    requires limit > 0 && k < |arrivals| && arrivals[k].frame.Packable() && arrivals[k].frame.version == VERSION
    ensures var r, f := Play(arrivals, digest, limit), arrivals[k].frame;
      var status, data := AnswerOf(r.log[k]).0, AnswerOf(r.log[k]).1;
      && (r.acks[k].Some? <==> Answers(f, r.log[k]) && 0 <= status < 0x1_0000 && |data| <= 1022)
      && (r.acks[k].Some? ==> Arrives(r.acks[k].value) && Responds(r.acks[k].value, f, status, data))
  {
    PlayedAt(arrivals, k, digest, limit);
    CacheIsWindow(arrivals[..k], digest, limit);
    AnsweredOnce(Play(arrivals[..k], digest, limit).session, arrivals[k], digest, limit);
    var answer := AnswerOf(Play(arrivals, digest, limit).log[k]);
    AckFits(arrivals[k].frame, answer.0, answer.1);
    if AckFor(arrivals[k].frame, answer.0, answer.1).Some? {
      AckArrives(arrivals[k].frame, answer.0, answer.1);
      AckResponds(arrivals[k].frame, answer.0, answer.1);
    }
  }

  // ----- At most once within the window -----

  /** The results a stretch of log recorded, oldest first. */
  function Results(log: seq<Report>): seq<Item>
    decreases |log|
  {
    if log == [] then []
    else
      var before, last := log[..|log| - 1], log[|log| - 1];
      if last.Executed? then Results(before) + [Item(last.key, last.entry)] else Results(before)
  }

  ghost predicate OneSession(log: seq<Report>)
  {
    forall k :: 0 <= k < |log| ==> !log[k].SessionStarted?
  }

  lemma {:induction false} RecordsSplit(log: seq<Report>, more: seq<Report>)
    requires OneSession(more)
    ensures Records(log + more) == Records(log) + Results(more)
    decreases |more|
  {
    if more == [] {
      assert log + more == log;
    } else {
      var n := |more| - 1;
      RecordsSplit(log, more[..n]);
      assert (log + more)[..|log| + n] == log + more[..n];
    }
  }

  lemma {:induction false} ResultsComeFromLog(log: seq<Report>, item: Item)
    requires item in Results(log)
    ensures Executed(item.key, item.entry) in log
    decreases |log|
  {
    var before, last := log[..|log| - 1], log[|log| - 1];
    if last.Executed? && item == Item(last.key, last.entry) {
    } else {
      ResultsComeFromLog(before, item);
    }
  }

  lemma {:induction false} BootStays(log: seq<Report>, more: seq<Report>)
    requires OneSession(more)
    ensures BootOf(log + more) == BootOf(log)
    decreases |more|
  {
    if more == [] {
      assert log + more == log;
    } else {
      var n := |more| - 1;
      BootStays(log, more[..n]);
      assert (log + more)[..|log| + n] == log + more[..n];
    }
  }

  /** Where a result stands among the records of its session. */
  lemma {:induction false} RecordPlace(log: seq<Report>, i: nat)
    requires i < |log| && log[i].Executed? && OneSession(log[i + 1..])
    ensures Records(log) == Records(log[..i]) + [Item(log[i].key, log[i].entry)] + Results(log[i + 1..])
  {
    assert log == log[..i + 1] + log[i + 1..];
    assert log[..i + 1][..i] == log[..i];
    RecordsSplit(log[..i + 1], log[i + 1..]);
  }

  lemma {:induction false} StillCached(arrivals: seq<Arrival>, i: nat, digest: bytes -> string, limit: nat)
    requires limit > 0 && i < |arrivals|
    requires var log := Play(arrivals, digest, limit).log; log[i].Executed? && OneSession(log[i + 1..])
    ensures var r := Play(arrivals, digest, limit);
      |Results(r.log[i + 1..])| < limit ==> Item(r.log[i].key, r.log[i].entry) in r.session.cache
  {
    var r := Play(arrivals, digest, limit);
    var item, later := Item(r.log[i].key, r.log[i].entry), Results(r.log[i + 1..]);
    CacheIsWindow(arrivals, digest, limit);
    RecordPlace(r.log, i);
    if |later| < limit {
      var p := |Records(r.log[..i])|;
      assert Records(r.log)[p] == item;
      assert item in LastOf(Records(r.log), limit);
    }
  }

  lemma {:induction false} DistinctGet(cache: seq<Item>, item: Item)
    requires DistinctKeys(cache) && item in cache
    ensures Get(cache, item.key) == Some(item.entry)
  {}

  predicate IsUiAction(f: Frame)
  {
    !IsResponse(f) && f.command == UI_ACTION && ParseUiAction(f.payload).Ok?
  }

  lemma {:induction false} StuckStays(log: seq<Report>, i: nat)
    requires i < |log| && log[i].HandlerRaised? && OneSession(log[i + 1..])
    ensures log[i].key in Stuck(log)
    decreases |log|
  {
    var n := |log| - 1;
    if i < n {
      assert log[..n][i + 1..] == log[i + 1..][..n - i - 1];
      assert log[n] == log[i + 1..][n - i - 1];
      StuckStays(log[..n], i);
    }
  }

  /** The handler runs twice for one key in one session only if its first run returned, and then at
      least `limit` other results were recorded in between. */
  lemma {:induction false} AtMostOncePerWindow(arrivals: seq<Arrival>, i: nat, j: nat,
                                               digest: bytes -> string, limit: nat)
    requires limit > 0 && i < j < |arrivals|
    requires var log := Play(arrivals, digest, limit).log;
      Ran(log[i]) && Ran(log[j]) && log[i].key == log[j].key && OneSession(log[i + 1..j])
    ensures var log := Play(arrivals, digest, limit).log;
      log[i].Executed? && |Results(log[i + 1..j])| >= limit
  {
    var log := Play(arrivals, digest, limit).log;
    var r := Play(arrivals[..j], digest, limit);
    PlayedAt(arrivals, j, digest, limit);
    assert r.log[i + 1..] == log[i + 1..j] && r.log[i] == log[i];
    CacheIsWindow(arrivals[..j], digest, limit);
    DispatchEffect(r.session, arrivals[j], digest, limit);
    if log[i].HandlerRaised? {
      StuckStays(r.log, i);
    } else {
      StillCached(arrivals[..j], i, digest, limit);
      NotCached(r.session.cache, Item(log[i].key, log[i].entry));
    }
  }

  lemma {:induction false} NotCached(cache: seq<Item>, item: Item)
    requires !HasKey(cache, item.key)
    ensures item !in cache
  {}

  lemma {:induction false} HitDecides(s: State, a: Arrival, key: Key, entry: Entry, digest: bytes -> string, limit: nat)
    requires limit > 0 && IsUiAction(a.frame) && key == Key(key.bootId, a.frame.sequence, a.frame.command)
    requires s.bootId == Some(key.bootId) && Get(s.cache, key) == Some(entry)
    ensures var step := Dispatch(s, a, digest, limit);
      if digest(a.frame.payload) == entry.digest
      then step == Step(s, Replayed(key, entry), AckIfRequested(a.frame, entry.status, entry.reply))
      else step == Step(s, Conflicted(key), AckIfRequested(a.frame, STATE_CONFLICT, []))
  {}

  /** The report of a UI action whose handler is called. */
  function RunReport(key: Key, a: Arrival, digest: bytes -> string): Report
  {
    match a.answer
    case Raises => HandlerRaised(key)
    case Answer(status, reply) => Executed(key, Entry(digest(a.frame.payload), status, reply))
  }

  lemma {:induction false} MissDecides(s: State, a: Arrival, key: Key, digest: bytes -> string, limit: nat)
    requires limit > 0 && IsUiAction(a.frame) && key == Key(key.bootId, a.frame.sequence, a.frame.command)
    requires s.bootId == Some(key.bootId) && !HasKey(s.cache, key)
    ensures var step := Dispatch(s, a, digest, limit);
      if key in s.inFlight then step == Step(s, Busy(key), AckIfRequested(a.frame, BUSY, []))
      else step.report == RunReport(key, a, digest)
  {}

  /** After any run a UI action of the session's boot runs the handler exactly when neither its key is
      among the last `limit` results of the session nor the handler raised on it in the session. */
  lemma {:induction false} RunsExactly(arrivals: seq<Arrival>, a: Arrival, key: Key,
                                       digest: bytes -> string, limit: nat)
    requires limit > 0 && IsUiAction(a.frame) && key == Key(key.bootId, a.frame.sequence, a.frame.command)
    requires BootOf(Play(arrivals, digest, limit).log) == Some(key.bootId)
    ensures var r := Play(arrivals, digest, limit);
      var report := Dispatch(r.session, a, digest, limit).report;
      && (Ran(report) <==> !HasKey(LastOf(Records(r.log), limit), key) && key !in Stuck(r.log))
      && (Ran(report) ==> report == RunReport(key, a, digest))
  {
    var r := Play(arrivals, digest, limit);
    CacheIsWindow(arrivals, digest, limit);
    if HasKey(r.session.cache, key) {
      HitDecides(r.session, a, key, Get(r.session.cache, key).value, digest, limit);
    } else {
      MissDecides(r.session, a, key, digest, limit);
    }
  }

  lemma {:induction false} SameBoot(log: seq<Report>, i: nat)
    requires i < |log| && Ran(log[i]) && OneSession(log[i + 1..])
    ensures BootOf(log) == BootOf(log[..i])
  {
    assert log == log[..i] + log[i..] && log[i..] == [log[i]] + log[i + 1..];
    BootStays(log[..i], log[i..]);
  }

  lemma {:induction false} Evicted(log: seq<Report>, i: nat, limit: nat)
    requires i < |log| && log[i].Executed? && OneSession(log[i + 1..])
    requires |Results(log[i + 1..])| >= limit
    requires forall item :: item in Results(log[i + 1..]) ==> item.key != log[i].key
    ensures !HasKey(LastOf(Records(log), limit), log[i].key)
  {
    var later := Results(log[i + 1..]);
    RecordPlace(log, i);
    assert LastOf(Records(log), limit) == LastOf(later, limit);
    forall k | 0 <= k < |LastOf(later, limit)|
      ensures LastOf(later, limit)[k].key != log[i].key
    {
      assert LastOf(later, limit)[k] in later;
    }
  }

  /** The handler was not called for this key. */
  ghost predicate NeverRan(log: seq<Report>, key: Key)
  {
    forall k :: 0 <= k < |log| && Ran(log[k]) ==> log[k].key != key
  }

  lemma {:induction false} NotStuck(log: seq<Report>, more: seq<Report>, key: Key)
    requires key !in Stuck(log) && NeverRan(more, key)
    ensures key !in Stuck(log + more)
    decreases |more|
  {
    if more == [] {
      assert log + more == log;
    } else {
      var n := |more| - 1;
      NotStuck(log, more[..n], key);
      assert (log + more)[..|log| + n] == log + more[..n];
    }
  }

  lemma {:induction false} RanUnstuck(arrivals: seq<Arrival>, i: nat, digest: bytes -> string, limit: nat)
    requires limit > 0 && i < |arrivals| && Ran(Play(arrivals, digest, limit).log[i])
    ensures var log := Play(arrivals, digest, limit).log; log[i].key !in Stuck(log[..i])
  {
    PlayedAt(arrivals, i, digest, limit);
    CacheIsWindow(arrivals[..i], digest, limit);
    DispatchEffect(Play(arrivals[..i], digest, limit).session, arrivals[i], digest, limit);
  }

  lemma {:induction false} ExecutedNotStuck(log: seq<Report>, i: nat)
    requires i < |log| && log[i].Executed? && NeverRan(log[i + 1..], log[i].key)
    requires log[i].key !in Stuck(log[..i])
    ensures log[i].key !in Stuck(log)
  {
    var upTo := log[..i] + [log[i]];
    assert upTo[..i] == log[..i] && log == upTo + log[i + 1..];
    NotStuck(upTo, log[i + 1..], log[i].key);
  }

  lemma {:induction false} ResultsNeverRan(log: seq<Report>, key: Key)
    requires NeverRan(log, key)
    ensures forall item :: item in Results(log) ==> item.key != key
  {
    forall item | item in Results(log)
      ensures item.key != key
    {
      ResultsComeFromLog(log, item);
    }
  }

  /** Since the handler last ran for the key of a, at place i, the session has not changed. */
  ghost predicate LastRan(log: seq<Report>, i: nat, a: Arrival)
  {
    && i < |log| && Ran(log[i]) && OneSession(log[i + 1..]) && NeverRan(log[i + 1..], log[i].key)
    && a.frame.sequence == log[i].key.sequence && a.frame.command == log[i].key.command
  }

  /** What the next UI action under an executed key meets: its first result or a conflict while
      fewer than `limit` results came after, and a second execution from then on. */
  lemma {:induction false} WindowDecides(arrivals: seq<Arrival>, i: nat, a: Arrival,
                                         digest: bytes -> string, limit: nat)
    requires limit > 0 && IsUiAction(a.frame)
    requires var log := Play(arrivals, digest, limit).log; LastRan(log, i, a) && log[i].Executed?
    ensures var r := Play(arrivals, digest, limit);
      var key, entry := r.log[i].key, r.log[i].entry;
      var step := Dispatch(r.session, a, digest, limit);
      if |Results(r.log[i + 1..])| >= limit then step.report == RunReport(key, a, digest)
      else
        && step.report == (if digest(a.frame.payload) == entry.digest then Replayed(key, entry) else Conflicted(key))
        && step.session == r.session
  {
    var r := Play(arrivals, digest, limit);
    var key, entry := r.log[i].key, r.log[i].entry;
    CacheIsWindow(arrivals, digest, limit);
    SameBoot(r.log, i);
    RanBoot(r.log, i);
    if |Results(r.log[i + 1..])| < limit {
      StillCached(arrivals, i, digest, limit);
      DistinctGet(r.session.cache, Item(key, entry));
      HitDecides(r.session, a, key, entry, digest, limit);
    } else {
      ResultsNeverRan(r.log[i + 1..], key);
      Evicted(r.log, i, limit);
      RanUnstuck(arrivals, i, digest, limit);
      ExecutedNotStuck(r.log, i);
      MissDecides(r.session, a, key, digest, limit);
    }
  }

  lemma {:induction false} RanBoot(log: seq<Report>, i: nat)
    requires RanInSession(log) && i < |log| && Ran(log[i])
    ensures BootOf(log[..i]) == Some(log[i].key.bootId)
  {}

  lemma {:induction false} NotInBoth(s: State, key: Key)
    requires HasKey(s.cache, key) && forall item :: item in s.cache ==> item.key !in s.inFlight
    ensures key !in s.inFlight
  {
    assert Get(s.cache, key).Some?;
  }

  /** A key the handler raised on stays in flight: every later UI action under it in the session is
      answered BUSY, and the handler is not called. */
  lemma {:induction false} RaisedStaysBusy(arrivals: seq<Arrival>, i: nat, a: Arrival,
                                           digest: bytes -> string, limit: nat)
    requires limit > 0 && IsUiAction(a.frame)
    requires var log := Play(arrivals, digest, limit).log;
      && i < |log| && log[i].HandlerRaised? && OneSession(log[i + 1..])
      && a.frame.sequence == log[i].key.sequence && a.frame.command == log[i].key.command
    ensures var r := Play(arrivals, digest, limit);
      Dispatch(r.session, a, digest, limit) == Step(r.session, Busy(r.log[i].key), AckIfRequested(a.frame, BUSY, []))
  {
    var r := Play(arrivals, digest, limit);
    CacheIsWindow(arrivals, digest, limit);
    SameBoot(r.log, i);
    RanBoot(r.log, i);
    StuckStays(r.log, i);
    if HasKey(r.session.cache, r.log[i].key) {
      NotInBoth(r.session, r.log[i].key);
    }
    MissDecides(r.session, a, r.log[i].key, digest, limit);
  }

  // ----- Retransmissions, from the wire up -----

  lemma {:induction false} RecordedIsFound(s: State, limit: nat, key: Key, entry: Entry)
    requires limit > 0 && DistinctKeys(s.cache) && key !in s.inFlight && !HasKey(s.cache, key)
    ensures var r := Record(s.(inFlight := s.inFlight + {key}), key, entry, limit);
      r.bootId == s.bootId && Get(r.cache, key) == Some(entry)
  {
    RecordAppends(s, limit, key, entry);
    var cache := Kept(s, limit) + [Item(key, entry)];
    assert cache[|cache| - 1] == Item(key, entry);
    DistinctGet(cache, Item(key, entry));
  }

  lemma {:induction false} RunShape(s: State, a: Arrival, digest: bytes -> string, limit: nat)
    requires limit > 0 && IsUiAction(a.frame) && Ran(Dispatch(s, a, digest, limit).report)
    ensures var one := Dispatch(s, a, digest, limit);
      var key := one.report.key;
      && key == Key(key.bootId, a.frame.sequence, a.frame.command)
      && one.report == RunReport(key, a, digest)
      && (one.report.Executed? ==> one.ack == AckIfRequested(a.frame, one.report.entry.status, one.report.entry.reply))
  {}

  /** What a copy of a UI action meets after its handler ran. */
  function Again(one: Step, f: Frame): Step
    requires Ran(one.report)
  {
    match one.report
    case Executed(key, entry) => Step(one.session, Replayed(key, entry), one.ack)
    case HandlerRaised(key) => Step(one.session, Busy(key), AckIfRequested(f, BUSY, []))
  }

  /** A UI action sent again right after its handler ran changes nothing: it is answered with the same
      frame if the handler returned, and with BUSY if it raised. */
  lemma {:induction false} DuplicateReplays(s: State, f: Frame, first: Answer, second: Answer,
                                            digest: bytes -> string, limit: nat)
    requires limit > 0 && IsUiAction(f) && DistinctKeys(s.cache)
    requires Ran(Dispatch(s, Arrival(f, first), digest, limit).report)
    ensures var one := Dispatch(s, Arrival(f, first), digest, limit);
      Dispatch(one.session, Arrival(f, second), digest, limit) == Again(one, f)
  {
    var one := Dispatch(s, Arrival(f, first), digest, limit);
    DispatchEffect(s, Arrival(f, first), digest, limit);
    RunShape(s, Arrival(f, first), digest, limit);
    if one.report.Executed? {
      RecordedIsFound(s, limit, one.report.key, one.report.entry);
      HitDecides(one.session, Arrival(f, second), one.report.key, one.report.entry, digest, limit);
    } else {
      MissDecides(one.session, Arrival(f, second), one.report.key, digest, limit);
    }
  }

  function Copies(f: Frame, n: nat): seq<Frame>
  {
    seq(n, _ => f)
  }

  function Arrivals(frames: seq<Frame>, answers: seq<Answer>): seq<Arrival>
    requires |frames| == |answers|
  {
    seq(|frames|, k requires 0 <= k < |frames| => Arrival(frames[k], answers[k]))
  }

  /** From place n on the run did one step, and then what its copies meet. */
  ghost predicate OneThenCopies(r: Run, n: nat, m: nat, one: Step, f: Frame)
    requires m > 0 && Ran(one.report)
  {
    && |r.log| == |r.acks| == n + m
    && r.session == one.session
    && r.log[n..] == [one.report] + seq(m - 1, _ => Again(one, f).report)
    && r.acks[n..] == [one.ack] + seq(m - 1, _ => Again(one, f).ack)
  }

  lemma {:induction false} OneMoreCopy(r: Run, n: nat, m: nat, one: Step, f: Frame)
    requires Ran(one.report) && m > 0 && OneThenCopies(r, n, m, one, f)
    ensures var again := Again(one, f);
      OneThenCopies(Run(again.session, r.log + [again.report], r.acks + [again.ack]), n, m + 1, one, f)
  {
    var again := Again(one, f);
    assert (r.log + [again.report])[n..] == r.log[n..] + [again.report];
    assert (r.acks + [again.ack])[n..] == r.acks[n..] + [again.ack];
    assert seq(m, _ => again.report) == seq(m - 1, _ => again.report) + [again.report];
    assert seq(m, _ => again.ack) == seq(m - 1, _ => again.ack) + [again.ack];
  }

  lemma {:induction false} CopiesExecuteOnce(before: seq<Arrival>, f: Frame, answers: seq<Answer>,
                                             digest: bytes -> string, limit: nat)
    requires limit > 0 && IsUiAction(f) && answers != []
    requires Ran(Dispatch(Play(before, digest, limit).session, Arrival(f, answers[0]), digest, limit).report)
    ensures var one := Dispatch(Play(before, digest, limit).session, Arrival(f, answers[0]), digest, limit);
      OneThenCopies(Play(before + Arrivals(Copies(f, |answers|), answers), digest, limit), |before|, |answers|, one, f)
    decreases |answers|
  {
    var m, last := |answers| - 1, Arrival(f, answers[|answers| - 1]);
    var init := before + Arrivals(Copies(f, m), answers[..m]);
    assert before + Arrivals(Copies(f, m + 1), answers) == init + [last];
    PlayNext(init, last, digest, limit);
    if m == 0 {
      assert init == before;
    } else {
      var session := Play(before, digest, limit).session;
      CopiesExecuteOnce(before, f, answers[..m], digest, limit);
      CacheIsWindow(before, digest, limit);
      DuplicateReplays(session, f, answers[0], answers[m], digest, limit);
      OneMoreCopy(Play(init, digest, limit), |before|, m, Dispatch(session, Arrival(f, answers[0]), digest, limit), f);
    }
  }

  lemma {:induction false} CopiesRead(r: Run, n: nat, m: nat, one: Step, f: Frame)
    requires m > 0 && Ran(one.report) && OneThenCopies(r, n, m, one, f)
    ensures r.log[n] == one.report && r.acks[n] == one.ack
    ensures forall k :: n < k < n + m ==> r.log[k] == Again(one, f).report && r.acks[k] == Again(one, f).ack
  {
    assert r.log[n] == r.log[n..][0] && r.acks[n] == r.acks[n..][0];
    forall k | n < k < n + m
      ensures r.log[k] == Again(one, f).report && r.acks[k] == Again(one, f).ack
    {
      assert r.log[k] == r.log[n..][k - n] && r.acks[k] == r.acks[n..][k - n];
    }
  }

  /** The handler ran at place n and not again; the copies got the first acknowledgement, or BUSY. */
  ghost predicate RanOnce(r: Run, n: nat, m: nat, f: Frame)
  {
    && n < |r.log| == |r.acks| == n + m && Ran(r.log[n])
    && forall k :: n < k < n + m ==>
         && !Ran(r.log[k])
         && r.acks[k] == if r.log[n].Executed? then r.acks[n] else AckIfRequested(f, BUSY, [])
  }

  lemma {:induction false} CopiesRunOnce(r: Run, n: nat, m: nat, one: Step, f: Frame)
    requires m > 0 && Ran(one.report) && OneThenCopies(r, n, m, one, f)
    ensures RanOnce(r, n, m, f)
  {
    CopiesRead(r, n, m, one, f);
  }

  lemma {:induction false} CopiesReceived(f: Frame, n: nat)
    requires f.Raw().Ok? && f.version == VERSION
    ensures Deframer.Received(Flatten(Deframer.WireImages(Copies(f, n)))) == Copies(f, n)
  {
    Deframer.SentReceived(Copies(f, n));
  }

  /** However the bytes of a UI action sent several times are chunked, the read loop's frames run
      its handler once. Every copy is acknowledged as the first was if the handler returned, and BUSY
      if it raised. */
  lemma {:induction false} RetransmissionsExecuteOnce(before: seq<Arrival>, f: Frame, answers: seq<Answer>,
                                                      stream: bytes, digest: bytes -> string, limit: nat)
    requires limit > 0 && IsUiAction(f) && f.Raw().Ok? && f.version == VERSION && answers != []
    requires stream == Flatten(Deframer.WireImages(Copies(f, |answers|)))
    requires Ran(Dispatch(Play(before, digest, limit).session, Arrival(f, answers[0]), digest, limit).report)
    ensures Deframer.Received(stream) == Copies(f, |answers|)
    ensures RanOnce(Play(before + Arrivals(Deframer.Received(stream), answers), digest, limit), |before|, |answers|, f)
  {
    CopiesReceived(f, |answers|);
    CopiesExecuteOnce(before, f, answers, digest, limit);
    CopiesRunOnce(Play(before + Arrivals(Copies(f, |answers|), answers), digest, limit), |before|, |answers|,
                  Dispatch(Play(before, digest, limit).session, Arrival(f, answers[0]), digest, limit), f);
  }
}
