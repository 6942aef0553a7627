/** The MQTT pressure adapter: which sensor messages become the held sample (pressure_adapter.py). */
module PressureAdapter {
  import opened Prelude
  import opened StateMachine

  /** A message from the sensor's topics. Unusable stands for one that fails to decode, has the wrong
      schema or names another device. */
  datatype Message =
    | Availability(online: bool, bootId: Option<string>)
    | Sampled(reading: Reading)
    | Unusable

  datatype Adapter = Adapter(pressure: PressureState, lastBootId: Option<string>, lastSeq: int)

  /** The adapter afterwards, and whether it calls on_updated. */
  datatype Received = Received(adapter: Adapter, updated: bool)

  function NewAdapter(): Adapter
  {
    Adapter(PressureState(false, None, 0), None, -1)
  }

  /** The sequence number a sample of this boot must exceed. */
  function SeqFloor(a: Adapter, bootId: string): int
  {
    if a.lastBootId != Some(bootId) then -1 else a.lastSeq
  }

  function Receive(a: Adapter, m: Message, now: int): Received
  {
    match m
    case Unusable => Received(a, false)
    case Availability(false, _) => Received(a.(pressure := PressureState(false, a.pressure.lastSample, now)), true)
    case Availability(true, boot) =>
      var known := if boot.Some? && boot != a.lastBootId then a.(lastBootId := boot, lastSeq := -1) else a;
      Received(known.(pressure := PressureState(true, a.pressure.lastSample, now)), true)
    case Sampled(reading) =>
      var known := a.(lastBootId := Some(reading.bootId), lastSeq := SeqFloor(a, reading.bootId));
      if reading.seqNo <= known.lastSeq then Received(known, false)
      else Received(Adapter(PressureState(a.pressure.online, Some(Sample(reading, now)), now),
                            Some(reading.bootId), reading.seqNo), true)
  }

  class PressureMqttAdapter {
    var pressure: PressureState
    var lastBootId: Option<string>
    var lastSeq: int

    constructor ()
      ensures View() == NewAdapter()
    {
      pressure := PressureState(false, None, 0);
      lastBootId := None;
      lastSeq := -1;
    }

    function View(): Adapter
      reads this
    {
      Adapter(pressure, lastBootId, lastSeq)
    }

    method HandleAvailability(online: bool, bootId: Option<string>, now: int) returns (updated: bool)
      modifies this
      ensures Received(View(), updated) == Receive(old(View()), Availability(online, bootId), now)
    {
      if !online {
        pressure := PressureState(false, pressure.lastSample, now);
      } else {
        if bootId.Some? && bootId != lastBootId {
          lastBootId := bootId;
          lastSeq := -1;
        }
        pressure := PressureState(true, pressure.lastSample, now);
      }
      return true;
    }

    method HandleState(reading: Reading, now: int) returns (updated: bool)
      modifies this
      ensures Received(View(), updated) == Receive(old(View()), Sampled(reading), now)
    {
      if Some(reading.bootId) != lastBootId {
        lastBootId := Some(reading.bootId);
        lastSeq := -1;
      }
      if reading.seqNo <= lastSeq {
        return false;
      }
      lastSeq := reading.seqNo;
      pressure := PressureState(pressure.online, Some(Sample(reading, now)), now);
      return true;
    }
  }

  // ----- Whole runs -----

  datatype Timed = Timed(message: Message, now: int)

  function Play(a: Adapter, messages: seq<Timed>): Adapter
    decreases |messages|
  {
    if messages == [] then a
    else
      var n := |messages| - 1;
      Receive(Play(a, messages[..n]), messages[n].message, messages[n].now).adapter
  }

  /** The sample held is the one the adapter's boot and sequence number name. */
  ghost predicate HeldMatches(a: Adapter)
  {
    && a.lastSeq >= -1
    && (a.lastSeq >= 0 ==>
          && a.pressure.lastSample.Some?
          && a.lastBootId == Some(a.pressure.lastSample.value.reading.bootId)
          && a.lastSeq == a.pressure.lastSample.value.reading.seqNo)
  }

  /** In every reachable state a non-negative last sequence number is the held sample's. */
  lemma {:induction false} AlwaysHeldMatches(messages: seq<Timed>)
    ensures HeldMatches(Play(NewAdapter(), messages))
    decreases |messages|
  {
    if messages != [] {
      AlwaysHeldMatches(messages[..|messages| - 1]);
    }
  }

  /** A non-negative last sequence number is needed for that: after an availability message of a new
      boot the old boot's sample is still held, and still counts as valid. */
  lemma {:induction false} FormerBootStaysValid(reading: Reading, boot: string, now: int, staleMs: nat)
    requires reading.bootId != boot
    ensures var a := Play(NewAdapter(), [Timed(Sampled(reading), now), Timed(Availability(true, Some(boot)), now)]);
      && a.lastBootId == Some(boot) && a.lastSeq == -1
      && a.pressure.IsValid(now, staleMs) && a.pressure.lastSample.value.reading == reading
  {
    var first, second := Timed(Sampled(reading), now), Timed(Availability(true, Some(boot)), now);
    assert [first, second][..1] == [first] && [first][..0] == [];
    assert Play(NewAdapter(), [first]) == Receive(Play(NewAdapter(), [first][..0]), first.message, now).adapter;
  }

  function After(messages: seq<Timed>): Adapter
  {
    Play(NewAdapter(), messages)
  }

  /** Message i was taken as a new sample, and the adapter's boot has been that sample's ever since. */
  ghost predicate TakenInCurrentBoot(messages: seq<Timed>, i: nat)
  {
    && i < |messages| && messages[i].message.Sampled?
    && messages[i].message.reading.seqNo > SeqFloor(After(messages[..i]), messages[i].message.reading.bootId)
    && forall j :: i < j <= |messages| ==> After(messages[..j]).lastBootId == Some(messages[i].message.reading.bootId)
  }

  lemma {:induction false} TakenExtends(messages: seq<Timed>, i: nat)
    requires messages != [] && i < |messages| - 1
    ensures var n := |messages| - 1;
      TakenInCurrentBoot(messages, i) <==>
        TakenInCurrentBoot(messages[..n], i) && After(messages).lastBootId == After(messages[..n]).lastBootId
  {
    var n := |messages| - 1;
    var before := messages[..n];
    assert before[..i] == messages[..i] && before[i] == messages[i];
    assert forall j :: i < j <= n ==> before[..j] == messages[..j];
    assert messages[..n + 1] == messages && before[..n] == before;
  }

  /** The held sample is message i, taken in what has been the adapter's boot ever since. */
  ghost predicate HeldFromCurrentBoot(messages: seq<Timed>, i: nat)
  {
    && TakenInCurrentBoot(messages, i)
    && After(messages).pressure.lastSample == Some(Sample(messages[i].message.reading, messages[i].now))
  }

  /** Message n takes a new sample when it comes last. */
  predicate TakesLast(messages: seq<Timed>)
    requires messages != []
  {
    var n := |messages| - 1;
    && messages[n].message.Sampled?
    && messages[n].message.reading.seqNo > SeqFloor(After(messages[..n]), messages[n].message.reading.bootId)
  }

  lemma {:induction false} HeldExtends(messages: seq<Timed>, i: nat)
    requires messages != [] && !TakesLast(messages)
    ensures var n := |messages| - 1;
      HeldFromCurrentBoot(messages, i) <==>
        HeldFromCurrentBoot(messages[..n], i) && After(messages).lastBootId == After(messages[..n]).lastBootId
  {
    var n := |messages| - 1;
    assert messages[..n + 1] == messages;
    if i < n {
      TakenExtends(messages, i);
    }
  }

  lemma {:induction false} TakenIsHeld(messages: seq<Timed>)
    requires messages != [] && TakesLast(messages)
    ensures HeldFromCurrentBoot(messages, |messages| - 1)
  {
    assert messages[..|messages|] == messages;
  }

  /** The held sample was taken in the current boot exactly when the last sequence number is not negative. */
  lemma {:induction false} CurrentBootExactly(messages: seq<Timed>)
    ensures After(messages).lastSeq >= 0 <==> exists i: nat :: HeldFromCurrentBoot(messages, i)
    decreases |messages|
  {
    if messages != [] {
      var before := messages[..|messages| - 1];
      CurrentBootExactly(before);
      AlwaysHeldMatches(before);
      if TakesLast(messages) {
        TakenIsHeld(messages);
      } else {
        forall i: nat
          ensures HeldFromCurrentBoot(messages, i) <==>
            HeldFromCurrentBoot(before, i) && After(messages).lastBootId == After(before).lastBootId
        {
          HeldExtends(messages, i);
        }
        assert After(messages).lastSeq >= 0 <==>
          After(before).lastSeq >= 0 && After(messages).lastBootId == After(before).lastBootId;
      }
    }
  }

  /** Nothing but this boot's samples, and availability messages that name no other boot. */
  ghost predicate OfBoot(messages: seq<Timed>, boot: string)
  {
    forall i :: 0 <= i < |messages| ==>
      match messages[i].message
      case Sampled(reading) => reading.bootId == boot
      case Availability(online, b) => !online || b == None || b == Some(boot)
      case Unusable => true
  }

  function Readings(messages: seq<Timed>): set<Reading>
  {
    set i | 0 <= i < |messages| && messages[i].message.Sampled? :: messages[i].message.reading
  }

  /** No sample of this boot has been taken yet. */
  predicate NewToBoot(a: Adapter, boot: string)
  {
    a.lastBootId != Some(boot) || a.lastSeq == -1
  }

  lemma {:induction false} ReadingsGrow(messages: seq<Timed>)
    requires messages != []
    ensures var n := |messages| - 1;
      Readings(messages) == Readings(messages[..n])
        + (if messages[n].message.Sampled? then {messages[n].message.reading} else {})
  {}

  /** The held reading is one received, and none received has a greater sequence number. */
  ghost predicate HoldsGreatest(a: Adapter, readings: set<Reading>)
  {
    && a.pressure.lastSample.Some?
    && a.pressure.lastSample.value.reading in readings
    && a.lastSeq == a.pressure.lastSample.value.reading.seqNo
    && forall r :: r in readings ==> r.seqNo <= a.pressure.lastSample.value.reading.seqNo
  }

  lemma {:induction false} GreatestIsHeld(a: Adapter, messages: seq<Timed>, boot: string)
    requires NewToBoot(a, boot) && OfBoot(messages, boot)
    ensures var b := Play(a, messages);
      if Readings(messages) == {} then NewToBoot(b, boot) && b.pressure.lastSample == a.pressure.lastSample
      else b.lastBootId == Some(boot) && HoldsGreatest(b, Readings(messages))
    decreases |messages|
  {
    if messages != [] {
      var n := |messages| - 1;
      assert OfBoot(messages[..n], boot);
      GreatestIsHeld(a, messages[..n], boot);
      ReadingsGrow(messages);
      var before, last := Play(a, messages[..n]), messages[n].message;
      if last.Sampled? {
        assert last.reading.bootId == boot;
        if Readings(messages[..n]) == {} {
          assert last.reading.seqNo > SeqFloor(before, boot);
        }
      }
    }
  }

  /** One sequence number, one reading. */
  ghost predicate OneReadingPerSeq(readings: set<Reading>)
  {
    forall r, s :: r in readings && s in readings && r.seqNo == s.seqNo ==> r == s
  }

  /** What is held after one boot's messages depends only on which readings arrived: not on their
      order, on duplicates, or on what else was received. */
  lemma {:induction false} OrderAndDuplicatesIrrelevant(a: Adapter, b: Adapter, xs: seq<Timed>, ys: seq<Timed>,
                                                        boot: string)
    requires NewToBoot(a, boot) && NewToBoot(b, boot) && OfBoot(xs, boot) && OfBoot(ys, boot)
    requires Readings(xs) == Readings(ys) != {} && OneReadingPerSeq(Readings(xs))
    ensures var p, q := Play(a, xs), Play(b, ys);
      && p.pressure.lastSample.Some? && q.pressure.lastSample.Some?
      && p.pressure.lastSample.value.reading == q.pressure.lastSample.value.reading
      && p.lastSeq == q.lastSeq && p.lastBootId == q.lastBootId
  {
    GreatestIsHeld(a, xs, boot);
    GreatestIsHeld(b, ys, boot);
  }

  /** What the last usable availability message said. */
  function LastAvailability(messages: seq<Timed>, initial: bool): bool
    decreases |messages|
  {
    if messages == [] then initial
    else if messages[|messages| - 1].message.Availability? then messages[|messages| - 1].message.online
    else LastAvailability(messages[..|messages| - 1], initial)
  }

  /** Samples never touch the online flag, and going offline never drops the held sample. */
  lemma {:induction false} OnlineIsLastAvailability(a: Adapter, messages: seq<Timed>)
    ensures Play(a, messages).pressure.online == LastAvailability(messages, a.pressure.online)
    ensures a.pressure.lastSample.Some? ==> Play(a, messages).pressure.lastSample.Some?
    decreases |messages|
  {
    if messages != [] {
      OnlineIsLastAvailability(a, messages[..|messages| - 1]);
    }
  }

  // ----- What the messages alone say -----

  /** The boot a message belongs to, if it names one. */
  function BootNamed(m: Message): Option<string>
  {
    match m
    case Sampled(reading) => Some(reading.bootId)
    case Availability(online, boot) => if online then boot else None
    case Unusable => None
  }

  /** Message j is a sample of this boot, and nothing after it names another. */
  ghost predicate InStretch(messages: seq<Timed>, j: nat, boot: string)
  {
    && j < |messages| && messages[j].message.Sampled? && messages[j].message.reading.bootId == boot
    && forall k :: j < k < |messages| && BootNamed(messages[k].message).Some? ==>
         BootNamed(messages[k].message) == Some(boot)
  }

  /** Message i is a sample with a greater sequence number than all its boot's samples before it, as far
      back as another boot was named. */
  ghost predicate IsNew(messages: seq<Timed>, i: nat)
  {
    && i < |messages| && messages[i].message.Sampled?
    && forall j: nat :: InStretch(messages[..i], j, messages[i].message.reading.bootId) ==>
         messages[j].message.reading.seqNo < messages[i].message.reading.seqNo
  }

  ghost predicate IsLastNew(messages: seq<Timed>, i: nat)
  {
    IsNew(messages, i) && forall j: nat :: i < j < |messages| ==> !IsNew(messages, j)
  }

  /** The last availability message said online. */
  ghost predicate SaysOnline(messages: seq<Timed>)
  {
    exists i :: 0 <= i < |messages| && messages[i].message.Availability? && messages[i].message.online
      && forall j :: i < j < |messages| ==> !messages[j].message.Availability?
  }

  /** Message i changes what the adapter holds. */
  ghost predicate Updates(messages: seq<Timed>, i: nat)
  {
    i < |messages| && (messages[i].message.Availability? || IsNew(messages, i))
  }

  ghost predicate IsLastUpdate(messages: seq<Timed>, i: nat)
  {
    Updates(messages, i) && forall j: nat :: i < j < |messages| ==> !Updates(messages, j)
  }

  lemma {:induction false} StretchExtends(messages: seq<Timed>, j: nat, boot: string)
    requires messages != []
    ensures var n, m := |messages| - 1, messages[|messages| - 1].message;
      InStretch(messages, j, boot) <==>
        (if j == n then m.Sampled? && m.reading.bootId == boot
         else InStretch(messages[..n], j, boot) && (BootNamed(m).Some? ==> BootNamed(m) == Some(boot)))
  {}

  /** The sequence number a boot's next sample must exceed is that of its greatest in the stretch. */
  lemma {:induction false} FloorExactly(messages: seq<Timed>, boot: string, seqNo: nat)
    ensures seqNo > SeqFloor(After(messages), boot)
       <==> forall j: nat :: InStretch(messages, j, boot) ==> messages[j].message.reading.seqNo < seqNo
    ensures forall j: nat :: InStretch(messages, j, boot) ==> After(messages).lastBootId == Some(boot)
    decreases |messages|
  {
    if messages != [] {
      var n, m := |messages| - 1, messages[|messages| - 1].message;
      FloorExactly(messages[..n], boot, seqNo);
      AlwaysHeldMatches(messages[..n]);
      forall j: nat
        ensures InStretch(messages, j, boot) <==>
          (if j == n then m.Sampled? && m.reading.bootId == boot
           else InStretch(messages[..n], j, boot) && (BootNamed(m).Some? ==> BootNamed(m) == Some(boot)))
      {
        StretchExtends(messages, j, boot);
      }
    }
  }

  lemma {:induction false} NewIsTaken(messages: seq<Timed>, i: nat)
    requires i < |messages| && messages[i].message.Sampled?
    ensures var r := messages[i].message.reading;
      IsNew(messages, i) <==> r.seqNo > SeqFloor(After(messages[..i]), r.bootId)
  {
    FloorExactly(messages[..i], messages[i].message.reading.bootId, messages[i].message.reading.seqNo);
  }

  lemma {:induction false} NewInPrefix(messages: seq<Timed>, n: nat, i: nat)
    requires i < n <= |messages|
    ensures IsNew(messages[..n], i) <==> IsNew(messages, i)
    ensures Updates(messages[..n], i) <==> Updates(messages, i)
  {
    assert messages[..n][..i] == messages[..i];
  }

  /** What the adapter does with the next message: it calls on_updated exactly when that updates it. */
  lemma {:induction false} NextUpdates(messages: seq<Timed>)
    requires messages != []
    ensures var n := |messages| - 1;
      var r := Receive(After(messages[..n]), messages[n].message, messages[n].now);
      && r.adapter == After(messages)
      && (r.updated <==> Updates(messages, n))
      && r.adapter.pressure ==
        if IsNew(messages, n)
        then PressureState(After(messages[..n]).pressure.online,
                           Some(Sample(messages[n].message.reading, messages[n].now)), messages[n].now)
        else if messages[n].message.Availability?
        then PressureState(messages[n].message.online, After(messages[..n]).pressure.lastSample, messages[n].now)
        else After(messages[..n]).pressure
  {
    if messages[|messages| - 1].message.Sampled? {
      NewIsTaken(messages, |messages| - 1);
    }
  }


  lemma {:induction false} OnlineExtends(messages: seq<Timed>)
    requires messages != []
    ensures var n, m := |messages| - 1, messages[|messages| - 1].message;
      SaysOnline(messages) <==> if m.Availability? then m.online else SaysOnline(messages[..n])
  {
    var n := |messages| - 1;
    if !messages[n].message.Availability? {
      if SaysOnline(messages) {
        var i :| 0 <= i < |messages| && messages[i].message.Availability? && messages[i].message.online
          && forall j :: i < j < |messages| ==> !messages[j].message.Availability?;
        assert messages[..n][i] == messages[i];
      }
      if SaysOnline(messages[..n]) {
        var i :| 0 <= i < n && messages[..n][i].message.Availability? && messages[..n][i].message.online
          && forall j :: i < j < n ==> !messages[..n][j].message.Availability?;
        assert forall j :: i < j < n ==> messages[..n][j] == messages[j];
      }
    }
  }

  ghost predicate HoldsLastNew(messages: seq<Timed>)
  {
    match After(messages).pressure.lastSample
    case None => forall i: nat :: !IsNew(messages, i)
    case Some(held) =>
      exists i: nat :: IsLastNew(messages, i) && held == Sample(messages[i].message.reading, messages[i].now)
  }

  ghost predicate DatesFromLastUpdate(messages: seq<Timed>)
  {
    var at := After(messages).pressure.updatedAtMs;
    if forall i: nat :: !Updates(messages, i) then at == 0
    else exists i: nat :: IsLastUpdate(messages, i) && at == messages[i].now
  }

  /** After any messages, what the adapter holds: whether the last availability message said online, the
      last new sample and when it came, and the time of the last message that changed any of it. */
  lemma {:induction false} HeldExactly(messages: seq<Timed>)
    ensures After(messages).pressure.online <==> SaysOnline(messages)
    ensures HoldsLastNew(messages)
    ensures DatesFromLastUpdate(messages)
    decreases |messages|
  {
    if messages != [] {
      var n := |messages| - 1;
      HeldExactly(messages[..n]);
      NextUpdates(messages);
      OnlineExtends(messages);
      forall i: nat | i < n
        ensures IsNew(messages[..n], i) <==> IsNew(messages, i)
        ensures Updates(messages[..n], i) <==> Updates(messages, i)
        ensures messages[..n][i] == messages[i]
      {
        NewInPrefix(messages, n, i);
      }
      HeldStep(messages);
      DateStep(messages);
    }
  }

  lemma {:induction false} HeldStep(messages: seq<Timed>)
    requires messages != [] && HoldsLastNew(messages[..|messages| - 1])
    requires forall i: nat :: i < |messages| - 1 ==> (IsNew(messages[..|messages| - 1], i) <==> IsNew(messages, i))
    ensures HoldsLastNew(messages)
  {
    var n := |messages| - 1;
    var before := messages[..n];
    NextUpdates(messages);
    if IsNew(messages, n) {
      assert IsLastNew(messages, n);
    } else if After(before).pressure.lastSample.Some? {
      var i: nat :| IsLastNew(before, i)
        && After(before).pressure.lastSample.value == Sample(before[i].message.reading, before[i].now);
      assert IsLastNew(messages, i) && before[i] == messages[i];
    }
  }

  lemma {:induction false} DateStep(messages: seq<Timed>)
    requires messages != [] && DatesFromLastUpdate(messages[..|messages| - 1])
    requires forall i: nat :: i < |messages| - 1 ==> (Updates(messages[..|messages| - 1], i) <==> Updates(messages, i))
    ensures DatesFromLastUpdate(messages)
  {
    var n := |messages| - 1;
    var before := messages[..n];
    NextUpdates(messages);
    if Updates(messages, n) {
      assert IsLastUpdate(messages, n);
    } else if exists i: nat :: Updates(before, i) {
      var i: nat :| IsLastUpdate(before, i) && After(before).pressure.updatedAtMs == before[i].now;
      assert IsLastUpdate(messages, i) && before[i] == messages[i];
    }
  }
}
