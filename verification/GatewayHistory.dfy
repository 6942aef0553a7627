/** What the gateway did with every frame, told from the frames, the handler's answers and what it did before. */
module GatewayHistory {
  import opened Prelude
  import opened Protocol
  import opened Session
  import opened Gateway

  predicate IsRequest(f: Frame, command: int)
  {
    f.flags / 2 % 2 == 0 && f.command == command
  }

  /** A hello long enough to name its boot, at payload bytes 3 to 6. */
  predicate NamesBoot(f: Frame)
  {
    IsRequest(f, 0x0001) && |f.payload| >= 11
  }

  /** The boot named by the latest such hello. */
  function LatestBoot(arrivals: seq<Arrival>): Option<int>
    decreases |arrivals|
  {
    if arrivals == [] then None
    else
      var f := arrivals[|arrivals| - 1].frame;
      if NamesBoot(f) then Some(Read32(f.payload, 3)) else LatestBoot(arrivals[..|arrivals| - 1])
  }

  /** Arrival k is a hello of another boot than the latest hello before it. */
  predicate ChangesBoot(arrivals: seq<Arrival>, k: nat)
    requires k < |arrivals|
  {
    var f := arrivals[k].frame;
    NamesBoot(f) && LatestBoot(arrivals[..k]) != Some(Read32(f.payload, 3))
  }

  lemma {:induction false} HelloStep(s: State, a: Arrival, digest: bytes -> string, limit: nat)
    requires limit > 0
    ensures var step, f := Dispatch(s, a, digest, limit), a.frame;
      && (NamesBoot(f) && s.bootId != Some(Read32(f.payload, 3)) ==>
            && step.report == SessionStarted(Read32(f.payload, 3))
            && step.session == State(Some(Read32(f.payload, 3)), [], {}))
      && (NamesBoot(f) && s.bootId == Some(Read32(f.payload, 3)) ==> step.report == SessionKept && step.session == s)
      && (!NamesBoot(f) ==>
            && !step.report.SessionStarted? && step.report != SessionKept && step.session.bootId == s.bootId)
  {}

  /** The session's boot is the one the latest hello names. */
  lemma {:induction false} BootIsLatest(arrivals: seq<Arrival>, digest: bytes -> string, limit: nat)
    requires limit > 0
    ensures Play(arrivals, digest, limit).session.bootId == LatestBoot(arrivals)
    decreases |arrivals|
  {
    if arrivals != [] {
      var n := |arrivals| - 1;
      BootIsLatest(arrivals[..n], digest, limit);
      HelloStep(Play(arrivals[..n], digest, limit).session, arrivals[n], digest, limit);
    }
  }

  /** A session starts exactly at a hello of another boot than the latest. */
  lemma {:induction false} SessionsOnFrames(arrivals: seq<Arrival>, k: nat, digest: bytes -> string, limit: nat)
    requires limit > 0 && k < |arrivals|
    ensures var report := Play(arrivals, digest, limit).log[k];
      && (report.SessionStarted? <==> ChangesBoot(arrivals, k))
      && (report.SessionStarted? ==> report.bootId == Read32(arrivals[k].frame.payload, 3))
  {
    PlayedAt(arrivals, k, digest, limit);
    BootIsLatest(arrivals[..k], digest, limit);
    HelloStep(Play(arrivals[..k], digest, limit).session, arrivals[k], digest, limit);
  }

  /** Any other arrival, a repeated hello too, keeps every result recorded in the session and adds at most
      one. */
  lemma {:induction false} RecordsKept(arrivals: seq<Arrival>, k: nat, digest: bytes -> string, limit: nat)
    requires limit > 0 && k < |arrivals|
    ensures var log := Play(arrivals, digest, limit).log;
      Records(log[..k + 1]) ==
        if ChangesBoot(arrivals, k) then []
        else Records(log[..k]) + (if log[k].Executed? then [Item(log[k].key, log[k].entry)] else [])
  {
    var log := Play(arrivals, digest, limit).log;
    SessionsOnFrames(arrivals, k, digest, limit);
    assert log[..k + 1][..k] == log[..k];
  }

  /** At any moment of a run the cache holds the last of them. */
  lemma {:induction false} CacheHoldsLast(arrivals: seq<Arrival>, k: nat, digest: bytes -> string, limit: nat)
    requires limit > 0 && k <= |arrivals|
    ensures Play(arrivals[..k], digest, limit).session.cache
         == LastOf(Records(Play(arrivals, digest, limit).log[..k]), limit)
  {
    PrefixLog(arrivals, k, digest, limit);
    CacheIsWindow(arrivals[..k], digest, limit);
  }

  lemma {:induction false} PrefixLog(arrivals: seq<Arrival>, n: nat, digest: bytes -> string, limit: nat)
    requires limit > 0 && n <= |arrivals|
    ensures Play(arrivals, digest, limit).log[..n] == Play(arrivals[..n], digest, limit).log
  {
    if n < |arrivals| {
      PlayedAt(arrivals, n, digest, limit);
    } else {
      assert arrivals[..n] == arrivals;
    }
  }

  // ----- Every report -----

  /** The key of a UI action in the session of a boot. */
  function KeyOf(boot: int, f: Frame): Key
  {
    Key(boot, f.sequence, f.command)
  }

  /** What a UI action with a known key meets, given what was reported before it. */
  ghost predicate ActionTells(report: Report, a: Arrival, key: Key, log: seq<Report>,
                              digest: bytes -> string, limit: nat)
  {
    var window := LastOf(Records(log), limit);
    && (key in Stuck(log) ==> report == Busy(key))
    && (key !in Stuck(log) && !HasKey(window, key) ==>
          report == match a.answer
                    case Raises => HandlerRaised(key)
                    case Answer(status, reply) => Executed(key, Entry(digest(a.frame.payload), status, reply)))
    && (forall item :: item in window && item.key == key ==>
          report == if item.entry.digest == digest(a.frame.payload) then Replayed(key, item.entry) else Conflicted(key))
  }

  /** What was done with arrival k, given what was reported before it. */
  ghost predicate ReportTells(report: Report, arrivals: seq<Arrival>, k: nat, log: seq<Report>,
                              digest: bytes -> string, limit: nat)
    requires k < |arrivals|
  {
    var f, boot := arrivals[k].frame, LatestBoot(arrivals[..k]);
    if IsRequest(f, 0x0001) then
      report == if |f.payload| < 11 then Refused(0x0004)
                else if ChangesBoot(arrivals, k) then SessionStarted(Read32(f.payload, 3)) else SessionKept
    else if IsRequest(f, 0x2001) then
      if |f.payload| < 11 then report == Refused(0x0003)
      else match boot
        case None => report == Refused(0x0006)
        case Some(b) => ActionTells(report, arrivals[k], KeyOf(b, f), log, digest, limit)
    else report == Ignored
  }

  lemma {:induction false} ActionStep(s: State, a: Arrival, log: seq<Report>, digest: bytes -> string, limit: nat)
    requires limit > 0 && Window(s, log, limit) && s.bootId.Some?
    requires IsRequest(a.frame, 0x2001) && |a.frame.payload| >= 11
    ensures ActionTells(Dispatch(s, a, digest, limit).report, a, KeyOf(s.bootId.value, a.frame), log, digest, limit)
  {
    var key := KeyOf(s.bootId.value, a.frame);
    assert IsUiAction(a.frame);
    if HasKey(s.cache, key) {
      var entry := Get(s.cache, key).value;
      HitDecides(s, a, key, entry, digest, limit);
      forall item | item in s.cache && item.key == key
        ensures item.entry == entry
      {
        DistinctGet(s.cache, item);
      }
      NotInBoth(s, key);
    } else {
      MissDecides(s, a, key, digest, limit);
      forall item | item in s.cache
        ensures item.key != key
      {
        if item.key == key {
          NotCached(s.cache, item);
        }
      }
    }
  }

  lemma {:induction false} OtherStep(s: State, a: Arrival, digest: bytes -> string, limit: nat)
    requires limit > 0
    ensures var report, f := Dispatch(s, a, digest, limit).report, a.frame;
      && (IsRequest(f, 0x0001) && |f.payload| < 11 ==> report == Refused(0x0004))
      && (IsRequest(f, 0x2001) && |f.payload| < 11 ==> report == Refused(0x0003))
      && (IsRequest(f, 0x2001) && |f.payload| >= 11 && s.bootId == None ==> report == Refused(0x0006))
      && (!IsRequest(f, 0x0001) && !IsRequest(f, 0x2001) ==> report == Ignored)
  {}

  /** In every run every report is the one its frame, the latest hello, the handler and the reports
      before it call for. */
  lemma {:induction false} EveryReport(arrivals: seq<Arrival>, k: nat, digest: bytes -> string, limit: nat)
    requires limit > 0 && k < |arrivals|
    ensures var log := Play(arrivals, digest, limit).log; ReportTells(log[k], arrivals, k, log[..k], digest, limit)
  {
    var s, a := Play(arrivals[..k], digest, limit).session, arrivals[k];
    PlayedAt(arrivals, k, digest, limit);
    CacheIsWindow(arrivals[..k], digest, limit);
    BootIsLatest(arrivals[..k], digest, limit);
    HelloStep(s, a, digest, limit);
    OtherStep(s, a, digest, limit);
    if IsRequest(a.frame, 0x2001) && |a.frame.payload| >= 11 && s.bootId.Some? {
      ActionStep(s, a, Play(arrivals[..k], digest, limit).log, digest, limit);
    }
  }

  /** As long as every hello is of the boot it started with, a session goes on, and an executed UI action
      sent again is replayed until `limit` other results were recorded. */
  lemma {:induction false} HellosKeepReplay(arrivals: seq<Arrival>, i: nat, again: Arrival,
                                            digest: bytes -> string, limit: nat)
    requires limit > 0 && i < |arrivals| && IsUiAction(again.frame)
    requires var log := Play(arrivals, digest, limit).log;
      && log[i].Executed? && NeverRan(log[i + 1..], log[i].key)
      && |Results(log[i + 1..])| < limit && digest(again.frame.payload) == log[i].entry.digest
      && again.frame.sequence == log[i].key.sequence && again.frame.command == log[i].key.command
    requires forall k :: i < k < |arrivals| ==> !ChangesBoot(arrivals, k)
    ensures var r := Play(arrivals, digest, limit);
      var step := Dispatch(r.session, again, digest, limit);
      step.report == Replayed(r.log[i].key, r.log[i].entry) && step.session == r.session
  {
    var log := Play(arrivals, digest, limit).log;
    forall k | i < k < |arrivals|
      ensures !log[k].SessionStarted?
    {
      SessionsOnFrames(arrivals, k, digest, limit);
    }
    assert OneSession(log[i + 1..]);
    WindowDecides(arrivals, i, again, digest, limit);
  }
}
