/** The MQTT command handler and its expiring reply cache (command_handler.py). */
module MqttCommands {
  import opened Prelude

  const RETRY_WINDOW_MS := 60_000

  /** A command that parsed and whose reply topic is its sender's own. */
  datatype Envelope = Envelope(requestId: string, clientId: string, replyTo: string, sentAtMs: int,
                               ttlMs: int, command: string, args: string)

  datatype Reply = Reply(requestId: string, ok: bool, code: string, message: string,
                         revision: int, repliedAtMs: int, data: string)

  datatype Cached = Cached(digest: string, reply: Reply, expiresAtMs: int)

  type Cache = map<string, Cached>

  /** What dispatching the command does: an answer, or an exception. */
  datatype Effect = Done(ok: bool, code: string, message: string, data: string) | Raised

  /** One message taken from the broker: what it parses to, the clock when it is handled and when
      it is answered, the revision then, and what dispatching it would do. */
  datatype Delivery = Delivery(envelope: Option<Envelope>, now: int, later: int, revision: int, effect: Effect)

  datatype Outcome =
    | Rejected
    | Expired(envelope: Envelope, reply: Reply)
    | Conflicted(envelope: Envelope, reply: Reply)
    | Repeated(envelope: Envelope, reply: Reply)
    | Completed(envelope: Envelope, reply: Reply)
    | Failed(envelope: Envelope)

  function ExpiryOf(e: Envelope): int
  {
    e.sentAtMs + e.ttlMs
  }

  function MakeReply(e: Envelope, ok: bool, code: string, message: string, d: Delivery, data: string): Reply
  {
    Reply(e.requestId, ok, code, message, d.revision, d.later, data)
  }

  function Evict(cache: Cache, now: int): Cache
  {
    map id | id in cache && now <= cache[id].expiresAtMs :: cache[id]
  }

  datatype Step = Step(cache: Cache, outcome: Outcome)

  function Handle(cache: Cache, d: Delivery, digest: Envelope -> string): Step
  {
    match d.envelope
    case None => Step(cache, Rejected)
    case Some(e) =>
      if d.now > ExpiryOf(e) then
        Step(cache, Expired(e, MakeReply(e, false, "expired", "command has expired", d, "")))
      else if e.requestId in cache && d.now <= cache[e.requestId].expiresAtMs then
        var entry := cache[e.requestId];
        if entry.digest != digest(e) then
          Step(cache, Conflicted(e, MakeReply(e, false, "state_conflict",
                                              "request_id was already used for a different command", d, "")))
        else Step(cache, Repeated(e, entry.reply))
      else
        var kept := Evict(cache, d.now);
        match d.effect
        case Raised => Step(kept, Failed(e))
        case Done(ok, code, message, data) =>
          var reply := MakeReply(e, ok, code, message, d, data);
          Step(kept[e.requestId := Cached(digest(e), reply, ExpiryOf(e) + RETRY_WINDOW_MS)], Completed(e, reply))
  }

  class MqttCommandHandler {
    const digest: Envelope -> string
    var cache: Cache

    constructor (digest: Envelope -> string)
      ensures cache == map[] && this.digest == digest
    {
      this.digest := digest;
      cache := map[];
    }

    method EvictCache(now: int)
      modifies this
      ensures cache == Evict(old(cache), now)
    {
      var expired := set id | id in cache && now > cache[id].expiresAtMs;
      while expired != {}
        invariant expired <= cache.Keys
        invariant forall id :: id in cache ==> id in old(cache) && cache[id] == old(cache[id])
        invariant forall id :: id in old(cache) ==>
          if now <= old(cache[id]).expiresAtMs then id in cache && id !in expired else id in cache <==> id in expired
        decreases expired
      {
        var id :| id in expired;
        expired := expired - {id};
        cache := cache - {id};
      }
    }

    method HandleMessage(d: Delivery) returns (outcome: Outcome)
      modifies this
      ensures Step(cache, outcome) == Handle(old(cache), d, digest)
    {
      if d.envelope.None? {
        return Rejected;
      }
      var e := d.envelope.value;
      if d.now > e.sentAtMs + e.ttlMs {
        return Expired(e, MakeReply(e, false, "expired", "command has expired", d, ""));
      }
      var summary := digest(e);
      if e.requestId in cache {
        var cached := cache[e.requestId];
        if d.now <= cached.expiresAtMs {
          if cached.digest != summary {
            return Conflicted(e, MakeReply(e, false, "state_conflict",
                                           "request_id was already used for a different command", d, ""));
          }
          return Repeated(e, cached.reply);
        }
      }
      EvictCache(d.now);
      if d.effect.Raised? {
        return Failed(e);
      }
      var reply := MakeReply(e, d.effect.ok, d.effect.code, d.effect.message, d, d.effect.data);
      cache := cache[e.requestId := Cached(summary, reply, e.sentAtMs + e.ttlMs + RETRY_WINDOW_MS)];
      return Completed(e, reply);
    }
  }

  // ----- Whole runs -----

  datatype Run = Run(cache: Cache, outcomes: seq<Outcome>)

  function Play(deliveries: seq<Delivery>, digest: Envelope -> string): (r: Run)
    ensures |r.outcomes| == |deliveries|
    decreases |deliveries|
  {
    if deliveries == [] then Run(map[], [])
    else
      var n := |deliveries| - 1;
      var before := Play(deliveries[..n], digest);
      var step := Handle(before.cache, deliveries[n], digest);
      Run(step.cache, before.outcomes + [step.outcome])
  }

  /** Messages are handled one after another under a clock that never goes back. */
  ghost predicate ClockRuns(deliveries: seq<Delivery>)
  {
    forall i, j :: 0 <= i < j < |deliveries| ==> deliveries[i].now <= deliveries[j].now
  }

  /** A completed command is still cached, or its entry's time has passed. */
  ghost predicate Remembered(cache: Cache, o: Outcome, now: int, digest: Envelope -> string)
  {
    o.Completed? ==>
      var expiry := o.envelope.sentAtMs + o.envelope.ttlMs + 60_000;
      now > expiry ||
      (o.envelope.requestId in cache && cache[o.envelope.requestId] == Cached(digest(o.envelope), o.reply, expiry))
  }

  lemma {:induction false} HandleRemembers(cache: Cache, o: Outcome, before: int, d: Delivery,
                                           digest: Envelope -> string)
    requires Remembered(cache, o, before, digest) && before <= d.now
    ensures Remembered(Handle(cache, d, digest).cache, o, d.now, digest)
  {}

  lemma {:induction false} CompletionRemembered(cache: Cache, d: Delivery, digest: Envelope -> string)
    ensures Remembered(Handle(cache, d, digest).cache, Handle(cache, d, digest).outcome, d.now, digest)
  {}

  /** At every moment of a run, every command completed so far is remembered. */
  lemma {:induction false} AllRemembered(deliveries: seq<Delivery>, i: nat, digest: Envelope -> string)
    requires ClockRuns(deliveries) && i < |deliveries|
    ensures var r := Play(deliveries, digest);
      Remembered(r.cache, r.outcomes[i], deliveries[|deliveries| - 1].now, digest)
    decreases |deliveries|
  {
    var n := |deliveries| - 1;
    var before := Play(deliveries[..n], digest);
    if i == n {
      CompletionRemembered(before.cache, deliveries[n], digest);
    } else {
      AllRemembered(deliveries[..n], i, digest);
      HandleRemembers(before.cache, before.outcomes[i], deliveries[n - 1].now, deliveries[n], digest);
    }
  }

  lemma {:induction false} ClockStops(deliveries: seq<Delivery>, d: Delivery)
    requires ClockRuns(deliveries + [d])
    ensures ClockRuns(deliveries)
    ensures deliveries != [] ==> deliveries[|deliveries| - 1].now <= d.now
  {
    var all, n := deliveries + [d], |deliveries|;
    forall p, q | 0 <= p < q < n
      ensures deliveries[p].now <= deliveries[q].now
    {
      assert all[p] == deliveries[p] && all[q] == deliveries[q] && all[p].now <= all[q].now;
    }
    if n > 0 {
      assert all[n - 1] == deliveries[n - 1] && all[n - 1].now <= all[n].now;
    }
  }

  /** A command whose time to live has not run out. */
  predicate Lives(e: Envelope, now: int)
  {
    now <= e.sentAtMs + e.ttlMs
  }

  /** A completed command whose entry still counts for this request id: a minute beyond its own life. */
  predicate Counts(o: Outcome, requestId: string, now: int)
  {
    o.Completed? && o.envelope.requestId == requestId && now <= o.envelope.sentAtMs + o.envelope.ttlMs + 60_000
  }

  /** What a live command under a completed command's request id meets while that one's entry counts:
      the stored reply if it is the same command, a refusal if it is another, and either way no
      execution and no change to the cache. */
  lemma {:induction false} CompletedDecides(deliveries: seq<Delivery>, i: nat, d: Delivery, digest: Envelope -> string)
    requires ClockRuns(deliveries + [d]) && i < |deliveries| && d.envelope.Some?
    requires Counts(Play(deliveries, digest).outcomes[i], d.envelope.value.requestId, d.now)
    requires Lives(d.envelope.value, d.now)
    ensures var r := Play(deliveries, digest);
      var e, o := d.envelope.value, r.outcomes[i];
      var step := Handle(r.cache, d, digest);
      && step.cache == r.cache
      && if digest(e) == digest(o.envelope) then step.outcome == Repeated(e, o.reply)
         else step.outcome.Conflicted? && step.outcome.reply.code == "state_conflict"
  {
    ClockStops(deliveries, d);
    AllRemembered(deliveries, i, digest);
  }

  /** What a redelivery of a completed envelope meets, at any later time: the stored reply while the
      command lives, "expired" from then on, and no change to the cache either way. */
  lemma {:induction false} RedeliveryAnswered(deliveries: seq<Delivery>, i: nat, d: Delivery,
                                              digest: Envelope -> string)
    requires ClockRuns(deliveries + [d]) && i < |deliveries|
    requires Play(deliveries, digest).outcomes[i].Completed?
    requires d.envelope == Some(Play(deliveries, digest).outcomes[i].envelope)
    ensures var r := Play(deliveries, digest);
      var e := d.envelope.value;
      var step := Handle(r.cache, d, digest);
      && step.cache == r.cache
      && (Lives(e, d.now) ==> step.outcome == Repeated(e, r.outcomes[i].reply))
      && (!Lives(e, d.now) ==> step.outcome.Expired? && step.outcome.reply.code == "expired")
  {
    if Lives(d.envelope.value, d.now) {
      CompletedDecides(deliveries, i, d, digest);
    }
  }

  /** Some completed command's entry counts for a request id. */
  ghost predicate Taken(outcomes: seq<Outcome>, requestId: string, now: int)
  {
    exists i :: 0 <= i < |outcomes| && Counts(outcomes[i], requestId, now)
  }

  lemma {:induction false} TakenGrows(outcomes: seq<Outcome>, o: Outcome, requestId: string, now: int)
    ensures Taken(outcomes + [o], requestId, now) <==> Taken(outcomes, requestId, now) || Counts(o, requestId, now)
  {
    var more, n := outcomes + [o], |outcomes|;
    assert more[n] == o && forall i :: 0 <= i < n ==> more[i] == outcomes[i];
    if Taken(outcomes, requestId, now) {
      var i :| 0 <= i < n && Counts(outcomes[i], requestId, now);
      assert Counts(more[i], requestId, now);
    }
  }

  /** Every entry that still counts was left by a completed command. */
  lemma {:induction false} EntriesHaveOrigin(deliveries: seq<Delivery>, requestId: string, now: int,
                                             digest: Envelope -> string)
    requires var cache := Play(deliveries, digest).cache; requestId in cache && now <= cache[requestId].expiresAtMs
    ensures Taken(Play(deliveries, digest).outcomes, requestId, now)
    decreases |deliveries|
  {
    var n := |deliveries| - 1;
    var before := Play(deliveries[..n], digest);
    var step := Handle(before.cache, deliveries[n], digest);
    TakenGrows(before.outcomes, step.outcome, requestId, now);
    if !Counts(step.outcome, requestId, now) {
      EntriesHaveOrigin(deliveries[..n], requestId, now, digest);
    }
  }

  /** After any run a command is dispatched if and only if it lives and no completed command's entry
      counts for its request id. */
  lemma {:induction false} DispatchedExactly(deliveries: seq<Delivery>, d: Delivery, digest: Envelope -> string)
    requires ClockRuns(deliveries + [d]) && d.envelope.Some?
    ensures var r := Play(deliveries, digest);
      var e, o := d.envelope.value, Handle(r.cache, d, digest).outcome;
      o.Completed? || o.Failed? <==> Lives(e, d.now) && !Taken(r.outcomes, e.requestId, d.now)
  {
    var r, e := Play(deliveries, digest), d.envelope.value;
    if e.requestId in r.cache && d.now <= r.cache[e.requestId].expiresAtMs {
      EntriesHaveOrigin(deliveries, e.requestId, d.now, digest);
    } else if Lives(e, d.now) && Taken(r.outcomes, e.requestId, d.now) {
      var i: nat :| i < |r.outcomes| && Counts(r.outcomes[i], e.requestId, d.now);
      CompletedDecides(deliveries, i, d, digest);
    }
  }

  lemma {:induction false} PlayPrefix(deliveries: seq<Delivery>, n: nat, digest: Envelope -> string)
    requires n <= |deliveries|
    ensures Play(deliveries, digest).outcomes[..n] == Play(deliveries[..n], digest).outcomes
    decreases |deliveries|
  {
    if n == |deliveries| {
      assert deliveries[..n] == deliveries;
    } else {
      var before := deliveries[..|deliveries| - 1];
      PlayPrefix(before, n, digest);
      assert before[..n] == deliveries[..n];
    }
  }

  lemma {:induction false} OutcomeAt(deliveries: seq<Delivery>, j: nat, digest: Envelope -> string)
    requires j < |deliveries|
    ensures Play(deliveries, digest).outcomes[j]
         == Handle(Play(deliveries[..j], digest).cache, deliveries[j], digest).outcome
  {
    PlayPrefix(deliveries, j + 1, digest);
    assert Play(deliveries, digest).outcomes[j] == Play(deliveries, digest).outcomes[..j + 1][j];
    assert deliveries[..j + 1][..j] == deliveries[..j];
  }

  lemma {:induction false} UpTo(deliveries: seq<Delivery>, i: nat, j: nat, digest: Envelope -> string)
    requires ClockRuns(deliveries) && i < j < |deliveries|
    ensures ClockRuns(deliveries[..j] + [deliveries[j]])
    ensures Play(deliveries[..j], digest).outcomes[i] == Play(deliveries, digest).outcomes[i]
    ensures Play(deliveries, digest).outcomes[j]
         == Handle(Play(deliveries[..j], digest).cache, deliveries[j], digest).outcome
  {
    PlayPrefix(deliveries, j, digest);
    assert Play(deliveries, digest).outcomes[i] == Play(deliveries, digest).outcomes[..j][i];
    assert deliveries[..j] + [deliveries[j]] == deliveries[..j + 1];
    OutcomeAt(deliveries, j, digest);
  }

  /** In a run of any length, whatever the cache has dropped, a later delivery under a completed
      command's request id is answered without execution while that command's entry counts. */
  lemma {:induction false} LaterDeliveryDecided(deliveries: seq<Delivery>, i: nat, j: nat, digest: Envelope -> string)
    requires ClockRuns(deliveries) && i < j < |deliveries| && deliveries[j].envelope.Some?
    requires Counts(Play(deliveries, digest).outcomes[i], deliveries[j].envelope.value.requestId, deliveries[j].now)
    ensures var o, e := Play(deliveries, digest).outcomes, deliveries[j].envelope.value;
      if !Lives(e, deliveries[j].now) then o[j].Expired?
      else if digest(e) == digest(o[i].envelope) then o[j] == Repeated(e, o[i].reply)
      else o[j].Conflicted?
  {
    UpTo(deliveries, i, j, digest);
    if Lives(deliveries[j].envelope.value, deliveries[j].now) {
      CompletedDecides(deliveries[..j], i, deliveries[j], digest);
    }
  }

  /** One envelope completes at most once in a run of any length: every later delivery of it is
      answered from the cache or as expired. */
  lemma {:induction false} CompletesAtMostOnce(deliveries: seq<Delivery>, i: nat, j: nat, digest: Envelope -> string)
    requires ClockRuns(deliveries) && i < j < |deliveries|
    requires var o := Play(deliveries, digest).outcomes;
      o[i].Completed? && deliveries[j].envelope == Some(o[i].envelope)
    ensures var o := Play(deliveries, digest).outcomes;
      && (Lives(o[i].envelope, deliveries[j].now) ==> o[j] == Repeated(o[i].envelope, o[i].reply))
      && (!Lives(o[i].envelope, deliveries[j].now) ==> o[j].Expired?)
  {
    UpTo(deliveries, i, j, digest);
    RedeliveryAnswered(deliveries[..j], i, deliveries[j], digest);
  }

  /** After a delivery was dispatched the cache has an entry exactly for the request ids that a completed
      command's entry counts for: nothing is forgotten early, and nothing is kept late. */
  lemma {:induction false} CacheExactly(deliveries: seq<Delivery>, id: string, digest: Envelope -> string)
    requires ClockRuns(deliveries) && deliveries != []
    requires var o := Play(deliveries, digest).outcomes[|deliveries| - 1]; o.Completed? || o.Failed?
    ensures var r := Play(deliveries, digest);
      id in r.cache <==> Taken(r.outcomes, id, deliveries[|deliveries| - 1].now)
  {
    var r, now := Play(deliveries, digest), deliveries[|deliveries| - 1].now;
    if id in r.cache {
      var i := EntryExplained(deliveries, id, digest);
      assert Counts(r.outcomes[i], id, now);
    }
    if Taken(r.outcomes, id, now) {
      var i: nat :| i < |r.outcomes| && Counts(r.outcomes[i], id, now);
      AllRemembered(deliveries, i, digest);
    }
  }

  // ----- What every reply says -----

  /** The reply to a command that is not repeated, field by field. */
  ghost predicate Says(reply: Reply, e: Envelope, d: Delivery, ok: bool, code: string, message: string, data: string)
  {
    && reply.requestId == e.requestId && reply.ok == ok && reply.code == code
    && reply.message == message && reply.data == data
    && reply.revision == d.revision && reply.repliedAtMs == d.later
  }

  /** A completed delivery of the same command under the same request id, which got this reply. */
  ghost predicate WasCompleted(outcomes: seq<Outcome>, e: Envelope, reply: Reply, digest: Envelope -> string)
  {
    exists i :: 0 <= i < |outcomes| && outcomes[i].Completed? && outcomes[i].reply == reply
      && outcomes[i].envelope.requestId == e.requestId && digest(outcomes[i].envelope) == digest(e)
  }

  /** What a delivery's outcome tells its sender, given the outcomes before it. */
  ghost predicate OutcomeTells(o: Outcome, d: Delivery, before: seq<Outcome>, digest: Envelope -> string)
  {
    match o
    case Rejected => d.envelope == None
    case Expired(e, reply) =>
      d.envelope == Some(e) && !Lives(e, d.now) && Says(reply, e, d, false, "expired", "command has expired", "")
    case Conflicted(e, reply) =>
      && d.envelope == Some(e) && Lives(e, d.now)
      && Says(reply, e, d, false, "state_conflict", "request_id was already used for a different command", "")
    case Repeated(e, reply) =>
      d.envelope == Some(e) && Lives(e, d.now) && WasCompleted(before, e, reply, digest)
    case Completed(e, reply) =>
      && d.envelope == Some(e) && Lives(e, d.now) && d.effect.Done?
      && Says(reply, e, d, d.effect.ok, d.effect.code, d.effect.message, d.effect.data)
    case Failed(e) => d.envelope == Some(e) && Lives(e, d.now) && d.effect.Raised?
  }

  /** An entry was left by a completed command: its digest, its reply, and a minute beyond its life. */
  ghost predicate Explains(o: Outcome, id: string, entry: Cached, digest: Envelope -> string)
  {
    o.Completed? && o.envelope.requestId == id
    && entry == Cached(digest(o.envelope), o.reply, o.envelope.sentAtMs + o.envelope.ttlMs + 60_000)
  }

  lemma {:induction false} EntryExplained(deliveries: seq<Delivery>, id: string, digest: Envelope -> string)
    returns (i: nat)
    requires id in Play(deliveries, digest).cache
    ensures var r := Play(deliveries, digest);
      i < |r.outcomes| && Explains(r.outcomes[i], id, r.cache[id], digest)
    decreases |deliveries|
  {
    var n := |deliveries| - 1;
    var before := Play(deliveries[..n], digest);
    var step := Handle(before.cache, deliveries[n], digest);
    if step.outcome.Completed? && step.outcome.envelope.requestId == id {
      i := n;
    } else {
      i := EntryExplained(deliveries[..n], id, digest);
      assert Play(deliveries, digest).outcomes[i] == before.outcomes[i];
    }
  }

  lemma {:induction false} StepTells(cache: Cache, d: Delivery, before: seq<Outcome>, digest: Envelope -> string)
    requires Handle(cache, d, digest).outcome.Repeated? ==>
      var o := Handle(cache, d, digest).outcome; WasCompleted(before, o.envelope, o.reply, digest)
    ensures OutcomeTells(Handle(cache, d, digest).outcome, d, before, digest)
  {}

  /** In every run, whatever happens to a delivery, its sender is told so field by field: a reply carries
      the request's id, and ok, code, message and data are the effect's own for a completed command and a
      refusal's otherwise; a repeated reply is one that an earlier completion of the command got. */
  lemma {:induction false} EveryOutcomeTells(deliveries: seq<Delivery>, j: nat, digest: Envelope -> string)
    requires j < |deliveries|
    ensures var o := Play(deliveries, digest).outcomes; OutcomeTells(o[j], deliveries[j], o[..j], digest)
  {
    var before, d := Play(deliveries[..j], digest), deliveries[j];
    OutcomeAt(deliveries, j, digest);
    PlayPrefix(deliveries, j, digest);
    var o := Handle(before.cache, d, digest).outcome;
    if o.Repeated? {
      var i := EntryExplained(deliveries[..j], o.envelope.requestId, digest);
      assert before.outcomes[i].reply == o.reply;
    }
    StepTells(before.cache, d, before.outcomes, digest);
  }
}
