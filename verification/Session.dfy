/** The UART session and its first-in first-out deduplication cache (session.py). */
module Session {
  import opened Prelude

  datatype Key = Key(bootId: int, sequence: int, command: int)

  datatype Entry = Entry(digest: string, status: int, reply: bytes)

  /** One item of the cache; the cache lists its items oldest first, as a Python dict does. */
  datatype Item = Item(key: Key, entry: Entry)

  datatype Disposition =
    | Execute(key: Key, digest: string)
    | Replay(status: int, reply: bytes)
    | Conflict
    | InFlight
    | NewSession

  predicate HasKey(cache: seq<Item>, key: Key)
  {
    exists i :: 0 <= i < |cache| && cache[i].key == key
  }

  function Get(cache: seq<Item>, key: Key): (r: Option<Entry>)
    ensures r.Some? <==> HasKey(cache, key)
    ensures r.Some? ==> Item(key, r.value) in cache
  {
    if cache == [] then None
    else if cache[0].key == key then Some(cache[0].entry)
    else
      assert forall i :: 1 <= i < |cache| ==> cache[i] == cache[1..][i - 1];
      Get(cache[1..], key)
  }

  /** cache[key] = entry: an existing key keeps its place. */
  function Put(cache: seq<Item>, key: Key, entry: Entry): (r: seq<Item>)
    ensures !HasKey(cache, key) ==> r == cache + [Item(key, entry)]
  {
    if HasKey(cache, key) then
      seq(|cache|, i requires 0 <= i < |cache| => if cache[i].key == key then Item(key, entry) else cache[i])
    else
      cache + [Item(key, entry)]
  }

  datatype State = State(bootId: Option<int>, cache: seq<Item>, inFlight: set<Key>)

  function Fresh(): State
  {
    State(None, [], {})
  }

  function Reset(bootId: int): State
  {
    State(Some(bootId), [], {})
  }

  function Check(s: State, bootId: int, sequence: int, command: int, digest: string): (State, Disposition)
  {
    if s.bootId != Some(bootId) then (s, NewSession)
    else
      var key := Key(bootId, sequence, command);
      match Get(s.cache, key)
      case Some(e) => (s, if e.digest == digest then Replay(e.status, e.reply) else Conflict)
      case None =>
        if key in s.inFlight then (s, InFlight)
        else (s.(inFlight := s.inFlight + {key}), Execute(key, digest))
  }

  function Record(s: State, key: Key, entry: Entry, limit: nat): State
    requires limit > 0
  {
    var kept := if |s.cache| >= limit then s.cache[1..] else s.cache;
    s.(inFlight := s.inFlight - {key}, cache := Put(kept, key, entry))
  }

  function Cancel(s: State, key: Key): State
  {
    s.(inFlight := s.inFlight - {key})
  }

  /** A check says EXECUTE exactly for a key of the session that is neither cached nor in flight, and only
      then changes anything; cancelling takes that back. */
  lemma {:induction false} CancelUndoesCheck(s: State, bootId: int, sequence: int, command: int, digest: string)
    ensures var (checked, d) := Check(s, bootId, sequence, command, digest);
      var key := Key(bootId, sequence, command);
      && (d.NewSession? <==> s.bootId != Some(bootId))
      && (d.Execute? <==> s.bootId == Some(bootId) && !HasKey(s.cache, key) && key !in s.inFlight)
      && (d.Execute? ==> d.key == key)
      && if d.Execute? then Cancel(checked, d.key) == s && checked != s else checked == s
  {
    var key := Key(bootId, sequence, command);
    if key !in s.inFlight {
      assert s.inFlight + {key} - {key} == s.inFlight;
    }
  }

  lemma {:induction false} ReplacedGet(cache: seq<Item>, after: seq<Item>, key: Key, entry: Entry, other: Key)
    requires |after| == |cache|
    requires forall i :: 0 <= i < |cache| ==> after[i] == if cache[i].key == key then Item(key, entry) else cache[i]
    ensures Get(after, other) == if other == key && HasKey(cache, key) then Some(entry) else Get(cache, other)
    decreases |cache|
  {
    if cache != [] {
      ReplacedGet(cache[1..], after[1..], key, entry, other);
      assert HasKey(cache, key) <==> cache[0].key == key || HasKey(cache[1..], key);
    }
  }

  lemma {:induction false} AppendedGet(cache: seq<Item>, key: Key, entry: Entry, other: Key)
    requires !HasKey(cache, key)
    ensures Get(cache + [Item(key, entry)], other) == if other == key then Some(entry) else Get(cache, other)
    decreases |cache|
  {
    var after := cache + [Item(key, entry)];
    if cache != [] {
      assert after[1..] == cache[1..] + [Item(key, entry)];
      assert cache[0].key != key && forall i :: 0 <= i < |cache| - 1 ==> cache[1..][i] == cache[i + 1];
      AppendedGet(cache[1..], key, entry, other);
    }
  }

  /** Putting an entry under a key answers for that key and leaves every other answer as it was. */
  lemma {:induction false} PutThenGet(cache: seq<Item>, key: Key, entry: Entry, other: Key)
    ensures Get(Put(cache, key, entry), other) == if other == key then Some(entry) else Get(cache, other)
  {
    if HasKey(cache, key) {
      ReplacedGet(cache, Put(cache, key, entry), key, entry, other);
    } else {
      AppendedGet(cache, key, entry, other);
    }
  }

  class UartSession {
    const maxCacheSize: nat
    const digest: bytes -> string
    var bootId: Option<int>
    var cache: seq<Item>
    var inFlight: set<Key>

    constructor (maxCacheSize: nat, digest: bytes -> string)
      ensures View() == Fresh() && this.maxCacheSize == maxCacheSize && this.digest == digest
    {
      this.maxCacheSize := maxCacheSize;
      this.digest := digest;
      bootId := None;
      cache := [];
      inFlight := {};
    }

    function View(): State
      reads this
    {
      State(bootId, cache, inFlight)
    }

    method ResetTo(newBootId: int)
      modifies this
      ensures View() == Reset(newBootId)
    {
      bootId := Some(newBootId);
      cache := [];
      inFlight := {};
    }

    method CheckAction(boot: int, sequence: int, command: int, payload: bytes) returns (d: Disposition)
      modifies this`inFlight
      ensures (View(), d) == Check(old(View()), boot, sequence, command, digest(payload))
    {
      if Some(boot) != bootId {
        return NewSession;
      }
      var key := Key(boot, sequence, command);
      var summary := digest(payload);
      var existing := Get(cache, key);
      if existing.Some? {
        if existing.value.digest == summary {
          return Replay(existing.value.status, existing.value.reply);
        } else {
          return Conflict;
        }
      }
      if key in inFlight {
        return InFlight;
      }
      inFlight := inFlight + {key};
      return Execute(key, summary);
    }

    method RecordResult(key: Key, summary: string, status: int, reply: bytes)
      requires maxCacheSize > 0
      modifies this`inFlight, this`cache
      ensures View() == Record(old(View()), key, Entry(summary, status, reply), maxCacheSize)
    {
      inFlight := inFlight - {key};
      if |cache| >= maxCacheSize {
        cache := cache[1..];
      }
      cache := Put(cache, key, Entry(summary, status, reply));
    }

    method CancelInFlight(key: Key)
      modifies this`inFlight
      ensures View() == Cancel(old(View()), key)
    {
      inFlight := inFlight - {key};
    }
  }
}
