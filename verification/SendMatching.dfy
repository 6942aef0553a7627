/** Requests in flight: sequence numbers, the pending table and its futures (gateway.py, send). */
module SendMatching {
  import opened Prelude
  import opened Protocol

  const SLOTS := 65535

  // ----- Sequence numbers -----

  function NextSequence(sequence: int): int
  {
    sequence % SLOTS + 1
  }

  /** The sequence number after n allocations by a new gateway. */
  function Nth(n: nat): int
  {
    if n == 0 then 0 else NextSequence(Nth(n - 1))
  }

  lemma {:induction false} ModSuccessor(a: int)
    ensures (a % SLOTS + 1) % SLOTS == (a + 1) % SLOTS
  {}

  lemma {:induction false} ModCongruent(a: int, b: int)
    ensures a % SLOTS == b % SLOTS <==> (b - a) % SLOTS == 0
  {}

  lemma {:induction false} NthValue(n: nat)
    ensures Nth(n) == if n == 0 then 0 else (n - 1) % SLOTS + 1
    decreases n
  {
    if n > 1 {
      NthValue(n - 1);
      ModSuccessor(n - 2);
    }
  }

  /** Sequence numbers stay in 1..65535 and repeat exactly every 65535 allocations. */
  lemma {:induction false} SequencesRepeat(i: nat, j: nat)
    requires 0 < i <= j
    ensures 1 <= Nth(i) <= SLOTS
    ensures Nth(i) == Nth(j) <==> (j - i) % SLOTS == 0
  {
    NthValue(i);
    NthValue(j);
    ModCongruent(i - 1, j - 1);
  }

  // ----- Sends, responses and timeouts, one await-free stretch at a time -----

  /** The future of one attempt of one send. */
  datatype Future = Future(id: int, attempt: nat)

  /** A send awaiting its answer; serial counts allocations up to its own. */
  datatype Send = Send(serial: nat, sequence: int, attempt: nat, answer: Option<Frame>)

  datatype Link = Link(issued: nat, sequence: int, open: map<int, Send>, pending: map<int, Future>)

  datatype Event =
    | Begin(id: int)
    | SendNoWait
    | Response(frame: Frame)
    | AttemptTimedOut(id: int)
    | Resume(id: int)
    | Fail(id: int)

  function NewLink(): Link
  {
    Link(0, 0, map[], map[])
  }

  /** A future still waited for: not answered, not abandoned by a later attempt, its send not over. */
  predicate Waiting(l: Link, f: Future)
  {
    f.id in l.open && l.open[f.id].attempt == f.attempt && l.open[f.id].answer.None?
  }

  predicate Enabled(l: Link, e: Event)
  {
    match e
    case Begin(id) => id !in l.open
    case SendNoWait => true
    case Response(_) => true
    case AttemptTimedOut(id) => id in l.open && l.open[id].answer.None?
    case Resume(id) => id in l.open && l.open[id].answer.Some?
    case Fail(id) => id in l.open
  }

  /** self._pending.pop(sequence, None), and the send is over. */
  function Close(l: Link, id: int): Link
    requires id in l.open
  {
    l.(pending := l.pending - {l.open[id].sequence}, open := l.open - {id})
  }

  function Next(l: Link, e: Event, maxRetries: nat): Link
    requires Enabled(l, e)
  {
    match e
    case Begin(id) =>
      var sequence := NextSequence(l.sequence);
      Link(l.issued + 1, sequence, l.open[id := Send(l.issued + 1, sequence, 0, None)],
           l.pending[sequence := Future(id, 0)])
    case SendNoWait =>
      l.(issued := l.issued + 1, sequence := NextSequence(l.sequence))
    case Response(frame) =>
      if frame.sequence in l.pending && Waiting(l, l.pending[frame.sequence]) then
        var id := l.pending[frame.sequence].id;
        l.(open := l.open[id := l.open[id].(answer := Some(frame))])
      else l
    case AttemptTimedOut(id) =>
      var s := l.open[id];
      if s.attempt < maxRetries then
        l.(open := l.open[id := s.(attempt := s.attempt + 1)],
           pending := l.pending[s.sequence := Future(id, s.attempt + 1)])
      else Close(l, id)
    case Resume(id) => Close(l, id)
    case Fail(id) => Close(l, id)
  }

  /** Fewer than 65535 numbers were issued since any open send took its own. */
  ghost predicate Young(l: Link)
  {
    forall id :: id in l.open ==> l.issued - l.open[id].serial < SLOTS
  }

  /** Open sends and pending entries correspond one to one. */
  ghost predicate Matched(l: Link)
  {
    && l.sequence == Nth(l.issued)
    && (forall id :: id in l.open ==>
          && 0 < l.open[id].serial <= l.issued
          && l.open[id].sequence == Nth(l.open[id].serial))
    && (forall id, id' :: id in l.open && id' in l.open && id != id' ==> l.open[id].serial != l.open[id'].serial)
    && (forall id :: id in l.open ==>
          l.open[id].sequence in l.pending && l.pending[l.open[id].sequence] == Future(id, l.open[id].attempt))
    && (forall q :: q in l.pending ==> l.pending[q].id in l.open && l.open[l.pending[q].id].sequence == q)
  }

  /** No two open sends share a sequence number. */
  lemma {:induction false} OwnSlots(l: Link, id: int, id': int)
    requires Matched(l) && id in l.open && id' in l.open && id != id'
    ensures l.open[id].sequence != l.open[id'].sequence
  {}

  /** No open send took its number a whole multiple of 65535 allocations before the next one. */
  ghost predicate NextIsFree(l: Link)
  {
    forall id :: id in l.open ==> (l.issued + 1 - l.open[id].serial) % SLOTS != 0
  }

  lemma {:induction false} FreeSlot(l: Link, id: int)
    requires Matched(l) && id in l.open
    ensures NextSequence(l.sequence) == l.open[id].sequence <==> (l.issued + 1 - l.open[id].serial) % SLOTS == 0
  {
    assert Nth(l.issued + 1) == NextSequence(l.sequence);
    SequencesRepeat(l.open[id].serial, l.issued + 1);
  }

  /** A number is free exactly when the pending table has no entry under it. */
  lemma {:induction false} FreeIsUnused(l: Link)
    requires Matched(l)
    ensures NextIsFree(l) <==> NextSequence(l.sequence) !in l.pending
  {
    forall id | id in l.open
      ensures NextSequence(l.sequence) == l.open[id].sequence <==> (l.issued + 1 - l.open[id].serial) % SLOTS == 0
    {
      FreeSlot(l, id);
    }
  }

  lemma {:induction false} UnusedKeepsMatched(l: Link, id: int, maxRetries: nat)
    requires Matched(l) && id !in l.open && NextSequence(l.sequence) !in l.pending
    ensures Matched(Next(l, Begin(id), maxRetries))
  {
    var l' := Next(l, Begin(id), maxRetries);
    assert l'.sequence == Nth(l'.issued);
    assert forall other :: other in l.open ==> l'.open[other] == l.open[other] && l'.sequence != l.open[other].sequence;
  }

  lemma {:induction false} UsedSpoilsMatched(l: Link, id: int, maxRetries: nat)
    requires Matched(l) && id !in l.open && NextSequence(l.sequence) in l.pending
    ensures !Matched(Next(l, Begin(id), maxRetries))
  {
    var l' := Next(l, Begin(id), maxRetries);
    var other := l.pending[l'.sequence].id;
    assert l'.open[other].sequence == l'.sequence && l'.pending[l'.sequence].id == id;
  }

  /** A new send spoils the correspondence exactly when its number is still in use. */
  lemma {:induction false} BeginMatchedExactly(l: Link, id: int, maxRetries: nat)
    requires Matched(l) && id !in l.open
    ensures Matched(Next(l, Begin(id), maxRetries)) <==> NextIsFree(l)
  {
    FreeIsUnused(l);
    if NextIsFree(l) {
      UnusedKeepsMatched(l, id, maxRetries);
    } else {
      UsedSpoilsMatched(l, id, maxRetries);
    }
  }

  lemma {:induction false} RetryKeepsMatched(l: Link, id: int, maxRetries: nat)
    requires Matched(l) && Enabled(l, AttemptTimedOut(id)) && l.open[id].attempt < maxRetries
    ensures Matched(Next(l, AttemptTimedOut(id), maxRetries))
  {}

  lemma {:induction false} CloseKeepsMatched(l: Link, id: int)
    requires Matched(l) && id in l.open
    ensures Matched(Close(l, id))
  {}

  lemma {:induction false} NextMatchedExactly(l: Link, e: Event, maxRetries: nat)
    requires Matched(l) && Enabled(l, e)
    ensures Matched(Next(l, e, maxRetries)) <==> (e.Begin? ==> NextIsFree(l))
  {
    match e
    case Begin(id) => BeginMatchedExactly(l, id, maxRetries);
    case SendNoWait => assert NextSequence(l.sequence) == Nth(l.issued + 1);
    case Response(_) =>
    case AttemptTimedOut(id) =>
      if l.open[id].attempt < maxRetries {
        RetryKeepsMatched(l, id, maxRetries);
      } else {
        CloseKeepsMatched(l, id);
      }
    case Resume(id) => CloseKeepsMatched(l, id);
    case Fail(id) => CloseKeepsMatched(l, id);
  }

  /** A run: each event is enabled where it happens. */
  ghost predicate IsRun(links: seq<Link>, events: seq<Event>, maxRetries: nat)
  {
    && |links| == |events| + 1
    && links[0] == NewLink()
    && forall i :: 0 <= i < |events| ==>
         Enabled(links[i], events[i]) && links[i + 1] == Next(links[i], events[i], maxRetries)
  }

  /** Up to step n every send took a number that no open send held. */
  ghost predicate FreshNumbers(links: seq<Link>, events: seq<Event>, n: nat)
    requires |links| == |events| + 1 && n < |links|
  {
    forall i :: 0 <= i < n && events[i].Begin? ==> NextIsFree(links[i])
  }

  lemma {:induction false} StartMatched()
    ensures Matched(NewLink())
  {}

  /** Up to any step of any run the pending table holds exactly one entry per open send, under its own
      number and for its current attempt, if and only if no send took a number still in use. */
  lemma {:induction false} MatchedExactly(links: seq<Link>, events: seq<Event>, maxRetries: nat, n: nat)
    requires IsRun(links, events, maxRetries) && n < |links|
    ensures (forall i :: 0 <= i <= n ==> Matched(links[i])) <==> FreshNumbers(links, events, n)
    decreases n
  {
    if n == 0 {
      StartMatched();
    } else {
      MatchedExactly(links, events, maxRetries, n - 1);
      assert links[n - 1 + 1] == Next(links[n - 1], events[n - 1], maxRetries);
      if Matched(links[n - 1]) {
        NextMatchedExactly(links[n - 1], events[n - 1], maxRetries);
      }
    }
  }

  lemma {:induction false} YoungMeansFree(l: Link, id: int, maxRetries: nat)
    requires Matched(l) && id !in l.open && Young(Next(l, Begin(id), maxRetries))
    ensures NextIsFree(l)
  {
    var l' := Next(l, Begin(id), maxRetries);
    forall other | other in l.open
      ensures 0 < l.issued + 1 - l.open[other].serial < SLOTS
    {
      assert other in l'.open && l'.open[other] == l.open[other];
    }
  }

  /** While no send outlives 65534 further allocations, no number in use is taken again. */
  lemma {:induction false} AlwaysMatched(links: seq<Link>, events: seq<Event>, maxRetries: nat, n: nat)
    requires IsRun(links, events, maxRetries) && n < |links|
    requires forall i :: 0 <= i <= n ==> Young(links[i])
    ensures Matched(links[n])
    decreases n
  {
    if n == 0 {
      StartMatched();
    } else {
      AlwaysMatched(links, events, maxRetries, n - 1);
      var l, e := links[n - 1], events[n - 1];
      assert links[n - 1 + 1] == Next(l, e, maxRetries);
      if e.Begin? {
        YoungMeansFree(l, e.id, maxRetries);
      }
      NextMatchedExactly(l, e, maxRetries);
    }
  }

  /** A response answers the open send with its number, if that one still waits, and no other. */
  lemma {:induction false} ResponseMatches(l: Link, frame: Frame, maxRetries: nat, id: int)
    requires Matched(l) && id in l.open
    ensures var l' := Next(l, Response(frame), maxRetries);
      && l'.open.Keys == l.open.Keys && l'.pending == l.pending
      && l'.open[id] == if l.open[id].sequence == frame.sequence && l.open[id].answer.None?
                        then l.open[id].(answer := Some(frame)) else l.open[id]
  {}

  /** However a send ends, its entry is gone and every other send keeps its own. */
  lemma {:induction false} ExitCleansUp(l: Link, e: Event, maxRetries: nat, id: int)
    requires Matched(l) && Enabled(l, e) && id in l.open && id !in Next(l, e, maxRetries).open
    ensures var l' := Next(l, e, maxRetries);
      && l.open[id].sequence !in l'.pending
      && l'.open == l.open - {id}
      && forall other :: other in l'.open ==>
           l.open[other].sequence in l'.pending && l'.pending[l.open[other].sequence].id == other
  {}

  // ----- Attempts -----

  /** A send is over exactly when it gets its answer, fails, or times out on its last attempt. */
  lemma {:induction false} EndsExactly(l: Link, e: Event, maxRetries: nat, id: int)
    requires Enabled(l, e) && id in l.open
    ensures id !in Next(l, e, maxRetries).open
       <==> e == Resume(id) || e == Fail(id) || (e == AttemptTimedOut(id) && l.open[id].attempt >= maxRetries)
  {}

  /** How often an attempt of a send timed out between two moments. */
  function Timeouts(events: seq<Event>, i: nat, n: nat, id: int): nat
    requires i <= n <= |events|
    decreases n
  {
    if n == i then 0 else Timeouts(events, i, n - 1, id) + if events[n - 1] == AttemptTimedOut(id) then 1 else 0
  }

  /** As long as a send is open it is on the attempt after those that timed out, and never beyond the last. */
  lemma {:induction false} AttemptsCounted(links: seq<Link>, events: seq<Event>, maxRetries: nat,
                                           i: nat, n: nat, id: int)
    requires IsRun(links, events, maxRetries) && i < n < |links| && events[i] == Begin(id)
    requires forall j :: i < j <= n ==> id in links[j].open
    ensures links[n].open[id].attempt == Timeouts(events, i + 1, n, id) <= maxRetries
    decreases n
  {
    var m := n - 1;
    assert links[m + 1] == Next(links[m], events[m], maxRetries);
    if m > i {
      AttemptsCounted(links, events, maxRetries, i, m, id);
    }
  }

  /** A timeout ends the send exactly when it is the one after the last retry. */
  lemma {:induction false} GivesUpExactly(links: seq<Link>, events: seq<Event>, maxRetries: nat,
                                          i: nat, n: nat, id: int)
    requires IsRun(links, events, maxRetries) && i < n < |events| && events[i] == Begin(id)
    requires forall j :: i < j <= n ==> id in links[j].open
    requires events[n] == AttemptTimedOut(id)
    ensures id !in links[n + 1].open <==> Timeouts(events, i + 1, n + 1, id) == maxRetries + 1
  {
    AttemptsCounted(links, events, maxRetries, i, n, id);
    assert links[n + 1] == Next(links[n], events[n], maxRetries);
  }

  // ----- A number taken while in use -----

  function Allocate(l: Link, n: nat): (r: Link)
    ensures r.issued == l.issued + n && r.open == l.open && r.pending == l.pending
    decreases n
  {
    if n == 0 then l else Allocate(Next(l, SendNoWait, 0), n - 1)
  }

  lemma {:induction false} AllocateNumbers(l: Link, n: nat)
    requires l.sequence == Nth(l.issued)
    ensures Allocate(l, n).sequence == Nth(l.issued + n)
    decreases n
  {
    if n > 0 {
      AllocateNumbers(Next(l, SendNoWait, 0), n - 1);
    }
  }

  /** Two open sends on one number. */
  function SharedSlot(): Link
  {
    Link(SLOTS + 1, 1, map[1 := Send(1, 1, 0, None), 2 := Send(SLOTS + 1, 1, 0, None)], map[1 := Future(2, 0)])
  }

  /** A new gateway gets there when exactly 65535 numbers are allocated during a send's life. */
  lemma {:induction false} SharedSlotReached(maxRetries: nat)
    ensures var first := Next(NewLink(), Begin(1), maxRetries);
      Next(Allocate(first, SLOTS - 1), Begin(2), maxRetries) == SharedSlot()
  {
    NthValue(1);
    AfterWrap(Next(NewLink(), Begin(1), maxRetries), SLOTS - 1);
  }

  lemma {:induction false} AfterWrap(l: Link, n: nat)
    requires l.issued == 1 && l.sequence == Nth(1) && n == SLOTS - 1
    ensures NextSequence(Allocate(l, n).sequence) == 1
  {
    AllocateNumbers(l, n);
    NthValue(n + 1);
    assert NextSequence(SLOTS) == 1;
  }

  /** Once a send has taken another's number, a response under it answers the later send only, and the
      end of the earlier one takes the later one's entry with it. */
  lemma {:induction false} SharedNumberMisdirects(l: Link, id: int, other: int, frame: Frame, maxRetries: nat)
    requires Matched(l) && id !in l.open && other in l.open
    requires NextSequence(l.sequence) == l.open[other].sequence == frame.sequence
    ensures var l' := Next(l, Begin(id), maxRetries);
      && Next(l', Response(frame), maxRetries).open[other] == l.open[other]
      && Next(l', Response(frame), maxRetries).open[id].answer == Some(frame)
      && id in Next(l', Fail(other), maxRetries).open
      && l'.open[id].sequence !in Next(l', Fail(other), maxRetries).pending
  {}

  // ----- send itself -----

  /** How the wait of one attempt ends. */
  datatype Attempt = Answered(frame: Frame) | TimedOut | Broken

  /** Attempt k answers and every attempt before it only timed out. */
  ghost predicate FirstAnswer(waits: seq<Attempt>, k: nat)
  {
    k < |waits| && waits[k].Answered? && forall j :: 0 <= j < k ==> waits[j].TimedOut?
  }

  lemma {:induction false} NoFirstAnswer(waits: seq<Attempt>, n: nat)
    requires n <= |waits| && forall j :: 0 <= j < n ==> waits[j].TimedOut?
    requires n < |waits| ==> waits[n].Broken?
    ensures forall k: nat :: !FirstAnswer(waits, k)
  {}

  datatype SendError = NotConnected | BadFrame(cause: ProtocolError) | NoAnswer

  class UartLink {
    const maxRetries: nat
    var connected: bool
    var sequence: int
    var pending: map<int, Future>

    constructor (maxRetries: nat)
      ensures this.maxRetries == maxRetries && !connected && sequence == 0 && pending == map[]
    {
      this.maxRetries := maxRetries;
      connected := false;
      sequence := 0;
      pending := map[];
    }

    /** One call of send, given how each attempt's wait would end. */
    method SendCommand(id: int, command: int, payload: bytes, flags: int, waits: seq<Attempt>)
      returns (r: Result<Frame, SendError>)
      requires |waits| == maxRetries + 1
      modifies this`sequence, this`pending
      ensures !connected ==> r == Err(NotConnected) && sequence == old(sequence) && pending == old(pending)
      ensures connected ==> sequence == NextSequence(old(sequence))
      ensures connected ==>
        var raw := Frame(VERSION, flags, sequence, command, payload).Raw();
        if raw.Err? then r == Err(BadFrame(raw.error)) && pending == old(pending)
        else
          && sequence !in pending && pending == old(pending) - {sequence}
          && (r.Ok? ==> exists k: nat :: FirstAnswer(waits, k) && waits[k].frame == r.value)
          && (r.Err? ==> r.error == NoAnswer && forall k: nat :: !FirstAnswer(waits, k))
    {
      if !connected {
        return Err(NotConnected);
      }
      sequence := NextSequence(sequence);
      var raw := Frame(VERSION, flags, sequence, command, payload).Raw();
      if raw.Err? {
        return Err(BadFrame(raw.error));
      }
      ghost var others := pending - {sequence};
      var attempt := 0;
      while attempt < maxRetries + 1
        invariant 0 <= attempt <= maxRetries + 1
        invariant forall j :: 0 <= j < attempt ==> waits[j].TimedOut?
        invariant sequence == NextSequence(old(sequence))
        invariant pending - {sequence} == others
        invariant attempt > 0 ==> sequence !in pending
      {
        pending := pending[sequence := Future(id, attempt)];
        match waits[attempt] {
          case Answered(frame) =>
            pending := pending - {sequence};
            assert FirstAnswer(waits, attempt);
            return Ok(frame);
          case TimedOut =>
            pending := pending - {sequence};
          case Broken =>
            pending := pending - {sequence};
            NoFirstAnswer(waits, attempt);
            return Err(NoAnswer);
        }
        attempt := attempt + 1;
      }
      NoFirstAnswer(waits, attempt);
      assert pending == pending - {sequence};
      return Err(NoAnswer);
    }
  }
}
