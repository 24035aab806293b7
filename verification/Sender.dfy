/** Delivery of batches (internal/sender/sender.go): one POST with retries, the direct path that
    writes a batch ahead, posts it and settles it, and the flush path that drains the spool. */
module Delivery {
  import opened Optional
  import opened Spool

  datatype Error = InvalidPayload | Incompatible | Unconfirmed | ContextEnded | Transport(transient: bool) | BadStatus

  /** The body of an answer, read as an acknowledgement. */
  datatype Ack = Garbled | Ack(accepted: Option<bool>, durable: Option<bool>, received: Option<int>)

  datatype Response = NoAnswer(transient: bool) | Answer(status: int, conflict: bool, ack: Ack)

  /** One round of the retry loop: whether the context ends during the backoff before it, and what
      the server says. */
  datatype Round = Round(expires: bool, response: Response)

  datatype Posting = Posting(status: int, error: Option<Error>)

  const RETRIES: nat := 3

  predicate Is2xx(status: int) { 200 <= status < 300 }

  function EventCount(p: Payload): Option<nat> {
    if p.Events? then Some(|p.batch|) else None
  }

  function FindingCount(p: Payload): Option<nat> {
    if p.Findings? then Some(p.count) else if p.Snapshot? then Some(0) else None
  }

  predicate Explicit(a: Ack) {
    a.Ack? && a.accepted == Some(true) && a.durable == Some(true)
  }

  /** `validateAcknowledgement`. */
  function Validate(kind: Kind, p: Payload, a: Ack): Option<Error> {
    match kind
    case KindEvents =>
      if EventCount(p).None? then Some(InvalidPayload)
      else if Explicit(a) && a.received == Some(EventCount(p).value as int) then None
      else Some(Unconfirmed)
    case KindInventory =>
      if !(p.Snapshot? || p.Findings?) then Some(InvalidPayload)
      else if Explicit(a) then None
      else Some(Unconfirmed)
    case KindVuln =>
      if FindingCount(p).None? then Some(InvalidPayload)
      else if Explicit(a) && a.received == Some(FindingCount(p).value as int) then None
      else Some(Unconfirmed)
    case UnknownKind => Some(InvalidPayload)
  }

  /** `postOnce`. Every 426 decodes to an incompatibility, whatever its body. */
  function PostOnce(kind: Kind, p: Payload, r: Response): Posting {
    match r
    case NoAnswer(transient) => Posting(0, Some(Transport(transient)))
    case Answer(status, conflict, ack) =>
      if !Is2xx(status) then
        Posting(status, Some(if status == 426 then Incompatible
                             else if status == 409 && conflict then InvalidPayload
                             else BadStatus))
      else Posting(status, Validate(kind, p, ack))
  }

  predicate Retryable(e: Error, status: int) {
    || e == Unconfirmed
    || (if status == 0 then e.Transport? && e.transient else status >= 500)
  }

  predicate Spoolable(e: Error, status: int) {
    && e != InvalidPayload && e != Incompatible
    && (|| e == Unconfirmed
        || status in {0, 401, 403, 408, 409, 423, 425, 426, 429}
        || status >= 500)
  }

  predicate PermanentStatus(status: int) {
    status in {400, 404, 405, 410, 413, 414, 415, 422, 426, 431}
  }

  /** The flush path gives a batch up. */
  predicate FlushDiscards(e: Error, status: int) {
    PermanentStatus(status) || e == InvalidPayload
  }

  predicate Final(p: Posting) {
    p.error.None? || !Retryable(p.error.value, p.status)
  }

  /** The retry loop from round `i` on, `last` being the outcome of the round before. */
  function PostFrom(kind: Kind, p: Payload, script: nat -> Round, i: nat, last: Posting): Posting
    requires i <= RETRIES + 1
    decreases RETRIES + 1 - i
  {
    if i == RETRIES + 1 then last
    else if i > 0 && script(i).expires then last.(error := Some(ContextEnded))
    else
      var now := PostOnce(kind, p, script(i).response);
      if Final(now) then now else PostFrom(kind, p, script, i + 1, now)
  }

  function Post(kind: Kind, p: Payload, script: nat -> Round): Posting {
    PostFrom(kind, p, script, 0, Posting(0, None))
  }

  // ---------------------------------------------------------------------------------------------
  // What the loop decides, said without the loop.
  // ---------------------------------------------------------------------------------------------

  /** Round `k` takes place: the context has not ended and every earlier round failed retryably. */
  ghost predicate Reached(kind: Kind, p: Payload, script: nat -> Round, k: nat) {
    && k <= RETRIES
    && (forall i :: 0 <= i < k ==> !Final(PostOnce(kind, p, script(i).response)))
    && (forall i :: 0 < i <= k ==> !script(i).expires)
  }

  /** Round `k` is the last one, and the loop was not cut off after it. */
  ghost predicate Decides(kind: Kind, p: Payload, script: nat -> Round, k: nat) {
    && Reached(kind, p, script, k)
    && (Final(PostOnce(kind, p, script(k).response)) || k == RETRIES)
  }

  /** The context ends during the backoff after round `k`. */
  ghost predicate CutOff(kind: Kind, p: Payload, script: nat -> Round, k: nat) {
    && Reached(kind, p, script, k) && k < RETRIES && script(k + 1).expires
    && !Final(PostOnce(kind, p, script(k).response))
  }

  lemma {:induction false} LoopFrom(
    kind: Kind, p: Payload, script: nat -> Round, i: nat, last: Posting)
    returns (k: nat)
    requires i <= RETRIES && Reached(kind, p, script, i)
    ensures i <= k <= RETRIES && Reached(kind, p, script, k)
    ensures var now := PostOnce(kind, p, script(k).response);
            || (Decides(kind, p, script, k) && PostFrom(kind, p, script, i, last) == now)
            || (CutOff(kind, p, script, k) && PostFrom(kind, p, script, i, last) == now.(error := Some(ContextEnded)))
    decreases RETRIES - i
  {
    var now := PostOnce(kind, p, script(i).response);
    if Final(now) || i == RETRIES || script(i + 1).expires {
      k := i;
    } else {
      k := LoopFrom(kind, p, script, i + 1, now);
    }
  }

  lemma PostByRounds(kind: Kind, p: Payload, script: nat -> Round) returns (k: nat)
    ensures k <= RETRIES && Reached(kind, p, script, k)
    ensures var now := PostOnce(kind, p, script(k).response);
            || (Decides(kind, p, script, k) && Post(kind, p, script) == now)
            || (CutOff(kind, p, script, k) && Post(kind, p, script) == now.(error := Some(ContextEnded)))
  {
    k := LoopFrom(kind, p, script, 0, Posting(0, None));
  }

  lemma LastRoundIsUnique(kind: Kind, p: Payload, script: nat -> Round, k: nat, m: nat)
    requires Decides(kind, p, script, k) || CutOff(kind, p, script, k)
    requires Reached(kind, p, script, m)
    ensures m <= k
  {
  }

  /** The payload is of the form its kind calls for. */
  predicate Suits(kind: Kind, p: Payload) {
    match kind
    case KindEvents => p.Events?
    case KindInventory | KindVuln => p.Snapshot? || p.Findings?
    case UnknownKind => false
  }

  /** The server has confirmed that the whole batch is durable: it says explicitly that it accepted and stored
      it, and for events and findings that it received as many as were sent. */
  predicate Acknowledges(kind: Kind, p: Payload, r: Response) {
    && Suits(kind, p) && r.Answer? && 200 <= r.status < 300
    && r.ack.Ack? && r.ack.accepted == Some(true) && r.ack.durable == Some(true)
    && (kind == KindEvents ==> r.ack.received == Some(|p.batch|))
    && (kind == KindVuln ==> r.ack.received == Some(if p.Findings? then p.count else 0))
  }

  /** What one answer comes to, case by case. */
  lemma AnswerByCases(kind: Kind, p: Payload, r: Response)
    ensures var o := PostOnce(kind, p, r);
            var success := r.Answer? && 200 <= r.status < 300;
            && o.status == (if r.Answer? then r.status else 0)
            && (o.error == None <==> Acknowledges(kind, p, r))
            && (o.error == Some(Unconfirmed) <==> success && Suits(kind, p) && !Acknowledges(kind, p, r))
            && (o.error == Some(InvalidPayload) <==>
                  (success && !Suits(kind, p)) || (r.Answer? && r.status == 409 && r.conflict))
            && (o.error == Some(Incompatible) <==> r.Answer? && r.status == 426)
            && (r.NoAnswer? ==> o.error == Some(Transport(r.transient)))
            && o.error != Some(ContextEnded)
  {
  }

  /** Another round follows exactly after a transient failure of the connection, a server error, or a success
      that is not confirmed. */
  lemma RetriedIff(kind: Kind, p: Payload, r: Response)
    ensures !Final(PostOnce(kind, p, r)) <==>
              || r == NoAnswer(true)
              || (r.Answer? && r.status >= 500)
              || (r.Answer? && 200 <= r.status < 300 && Suits(kind, p) && !Acknowledges(kind, p, r))
  {
  }

  /** After a last answer of the loop the flush path gives a batch up exactly if the status is one of these,
      the payload does not suit its kind, or another batch has its identity. */
  lemma DiscardedIff(kind: Kind, p: Payload, r: Response)
    ensures var o := PostOnce(kind, p, r);
            o.error.Some? && FlushDiscards(o.error.value, o.status) <==>
              && r.Answer?
              && (|| r.status in {400, 404, 405, 410, 413, 414, 415, 422, 426, 431}
                  || (r.status == 409 && r.conflict)
                  || (200 <= r.status < 300 && !Suits(kind, p)))
  {
  }

  /** The direct path keeps a batch in the spool after these answers. */
  lemma KeptIff(kind: Kind, p: Payload, r: Response)
    ensures var o := PostOnce(kind, p, r);
            o.error.Some? && Spoolable(o.error.value, o.status) <==>
              || r.NoAnswer?
              || r.status >= 500 || r.status in {0, 401, 403, 408, 423, 425, 429}
              || (r.status == 409 && !r.conflict)
              || (200 <= r.status < 300 && Suits(kind, p) && !Acknowledges(kind, p, r))
  {
  }

  /** A delivery succeeds exactly if some round that takes place is acknowledged in full. */
  lemma DeliveredIffAcknowledged(kind: Kind, p: Payload, script: nat -> Round)
    ensures Post(kind, p, script).error.None? <==>
            exists k :: 0 <= k <= RETRIES && Reached(kind, p, script, k) && Acknowledges(kind, p, script(k).response)
  {
    var k := PostByRounds(kind, p, script);
    if m :| 0 <= m <= RETRIES && Reached(kind, p, script, m) && Acknowledges(kind, p, script(m).response) {
      LastRoundIsUnique(kind, p, script, k, m);
      assert Final(PostOnce(kind, p, script(m).response));
    }
  }

  /** An answer succeeds exactly if it acknowledges the batch: for each kind, precisely if these fields have
      these values. */
  lemma AcknowledgementIsExact(kind: Kind, p: Payload, r: Response)
    ensures var explicit := r.Answer? && 200 <= r.status < 300 &&
                            r.ack.Ack? && r.ack.accepted == Some(true) && r.ack.durable == Some(true);
            PostOnce(kind, p, r).error == None <==>
              match kind
              case KindEvents => explicit && p.Events? && r.ack.received == Some(|p.batch|)
              case KindInventory => explicit && (p.Snapshot? || p.Findings?)
              case KindVuln =>
                && explicit
                && ((p.Findings? && r.ack.received == Some(p.count)) || (p.Snapshot? && r.ack.received == Some(0)))
              case UnknownKind => false
  {
  }

  /** If the first round is acknowledged, that is the result. */
  lemma FirstRoundAcknowledged(kind: Kind, p: Payload, script: nat -> Round)
    ensures Acknowledges(kind, p, script(0).response) ==> Post(kind, p, script).error.None?
  {
    DeliveredIffAcknowledged(kind, p, script);
    assert Reached(kind, p, script, 0);
  }

  /** The server, or validation of the payload itself, has settled that this batch will not be taken. */
  predicate Refuses(kind: Kind, p: Payload, r: Response) {
    var o := PostOnce(kind, p, r);
    && r.Answer? && o.error.Some?
    && (|| o.error.value in {InvalidPayload, Incompatible}
        || (!Is2xx(r.status) && r.status < 500 && r.status !in {0, 401, 403, 408, 409, 423, 425, 429}))
  }

  /** The context ends while a success that was not confirmed is about to be retried. */
  ghost predicate UnconfirmedThenCutOff(kind: Kind, p: Payload, script: nat -> Round) {
    exists k :: 0 <= k <= RETRIES && CutOff(kind, p, script, k)
      && script(k).response.Answer? && Is2xx(script(k).response.status)
  }

  /** The direct path drops a batch exactly if the last answer refuses it, or in one unwanted case:
      the server accepted it without confirming, and the context ended before the retry. */
  lemma {:induction false} DroppedIffRefusedOrCutOff(kind: Kind, p: Payload, script: nat -> Round)
    ensures var o := Post(kind, p, script);
            o.error.Some? && !Spoolable(o.error.value, o.status) <==>
              || (exists k :: 0 <= k <= RETRIES && Decides(kind, p, script, k) && Refuses(kind, p, script(k).response))
              || UnconfirmedThenCutOff(kind, p, script)
  {
    hide Post, PostFrom, Reached;
    var k := PostByRounds(kind, p, script);
    var o, now := Post(kind, p, script), PostOnce(kind, p, script(k).response);
    if m :| 0 <= m <= RETRIES && Decides(kind, p, script, m) && Refuses(kind, p, script(m).response) {
      LastRoundIsUnique(kind, p, script, k, m);
      LastRoundIsUnique(kind, p, script, m, k);
    }
    if UnconfirmedThenCutOff(kind, p, script) {
      var m :| 0 <= m <= RETRIES && CutOff(kind, p, script, m)
        && script(m).response.Answer? && Is2xx(script(m).response.status);
      LastRoundIsUnique(kind, p, script, k, m);
      LastRoundIsUnique(kind, p, script, m, k);
    }
    if Decides(kind, p, script, k) {
      assert o == now;
      NotSpoolableIffRefused(kind, p, script(k).response);
    }
  }

  lemma NotSpoolableIffRefused(kind: Kind, p: Payload, r: Response)
    ensures var o := PostOnce(kind, p, r);
            o.error.Some? && !Spoolable(o.error.value, o.status) <==> Refuses(kind, p, r)
  {
  }

  /** A concrete such case: one event, an empty acknowledgement, then the context ends. */
  lemma UnconfirmedBatchCanBeDropped(e: string)
    ensures exists script: nat -> Round ::
              var o := Post(KindEvents, Events([e]), script);
              && o == Posting(202, Some(ContextEnded))
              && !Spoolable(ContextEnded, 202) && !FlushDiscards(ContextEnded, 202)
  {
    var script: nat -> Round := i => Round(i == 1, Answer(202, false, Garbled));
    assert PostOnce(KindEvents, Events([e]), script(0).response) == Posting(202, Some(Unconfirmed));
    var last := Posting(202, Some(Unconfirmed));
    assert Post(KindEvents, Events([e]), script) == PostFrom(KindEvents, Events([e]), script, 1, last);
  }

  /** As functions of an error and a status the two paths contradict each other in exactly these
      cases ... */
  lemma WherePathsWouldDisagree(e: Error, status: int)
    ensures Spoolable(e, status) && FlushDiscards(e, status) <==>
              && e != InvalidPayload && e != Incompatible
              && (status == 426 || (e == Unconfirmed && PermanentStatus(status)))
  {
  }

  /** ... none of which a delivery can produce: whatever the direct path keeps, the flush path
      would not discard. */
  lemma KeptBatchesAreNotDiscarded(kind: Kind, p: Payload, script: nat -> Round)
    ensures var o := Post(kind, p, script);
            o.error.Some? && Spoolable(o.error.value, o.status) ==> !FlushDiscards(o.error.value, o.status)
  {
    var k := PostByRounds(kind, p, script);
  }

  /** The converse fails: what the direct path drops, the flush path keeps exactly when the answer is
      neither a retryable nor a permanent status, or the unconfirmed case above. */
  lemma FlushIsMorePatient(kind: Kind, p: Payload, script: nat -> Round)
    ensures var o := Post(kind, p, script);
            o.error.Some? && !Spoolable(o.error.value, o.status) ==>
              (!FlushDiscards(o.error.value, o.status) <==>
                 || o.error.value == ContextEnded
                 || (o.error.value == BadStatus && !PermanentStatus(o.status)))
  {
    var k := PostByRounds(kind, p, script);
  }

  /** `postWithRetry`. */
  method PostWithRetry(kind: Kind, p: Payload, script: nat -> Round) returns (o: Posting)
    ensures o == Post(kind, p, script)
  {
    o := Posting(0, None);
    var attempt := 0;
    while attempt <= RETRIES
      invariant 0 <= attempt <= RETRIES + 1
      invariant Post(kind, p, script) == PostFrom(kind, p, script, attempt, o)
    {
      if attempt > 0 && script(attempt).expires {
        return Posting(o.status, Some(ContextEnded));
      }
      o := PostOnce(kind, p, script(attempt).response);
      if o.error.None? || !Retryable(o.error.value, o.status) {
        return;
      }
      attempt := attempt + 1;
    }
  }

  /** What the drain callback makes of one spooled envelope. */
  function FlushVerdict(env: Envelope, script: nat -> Round): Verdict {
    if env.kind == UnknownKind then Refused
    else
      var o := Post(env.kind, env.payload, script);
      if o.error.None? then Accepted
      else if FlushDiscards(o.error.value, o.status) then Refused
      else Deferred
  }

  /** A batch the direct path would keep on some exchange is neither refused nor lost when the flush
      path sees the same exchange. */
  lemma FlushKeepsWhatDeliverKeeps(env: Envelope, script: nat -> Round)
    requires env.kind != UnknownKind
    ensures var o := Post(env.kind, env.payload, script);
            && (o.error.Some? && Spoolable(o.error.value, o.status) ==> FlushVerdict(env, script) == Deferred)
            && (FlushVerdict(env, script) == Accepted <==> o.error.None?)
  {
    KeptBatchesAreNotDiscarded(env.kind, env.payload, script);
  }
}

module Sender {
  import opened Optional
  import opened MapSum
  import opened Spool
  import opened Delivery

  /** One delivery as the server sees it: which batch, whether it confirmed it, and what was in the
      spool directory while it was posted. */
  datatype Exchange = Exchange(id: string, payload: Payload, confirmed: bool, directory: Directory)

  datatype Sent = Sent | DurablyQueued(error: Error) | Failed

  datatype Outcome = Outcome(attempted: nat, delivered: nat, durable: nat)

  function PriorityOf(kind: Kind): int {
    match kind
    case KindInventory | KindVuln => 100
    case KindEvents => 10
    case UnknownKind => 0
  }

  predicate Holds(d: Directory, name: Name, id: string, payload: Payload) {
    name in d && d[name].envelope.Some? && d[name].envelope.value.id == id && d[name].envelope.value.payload == payload
  }

  /** The file `deliver` writes ahead for a batch. */
  function Entry(kind: Kind, id: string, payload: Payload, size: nat, now: int): File {
    File(size, Some(Envelope(id, kind, PriorityOf(kind), now, 0, payload)), now)
  }

  /** A file that holds this batch of events, queued at `now`. */
  predicate WrittenFor(f: File, payload: Payload, now: int) {
    && f.envelope.Some? && f.envelope.value.payload == payload
    && Created(f) == now && Priority(f) == PriorityOf(KindEvents)
  }

  /** No entry is new and none has other content. */
  ghost predicate Shrunk(before: Directory, after: Directory) {
    forall n :: n in after ==> n in before && after[n] == before[n]
  }

  /** What is on disk when a batch is posted: if it counts as queued, its file; what retention leaves of the
      rest. It goes out without being written ahead only if a file operation failed or the retention
      policy has no room for it. */
  ghost predicate WrittenAhead(
    o: Options, now: int, d: Directory, name: Name, f: File, d': Directory, queued: bool, faulty: bool)
  {
    var added := d[name := f];
    && (AfterRetention(o, now, added, {}, d', faulty) || (faulty && d' == d))
    && (queued ==> name in d' && d'[name] == f)
    && (queued && WithinLimits(o, now, added, {}) ==> d' == added)
    && (!queued ==> faulty || (name !in d' && !WithinLimits(o, now, added, {})))
    && Shrunk(d, d' - {name})
  }

  lemma FaultsAreNoted(
    o: Options, now: int, d: Directory, name: Name, f: File, d': Directory, queued: bool, faulty: bool)
    requires WrittenAhead(o, now, d, name, f, d', queued, faulty)
    ensures WrittenAhead(o, now, d, name, f, d', queued, true)
    ensures queued ==> name in d' && d'[name] == f
  {
    hide AfterRetention, WithinLimits;
    if AfterRetention(o, now, d[name := f], {}, d', faulty) {
      FaultIsNoted(o, now, d[name := f], {}, d', faulty);
    }
  }

  /** Events yield to inventory and findings: of two batches written ahead they are evicted first and drained
      last. */
  lemma EventsYield(
    d: Directory, events: Name, other: Name, kind: Kind, id: string, id': string, p: Payload, q: Payload,
    size: nat, size': nat, now: int, now': int)
    requires kind in {KindInventory, KindVuln} && events in d && other in d
    requires d[events] == Entry(KindEvents, id, p, size, now) && d[other] == Entry(kind, id', q, size', now')
    ensures EvictedBefore(d, events, other) && !EvictedBefore(d, other, events)
    ensures DrainedBefore(d, other, events) && !DrainedBefore(d, events, other)
  {
  }

  lemma AllShrunk(d: Directory)
    ensures Shrunk(d, d)
  {
  }

  lemma ShrunkTwice(d: Directory, d': Directory, d'': Directory)
    requires Shrunk(d, d') && Shrunk(d', d'')
    ensures Shrunk(d, d'')
  {
  }

  /** Where there is room for a file, there is room with fewer other entries. */
  lemma LimitsShrink(o: Options, now: int, before: Directory, after: Directory, name: Name, f: File)
    requires Shrunk(before, after)
    ensures WithinLimits(o, now, before[name := f], {}) ==> WithinLimits(o, now, after[name := f], {})
  {
    var large, small := before[name := f], after[name := f];
    FewerBytes(large, small);
    SubsetSize(small, large);
    if WithinLimits(o, now, large, {}) {
      forall n | n in small ensures !OverAge(o, now, small[n]) {
        assert n in large && small[n] == large[n];
      }
    }
  }

  lemma {:induction false} FewerBytes(large: Directory, small: Directory)
    requires Shrunk(large, small)
    ensures Bytes(small) <= Bytes(large)
    decreases |large|
  {
    hide Bytes;
    if |large| == 0 {
      SameDirectory(small, large);
    } else {
      var n := Any(large.Keys);
      BytesRemove(large, n);
      if n in small {
        BytesRemove(small, n);
        FewerBytes(large - {n}, small - {n});
      } else {
        FewerBytes(large - {n}, small);
      }
    }
  }

  /** The server confirmed a batch that contains `e`. */
  ghost predicate ConfirmedEvent(log: seq<Exchange>, e: string) {
    exists i :: 0 <= i < |log| && log[i].confirmed && log[i].payload.Events? && e in log[i].payload.batch
  }

  /** A batch that contains `e` is in the spool. */
  ghost predicate SpooledEvent(d: Directory, e: string) {
    exists n :: n in d && d[n].envelope.Some? && d[n].envelope.value.payload.Events?
      && e in d[n].envelope.value.payload.batch
  }

  /** A name that is not taken; the random part of real names sees to that. */
  method FreshName(d: Directory) returns (n: Name)
    ensures n !in d
  {
    n := *;
    if n in d {
      var high := n.rank;
      var rest := d.Keys;
      while rest != {}
        invariant rest <= d.Keys
        invariant forall m :: m in d && m !in rest ==> m.rank <= high
        decreases |rest|
      {
        var m := Pick(rest);
        high := if m.rank > high then m.rank else high;
        rest := rest - {m};
      }
      n := Name(high + 1);
    }
  }

  class Sender {
    const maxBatch: nat
    const spool: Spool?
    ghost var log: seq<Exchange>

    ghost predicate Valid()
      reads this, spool
    {
      && maxBatch > 0
      && (spool != null ==> spool.Valid() && spool.inflight == {})
    }

    constructor (batch: int, sp: Spool?)
      requires sp != null ==> sp.Valid() && sp.inflight == {}
      ensures Valid() && spool == sp && log == [] && maxBatch == if batch <= 0 then 300 else batch
    {
      maxBatch := if batch <= 0 then 300 else batch;
      spool := sp;
      log := [];
    }

    ghost function Directory(): Directory
      reads this, spool
    {
      if spool == null then map[] else spool.files
    }

    /** One `postWithRetry`, entered in the log. */
    method PostLogged(kind: Kind, id: string, payload: Payload, script: nat -> Round) returns (o: Posting)
      modifies `log
      ensures o == Post(kind, payload, script)
      ensures log == old(log) + [Exchange(id, payload, o.error.None?, Directory())]
    {
      o := PostWithRetry(kind, payload, script);
      log := log + [Exchange(id, payload, o.error.None?, Directory())];
    }

    /** The first part of `deliver`. */
    method WriteAhead(kind: Kind, id: string, payload: Payload, name: Name, size: nat, now: int)
      returns (queued: bool)
      requires Valid() && spool != null && name !in spool.files
      modifies spool
      ensures Valid() && (old(Balanced(spool.b)) ==> Balanced(spool.b)) && spool.faults >= old(spool.faults)
      ensures WrittenAhead(spool.o, now, old(spool.files), name, Entry(kind, id, payload, size, now), spool.files,
                           queued, spool.faults > old(spool.faults))
      ensures SameDepartures(old(spool.b), spool.b)
    {
      hide Counted, Reasoned, Balanced, WithinLimits, AfterRetention, Kept;
      var r := spool.Enqueue(name, Envelope(id, kind, PriorityOf(kind), now, 0, payload), size, now);
      queued := r == Queued;
    }

    /** `deliver`. `name` is the new file name and `id` the batch identity; `removal` is how settling
        the written-ahead entry ended. */
    method Deliver(kind: Kind, id: string, payload: Payload, script: nat -> Round, name: Name, size: nat, now: int)
      returns (r: Sent, ghost queued: bool, ghost removal: Option<Removal>)
      requires Valid() && (spool != null ==> name !in spool.files)
      modifies `log, spool
      ensures Valid() && (spool != null ==> old(Balanced(spool.b)) ==> Balanced(spool.b))
      ensures spool != null ==> spool.faults >= old(spool.faults)
      ensures kind == UnknownKind ==> r == Failed && log == old(log) && Directory() == old(Directory())
      ensures kind != UnknownKind ==>
                var o := Post(kind, payload, script);
                && |log| == |old(log)| + 1 && log[..|old(log)|] == old(log)
                && log[|old(log)|].id == id && log[|old(log)|].payload == payload
                && log[|old(log)|].confirmed == o.error.None?
                && (r == Sent ==> o.error.None?)
                && (o.error.None? && !(queued && removal != Some(Removed)) ==> r == Sent)
                && (r.DurablyQueued? <==> queued && o.error.Some? && Spoolable(o.error.value, o.status))
                && (Acknowledges(kind, payload, script(0).response) ==>
                      r == Sent || (spool != null && spool.faults > old(spool.faults)))
      // The batch is on disk while it is posted, settling it always finds it, and a batch reported
      // as queued is still there under the same identity.
      ensures queued ==> kind != UnknownKind && Holds(log[|old(log)|].directory, name, id, payload)
      ensures removal.Some? ==> removal.value in {Removed, Unsynced, NotRemoved}
      ensures removal.Some? <==> queued && !r.DurablyQueued?
      ensures r.DurablyQueued? ==> spool != null && Holds(spool.files, name, id, payload)
      // A confirmed batch leaves the spool as delivered, a refused one as lost for good.
      ensures spool != null ==>
                var settled := removal in {Some(Removed), Some(Unsynced)};
                var confirmed := Post(kind, payload, script).error.None?;
                && spool.b.delivered == old(spool.b.delivered) + (if settled && confirmed then 1 else 0)
                && spool.b.permanent == old(spool.b.permanent) + (if settled && !confirmed then 1 else 0)
                && spool.b.corrupt == old(spool.b.corrupt)
      ensures removal in {Some(Unsynced), Some(NotRemoved)} ==> spool != null && spool.faults > old(spool.faults)
      // What is on disk while the batch is posted, and afterwards: only the batch itself is taken out again.
      ensures spool != null && kind != UnknownKind ==>
                var f, posted := Entry(kind, id, payload, size, now), log[|old(log)|].directory;
                && WrittenAhead(spool.o, now, old(spool.files), name, f, posted, queued,
                                spool.faults > old(spool.faults))
                && spool.files == if removal in {Some(Removed), Some(Unsynced)} then posted - {name} else posted
    {
      hide Counted, Reasoned, Balanced, WrittenAhead, Post, Spoolable, Acknowledges;
      FirstRoundAcknowledged(kind, payload, script);
      queued, removal := false, None;
      if kind == UnknownKind {
        return Failed, false, None;
      }
      if spool == null {
        var o := PostLogged(kind, id, payload, script);
        return if o.error.None? then Sent.Sent else Failed, false, None;
      }
      var written := WriteAhead(kind, id, payload, name, size, now);
      queued := written;
      ghost var f, posted := Entry(kind, id, payload, size, now), spool.files;
      ghost var faulty := spool.faults > old(spool.faults);
      FaultsAreNoted(spool.o, now, old(spool.files), name, f, posted, queued, faulty);
      var o := PostLogged(kind, id, payload, script);
      if !written {
        return if o.error.None? then Sent.Sent else Failed, queued, None;
      }
      if o.error.Some? && Spoolable(o.error.value, o.status) {
        return DurablyQueued(o.error.value), queued, None;
      }
      var reason := if o.error.None? then Reason.Delivered else Permanent;
      var settled := spool.RemoveEnvelope(name, id, reason);
      r := if o.error.None? && settled == Removed then Sent.Sent else Failed;
      removal := Some(settled);
    }

    /** `SendEvents`. Each batch has its own exchange with the server, `scripts(i)`. The durable count is the
        length of a prefix of the events each of which the server confirmed or the spool holds. Sending
        stops early only after a batch whose exchange failed, or that was confirmed but could not be
        settled in the spool; `name` and `f` are the file written ahead for that batch, which counts as
        durable unless it was refused, a file operation failed or the spool has no room for it. */
    method SendEvents(events: seq<string>, scripts: nat -> (nat -> Round), now: int)
      returns (r: Outcome, ok: bool, ghost name: Name, ghost f: File)
      requires Valid()
      modifies `log, spool
      ensures Valid() && r.attempted == |events| && old(log) <= log
      ensures r.delivered <= r.durable <= |events|
      ensures forall i :: 0 <= i < r.delivered ==> ConfirmedEvent(log, events[i])
      ensures forall i :: r.delivered <= i < r.durable ==> SpooledEvent(Directory(), events[i])
      ensures ok <==> r.delivered == |events|
      ensures spool == null ==> r.delivered == r.durable
      ensures !ok ==>
                var i, j := r.delivered, BatchEnd(r.delivered, |events|);
                var o := Post(KindEvents, Events(events[i..j]), scripts(i));
                && i < j && r.durable in {i, j}
                && (o.error.None? || Acknowledges(KindEvents, Events(events[i..j]), scripts(i)(0).response) ==>
                      spool != null && spool.faults > old(spool.faults))
                && (o.error.Some? && !Spoolable(o.error.value, o.status) ==> r.durable == i)
                && (o.error.Some? && Spoolable(o.error.value, o.status) && r.durable == i && spool != null ==>
                      || spool.faults > old(spool.faults)
                      || (&& WrittenFor(f, Events(events[i..j]), now)
                          && !WithinLimits(spool.o, now, old(spool.files)[name := f], {})))
    {
      hide Post, Spoolable, Acknowledges, WithinLimits, SpooledEvent, Shrunk, WrittenFor, Counted, Reasoned;
      r, ok, name, f := Outcome(|events|, 0, 0), true, Name(0), File(0, None, 0);
      AllShrunk(Directory());
      var i := 0;
      while i < |events|
        invariant Valid() && 0 <= i <= |events| && old(log) <= log && ok
        invariant r == Outcome(|events|, i, i)
        invariant forall k :: 0 <= k < i ==> ConfirmedEvent(log, events[k])
        invariant spool != null ==> old(spool.faults) <= spool.faults
        invariant spool != null && spool.faults == old(spool.faults) ==> Shrunk(old(spool.files), spool.files)
      {
        var j := if i + maxBatch < |events| then i + maxBatch else |events|;
        var sent;
        ghost var before := Directory();
        sent, name, f := SendBatch(events, i, j, scripts(i), now);
        if sent != Sent.Sent {
          if spool != null && spool.faults == old(spool.faults) {
            LimitsShrink(spool.o, now, old(spool.files), before, name, f);
          }
          return if sent.DurablyQueued? then r.(durable := j) else r, false, name, f;
        }
        if spool != null && spool.faults == old(spool.faults) {
          ShrunkTwice(old(spool.files), before, spool.files);
        }
        r := Outcome(|events|, j, j);
        i := j;
      }
    }

    /** Where the batch that begins at `i` ends. */
    function BatchEnd(i: nat, n: nat): nat {
      if i + maxBatch < n then i + maxBatch else n
    }

    /** One iteration of the loop of `SendEvents`. */
    method SendBatch(events: seq<string>, i: nat, j: nat, script: nat -> Round, now: int)
      returns (r: Sent, ghost name: Name, ghost f: File)
      requires Valid() && i < j <= |events|
      modifies `log, spool
      ensures Valid() && old(log) <= log && (spool != null ==> spool.faults >= old(spool.faults))
      ensures r == Sent.Sent ==> forall k :: i <= k < j ==> ConfirmedEvent(log, events[k])
      ensures r.DurablyQueued? ==> spool != null && forall k :: i <= k < j ==> SpooledEvent(spool.files, events[k])
      ensures var o := Post(KindEvents, Events(events[i..j]), script);
              && (r == Sent.Sent ==> o.error.None?)
              && (o.error.None? || Acknowledges(KindEvents, Events(events[i..j]), script(0).response) ==>
                    r == Sent.Sent || (spool != null && spool.faults > old(spool.faults)))
              && (r.DurablyQueued? ==> o.error.Some? && Spoolable(o.error.value, o.status))
              && (o.error.Some? && Spoolable(o.error.value, o.status) && !r.DurablyQueued? && spool != null ==>
                    || spool.faults > old(spool.faults)
                    || (&& WrittenFor(f, Events(events[i..j]), now)
                        && !WithinLimits(spool.o, now, old(spool.files)[name := f], {})))
      ensures spool != null && r == Sent.Sent && spool.faults == old(spool.faults) ==>
                Shrunk(old(spool.files), spool.files)
    {
      hide Post, Spoolable, Acknowledges, WithinLimits, AfterRetention, Counted, Reasoned;
      var unused: Name := *;
      if spool != null {
        unused := FreshName(spool.files);
      }
      var id: string := *;
      var size: nat := *;
      var batch := events[i..j];
      name, f := unused, Entry(KindEvents, id, Events(batch), size, now);
      ghost var queued, removal;
      r, queued, removal := Deliver(KindEvents, id, Events(batch), script, unused, size, now);
      assert forall k :: i <= k < j ==> events[k] == batch[k - i] && events[k] in batch;
      if r == Sent.Sent {
        assert log[|log| - 1].confirmed && log[|log| - 1].payload == Events(batch);
      }
    }

    /** `Flush`: an entry is delivered only if the server acknowledges its own batch, discarded as refused
        only if that batch is refused for good, and otherwise kept. */
    method Flush(clock: nat -> int, scripts: (nat, Envelope) -> (nat -> Round))
      returns (delivered: nat, ok: bool, ghost order: seq<Name>, ghost fates: seq<Fate>)
      requires Valid()
      modifies spool
      ensures Valid() && (spool != null ==> old(Balanced(spool.b)) ==> Balanced(spool.b))
      ensures spool == null || old(spool.b.pending) == 0 ==> delivered == 0 && ok && fates == []
      ensures ok ==> forall i :: 0 <= i < |fates| ==> fates[i] !in {Retained, NotRewritten, NotReadable}
      ensures spool != null ==>
                && Recorded(old(spool.b), spool.b, fates) && delivered == Tally(fates, Gone(Reason.Delivered))
                && (old(spool.b.pending) != 0 ==> InDrainOrder(old(spool.files), order))
                && |fates| <= |order| && spool.attended == old(spool.attended) + order[..|fates|]
                && (ok && old(spool.b.pending) != 0 ==> |fates| == Share(DrainLimit(maxBatch), |order|))
                && (!ok ==> spool.faults > old(spool.faults) || (|fates| > 0 && fates[|fates| - 1] == Retained))
                && (spool.b.enqueued == old(spool.b.enqueued) ==>
                      Residue(old(spool.files), spool.files, order, fates))
                && (forall i :: 0 <= i < |fates| && fates[i] in {NotRemovable, NotRewritten, NotReadable} ==>
                      spool.faults > old(spool.faults))
      ensures spool != null ==> forall i :: 0 <= i < |fates| ==>
                && order[i] in old(spool.files)
                && FlushFate(spool.o, clock(i), i, scripts, old(spool.files)[order[i]], fates[i])
                && LeftBy(spool.files, order[i], old(spool.files)[order[i]], fates[i])
    {
      hide Counted, Reasoned, Balanced, InDrainOrder, Taken, WentOn, LeftBy, FlushFate, FlushVerdict;
      delivered, ok, order, fates := 0, true, [], [];
      if spool == null || spool.b.pending == 0 {
        return;
      }
      ghost var before := spool.files;
      var verdict := (i: nat, env: Envelope) => FlushVerdict(env, scripts(i, env));
      delivered, ok, order, fates := spool.Drain(DrainLimit(maxBatch), clock, verdict);
      FlushFates(spool.o, clock, scripts, verdict, before, spool.files, order, fates);
      if ok {
        OnlyGoneOrStuck(spool.o, clock, verdict, before, order, fates);
      }
    }
  }

  lemma OnlyGoneOrStuck(
    o: Options, clock: nat -> int, verdict: (nat, Envelope) -> Verdict, d: Directory, order: seq<Name>,
    fates: seq<Fate>)
    requires WentOn(o, clock, verdict, d, order, fates)
    ensures forall i :: 0 <= i < |fates| ==> fates[i] !in {Retained, NotRewritten, NotReadable}
  {
    forall i | 0 <= i < |fates| ensures fates[i] !in {Retained, NotRewritten, NotReadable} {
      assert GoesOn(o, clock(i), d[order[i]], VerdictOn(i, verdict, d[order[i]]), fates[i]);
    }
  }

  lemma FlushFates(
    o: Options, clock: nat -> int, scripts: (nat, Envelope) -> (nat -> Round), verdict: (nat, Envelope) -> Verdict,
    before: Directory, after: Directory, order: seq<Name>, fates: seq<Fate>)
    requires Taken(o, clock, verdict, before, after, order, fates)
    requires forall i: nat, env :: verdict(i, env) == FlushVerdict(env, scripts(i, env))
    ensures forall i :: 0 <= i < |fates| ==>
              && order[i] in before && FlushFate(o, clock(i), i, scripts, before[order[i]], fates[i])
              && LeftBy(after, order[i], before[order[i]], fates[i])
  {
    hide Post, LeftBy;
    forall i | 0 <= i < |fates| ensures FlushFate(o, clock(i), i, scripts, before[order[i]], fates[i]) {
      FatesFollowVerdicts(o, clock(i), i, verdict, before[order[i]], fates[i]);
    }
  }

  /** What the flush of the entry that held `f` has to do with the exchange about its own batch: the
      exchange decides its fate, and spelled out, it leaves as delivered only if that was acknowledged, as
      lost for good only if it ended in a permanent status, a refused payload or an unknown kind, and it
      is kept if it ended in anything else. */
  ghost predicate FlushFate(
    o: Options, now: int, i: nat, scripts: (nat, Envelope) -> (nat -> Round), f: File, fate: Fate)
  {
    && (|| fate in {Vanished, NotReadable}
        || Fated(o, now, f,
                 if f.envelope.Some? then FlushVerdict(f.envelope.value, scripts(i, f.envelope.value)) else Refused,
                 fate))
    && (fate in {Gone(Reason.Delivered), Gone(Permanent), Retained, NotRewritten} ==>
          f.envelope.Some? && !TooOld(o, now, f))
    && (f.envelope.Some? ==>
          var env := f.envelope.value;
          var p := Post(env.kind, env.payload, scripts(i, env));
          && (fate == Gone(Reason.Delivered) ==> env.kind != UnknownKind && p.error.None?)
          && (fate == Gone(Permanent) ==>
                env.kind == UnknownKind || (p.error.Some? && FlushDiscards(p.error.value, p.status)))
          && (fate in {Retained, NotRewritten} ==>
                env.kind != UnknownKind && p.error.Some? && !FlushDiscards(p.error.value, p.status)))
  }

  /** `spoolDrainLimit`. */
  function DrainLimit(maxBatch: nat): (limit: int)
    ensures 8 <= limit <= 64 && (80 <= maxBatch <= 640 ==> 10 * limit <= maxBatch < 10 * (limit + 1))
    ensures (maxBatch < 80 ==> limit == 8) && (maxBatch > 640 ==> limit == 64)
  {
    var tenth := maxBatch / 10;
    if tenth < 8 then 8 else if tenth > 64 then 64 else tenth
  }
}
