/** The write-ahead spool of internal/spool/spool.go: one file per batch, counters that must agree
    with the directory, and a retention policy that runs while a drain has entries in flight. */
module Spool {
  import opened Optional
  import opened MapSum

  /** A file name, by its place in the lexicographic order of names. */
  datatype Name = Name(rank: int)

  datatype Kind = KindEvents | KindInventory | KindVuln | UnknownKind

  /** Events are represented by their identities. */
  datatype Payload = Events(batch: seq<string>) | Snapshot(text: string) | Findings(count: nat) | Junk(text: string)

  datatype Envelope = Envelope(id: string, kind: Kind, priority: int, createdAt: int, attempts: nat, payload: Payload)

  /** `envelope` is `None` for a file that does not decode. */
  datatype File = File(size: nat, envelope: Option<Envelope>, modified: int)

  type Directory = map<Name, File>

  datatype Options = Options(maxBytes: nat, maxAge: nat, maxItems: nat)

  datatype Reason = Delivered | Expired | Capacity | Corrupt | Permanent

  datatype Books = Books(
    pending: int, bytes: int,
    enqueued: int, delivered: int, dropped: int,
    expired: int, capacity: int, corrupt: int, permanent: int,
    retries: int, enqueueErrors: int)

  /** The total size of the files. */
  ghost function Bytes(d: Directory): int {
    Total(d, (f: File) => f.size)
  }

  lemma BytesRemove(d: Directory, n: Name)
    requires n in d
    ensures Bytes(d) == d[n].size + Bytes(d - {n}) && |d - {n}| == |d| - 1
    ensures 0 <= Bytes(d - {n})
  {
    TotalRemove(d, (f: File) => f.size, n);
    Shrinks(d, n);
    TotalAtLeast(d - {n}, (f: File) => f.size, 0);
  }

  lemma BytesUpdate(d: Directory, n: Name, f: File)
    ensures Bytes(d[n := f]) == Bytes(d) - (if n in d then d[n].size else 0) + f.size
  {
    TotalUpdate(d, (f: File) => f.size, n, f);
  }

  /** The counters agree with the directory. */
  ghost predicate Counted(d: Directory, b: Books) {
    b.pending == |d| && b.bytes == Bytes(d)
  }

  /** Every loss has exactly one reason. */
  predicate Reasoned(b: Books) {
    && b.dropped == b.expired + b.capacity + b.corrupt + b.permanent
    && 0 <= b.expired && 0 <= b.capacity && 0 <= b.corrupt && 0 <= b.permanent
    && 0 <= b.delivered && 0 <= b.enqueued && 0 <= b.retries && 0 <= b.enqueueErrors
  }

  /** Every batch ever queued is still pending, was delivered, or was dropped. */
  predicate Balanced(b: Books) {
    b.enqueued == b.pending + b.delivered + b.dropped
  }

  function Clamp(x: int): int { if x < 0 then 0 else x }

  /** `recordRemovalLocked`. */
  function RecordRemoval(b: Books, size: nat, reason: Reason): Books {
    var base := b.(pending := Clamp(b.pending - 1), bytes := Clamp(b.bytes - size));
    match reason
    case Delivered => base.(delivered := b.delivered + 1)
    case Expired => base.(dropped := b.dropped + 1, expired := b.expired + 1)
    case Capacity => base.(dropped := b.dropped + 1, capacity := b.capacity + 1)
    case Corrupt => base.(dropped := b.dropped + 1, corrupt := b.corrupt + 1)
    case Permanent => base.(dropped := b.dropped + 1, permanent := b.permanent + 1)
  }

  /** How many entries left for one reason. */
  function Departed(b: Books, reason: Reason): int {
    match reason
    case Delivered => b.delivered
    case Expired => b.expired
    case Capacity => b.capacity
    case Corrupt => b.corrupt
    case Permanent => b.permanent
  }

  /** The files missing from `d'` left for this reason, and none for another. */
  ghost predicate Charged(d: Directory, b: Books, d': Directory, b': Books, reason: Reason) {
    && Departed(b', reason) == Departed(b, reason) + |d| - |d'|
    && forall r :: r != reason ==> Departed(b', r) == Departed(b, r)
  }

  /** A removal is charged to its reason. */
  lemma RemovalIsCharged(d: Directory, b: Books, d': Directory, b': Books, n: Name, size: nat, reason: Reason)
    requires Charged(d, b, d', b', reason) && n in d'
    ensures Charged(d, b, d' - {n}, RecordRemoval(b', size, reason), reason)
  {
    Shrinks(d', n);
  }

  /** Removing a file and recording it keeps the books exact; in particular neither counter is ever
      clamped. */
  lemma RemovalIsExact(d: Directory, b: Books, n: Name, reason: Reason)
    requires Counted(d, b) && n in d
    ensures b.pending - 1 >= 0 && b.bytes - d[n].size >= 0
    ensures Counted(d - {n}, RecordRemoval(b, d[n].size, reason))
    ensures Reasoned(b) ==> Reasoned(RecordRemoval(b, d[n].size, reason))
    ensures Balanced(b) <==> Balanced(RecordRemoval(b, d[n].size, reason))
  {
    BytesRemove(d, n);
  }

  /** `d'` and `b'` come from balanced or unbalanced books `b` by removing files and recording why. */
  ghost predicate Account(b: Books, d': Directory, b': Books) {
    && Counted(d', b') && Reasoned(b') && (Balanced(b) ==> Balanced(b'))
    && b'.delivered == b.delivered && b'.enqueued == b.enqueued && b'.retries == b.retries
  }

  lemma AccountIsExact(b: Books, d': Directory, b': Books)
    requires Account(b, d', b')
    ensures Counted(d', b') && Reasoned(b')
  {
  }

  lemma RemovalKeepsAccount(b: Books, d': Directory, b': Books, n: Name, reason: Reason)
    requires Account(b, d', b') && n in d' && reason != Reason.Delivered
    ensures Account(b, d' - {n}, RecordRemoval(b', d'[n].size, reason)) && |d' - {n}| == |d'| - 1
  {
    RemovalIsExact(d', b', n, reason);
    BytesRemove(d', n);
  }

  /** An enqueue that reports a write error although the file is in place would leave it uncounted
      for good: this is why a failed atomic write is taken to leave no file. */
  lemma LandedErrorIsUncounted(d: Directory, b: Books, n: Name, f: File)
    requires Counted(d, b) && n !in d
    ensures !Counted(d[n := f], b.(enqueueErrors := b.enqueueErrors + 1))
  {
    assert d[n := f].Keys == d.Keys + {n};
  }

  // ---------------------------------------------------------------------------------------------
  // Retention.
  // ---------------------------------------------------------------------------------------------

  function Priority(f: File): int {
    if f.envelope.Some? then f.envelope.value.priority else 0
  }

  function Created(f: File): int {
    if f.envelope.Some? && f.envelope.value.createdAt != 0 then f.envelope.value.createdAt else f.modified
  }

  predicate OverAge(o: Options, now: int, f: File) {
    o.maxAge > 0 && Created(f) < now - o.maxAge
  }

  ghost predicate Fits(o: Options, d: Directory) {
    Bytes(d) <= o.maxBytes && |d| <= o.maxItems
  }

  /** Eviction order: least important first, then oldest name first. */
  predicate EvictedBefore(d: Directory, a: Name, b: Name)
    requires a in d && b in d
  {
    Priority(d[a]) < Priority(d[b]) || (Priority(d[a]) == Priority(d[b]) && a.rank <= b.rank)
  }

  ghost predicate InEvictionOrder(d: Directory, names: seq<Name>) {
    && (forall i :: 0 <= i < |names| ==> names[i] in d)
    && (forall n :: n in d ==> n in names)
    && (forall i, j :: 0 <= i < j < |names| ==> names[i] != names[j] && EvictedBefore(d, names[i], names[j]))
  }

  /** The directory once the first `k` entries of `order` are gone, those in flight excepted. */
  ghost function Evicted(d: Directory, order: seq<Name>, k: nat, inflight: set<Name>): Directory
    requires k <= |order|
  {
    if k == 0 then d
    else
      var before := Evicted(d, order, k - 1, inflight);
      if order[k - 1] in inflight then before else before - {order[k - 1]}
  }

  lemma {:induction false} EvictedMembers(d: Directory, order: seq<Name>, k: nat, inflight: set<Name>)
    requires k <= |order|
    ensures forall n :: n in Evicted(d, order, k, inflight) <==> n in d && (n in inflight || n !in order[..k])
    ensures forall n :: n in Evicted(d, order, k, inflight) ==> Evicted(d, order, k, inflight)[n] == d[n]
  {
    if k > 0 {
      EvictedMembers(d, order, k - 1, inflight);
      assert order[..k] == order[..k - 1] + [order[k - 1]];
    }
  }

  lemma NotYetEvicted(d: Directory, order: seq<Name>, k: nat, inflight: set<Name>)
    requires k < |order| && order[k] in d
    requires forall i, j :: 0 <= i < j < |order| ==> order[i] != order[j]
    ensures order[k] in Evicted(d, order, k, inflight)
  {
    EvictedMembers(d, order, k, inflight);
    assert order[k] !in order[..k];
  }

  /** Evicting the first `k` entries does not meet both budgets. */
  ghost predicate Misses(o: Options, d: Directory, order: seq<Name>, inflight: set<Name>, k: nat)
    requires k <= |order|
  {
    !Fits(o, Evicted(d, order, k, inflight))
  }

  /** What retention must leave of a directory `d` without over-age entries: the first `k` entries in
      eviction order, as far as not in flight, are gone, and no shorter prefix would have met both
      budgets. */
  ghost predicate MinimalEviction(
    o: Options, d: Directory, order: seq<Name>, inflight: set<Name>, k: nat, d': Directory)
  {
    && k <= |order| && d' == Evicted(d, order, k, inflight)
    && (Misses(o, d, order, inflight, k) ==> k == |order|)
    && (forall j :: 0 <= j < k ==> Misses(o, d, order, inflight, j))
  }

  lemma RemovalKeepsFit(o: Options, d: Directory, n: Name)
    requires Fits(o, d)
    ensures Fits(o, d - {n})
  {
    if n in d {
      BytesRemove(d, n);
    } else {
      assert d - {n} == d;
    }
  }

  /** Every prefix shorter than the one evicted misses a budget. */
  lemma {:induction false} ShorterPrefixesMiss(
    o: Options, d: Directory, order: seq<Name>, inflight: set<Name>, k: nat, j: nat)
    requires j <= k <= |order| && Misses(o, d, order, inflight, k)
    ensures Misses(o, d, order, inflight, j)
  {
    hide Fits;
    if j < k {
      if !Misses(o, d, order, inflight, k - 1) {
        RemovalKeepsFit(o, Evicted(d, order, k - 1, inflight), order[k - 1]);
      }
      ShorterPrefixesMiss(o, d, order, inflight, k - 1, j);
    }
  }

  /** One step back is enough to tell that the eviction is minimal. */
  lemma {:induction false} EvictionIsMinimal(o: Options, d: Directory, order: seq<Name>, inflight: set<Name>, k: nat)
    requires k <= |order| && (k == |order| || !Misses(o, d, order, inflight, k))
    requires k > 0 ==> Misses(o, d, order, inflight, k - 1)
    ensures MinimalEviction(o, d, order, inflight, k, Evicted(d, order, k, inflight))
  {
    hide Misses, Evicted;
    forall j | 0 <= j < k ensures Misses(o, d, order, inflight, j) {
      ShorterPrefixesMiss(o, d, order, inflight, k - 1, j);
    }
  }

  /** A directory within both budgets is left alone. */
  lemma {:induction false} NoEvictionWithinLimits(
    o: Options, d: Directory, order: seq<Name>, inflight: set<Name>, k: nat)
    requires k <= |order| && (k > 0 ==> Misses(o, d, order, inflight, k - 1))
    ensures Fits(o, d) ==> Evicted(d, order, k, inflight) == d
  {
    hide Fits;
    if k > 0 {
      ShorterPrefixesMiss(o, d, order, inflight, k - 1, 0);
    }
  }

  /** If a budget is still missed, everything that could be evicted is gone. */
  lemma {:induction false} MissedOnlyWhenExhausted(
    o: Options, d: Directory, order: seq<Name>, inflight: set<Name>, k: nat, d': Directory)
    requires MinimalEviction(o, d, order, inflight, k, d') && !Fits(o, d')
    ensures forall n :: n in d' ==> n in inflight || n !in order
  {
    EvictedMembers(d, order, k, inflight);
    assert order[..k] == order;
  }

  /** What the age limit leaves: everything young enough, and whatever is in flight. */
  ghost function Spared(o: Options, now: int, d: Directory, inflight: set<Name>): Directory {
    map n | n in d && (n in inflight || !OverAge(o, now, d[n])) :: d[n]
  }

  /** Selection sort by eviction order. */
  method SortForEviction(d: Directory) returns (order: seq<Name>)
    ensures InEvictionOrder(d, order)
  {
    order := [];
    var rest := d.Keys;
    while rest != {}
      invariant rest <= d.Keys
      invariant forall i :: 0 <= i < |order| ==> order[i] in d && order[i] !in rest
      invariant forall n :: n in d ==> n in rest || n in order
      invariant forall i, j :: 0 <= i < j < |order| ==> order[i] != order[j] && EvictedBefore(d, order[i], order[j])
      invariant forall i, n :: 0 <= i < |order| && n in rest ==> EvictedBefore(d, order[i], n)
      decreases |rest|
    {
      var least := Pick(rest);
      var others := rest - {least};
      while others != {}
        invariant others <= rest && least in rest
        invariant forall n :: n in rest && n !in others ==> EvictedBefore(d, least, n)
        decreases |others|
      {
        var n := Pick(others);
        var p := if d[least].envelope.Some? then d[least].envelope.value.priority else 0;
        var q := if d[n].envelope.Some? then d[n].envelope.value.priority else 0;
        if q < p || (q == p && n.rank < least.rank) {
          least := n;
        }
        others := others - {n};
      }
      order := order + [least];
      rest := rest - {least};
    }
  }

  /** Drops the entries that are over age and not in flight. `stuck` are the names whose removal
      fails; `kept` is what the capacity pass then considers. */
  method DropExpired(o: Options, now: int, d: Directory, b: Books, inflight: set<Name>, stuck: set<Name>)
    returns (d': Directory, b': Books, kept: set<Name>)
    requires Counted(d, b) && Reasoned(b)
    ensures Account(b, d', b') && Charged(d, b, d', b', Expired)
    ensures kept == Spared(o, now, d, inflight).Keys
    ensures forall n :: n in d' <==> n in kept || (n in d && n in stuck)
    ensures forall n :: n in d' ==> d'[n] == d[n]
  {
    d', b' := d, b;
    kept := {};
    var rest := d.Keys;
    while rest != {}
      invariant rest <= d.Keys
      invariant Account(b, d', b') && Charged(d, b, d', b', Expired)
      invariant forall n :: n in kept <==> n in d && n !in rest && (n in inflight || !OverAge(o, now, d[n]))
      invariant forall n :: n in d' <==> n in d && (n in rest || n in kept || n in stuck)
      invariant forall n :: n in d' ==> d'[n] == d[n]
      decreases |rest|
    {
      var n := Pick(rest);
      rest := rest - {n};
      var created := d[n].modified;
      if d[n].envelope.Some? && d[n].envelope.value.createdAt != 0 {
        created := d[n].envelope.value.createdAt;
      }
      if n in inflight || o.maxAge == 0 || created >= now - o.maxAge {
        kept := kept + {n};
      } else if n !in stuck {
        RemovalKeepsAccount(b, d', b', n, Expired);
        RemovalIsCharged(d, b, d', b', n, d[n].size, Expired);
        b' := RecordRemoval(b', d[n].size, Expired);
        d' := d' - {n};
      }
    }
    SameMembers(kept, Spared(o, now, d, inflight).Keys);
  }

  /** The capacity pass over the kept entries in eviction order. `remaining` is the number of kept
      entries, of which those whose removal fails stay. */
  method EvictForCapacity(o: Options, d: Directory, b: Books, names: seq<Name>, inflight: set<Name>, stuck: set<Name>)
    returns (d': Directory, b': Books, ghost k: nat)
    requires Counted(d, b) && Reasoned(b)
    requires forall i :: 0 <= i < |names| ==> names[i] in d
    requires forall i, j :: 0 <= i < j < |names| ==> names[i] != names[j]
    requires |names| <= |d|
    ensures Account(b, d', b') && Charged(d, b, d', b', Capacity)
    ensures forall n :: n in d' ==> n in d && d'[n] == d[n]
    ensures forall n :: n in d && n in inflight ==> n in d'
    ensures MinimalEviction(WithSpare(o, |d| - |names|), d, names, inflight + stuck, k, d')
    ensures |names| == |d| && Fits(o, d) ==> d' == d
  {
    hide Evicted, Misses, MinimalEviction, Fits, Account, Counted, Charged;
    var i;
    ghost var protected := inflight + stuck;
    d', b', i := EvictWhileOver(o, d, b, names, inflight, stuck, protected);
    k := i;
    EvictedMembers(d, names, i, protected);
    NoEvictionWithinLimits(WithSpare(o, |d| - |names|), d, names, protected, i);
    EvictionIsMinimal(WithSpare(o, |d| - |names|), d, names, protected, i);
  }

  method EvictWhileOver(
    o: Options, d: Directory, b: Books, names: seq<Name>, inflight: set<Name>, stuck: set<Name>,
    ghost protected: set<Name>)
    returns (d': Directory, b': Books, i: nat)
    requires Counted(d, b) && Reasoned(b)
    requires forall i :: 0 <= i < |names| ==> names[i] in d
    requires forall i, j :: 0 <= i < j < |names| ==> names[i] != names[j]
    requires |names| <= |d| && forall n :: n in protected <==> n in inflight || n in stuck
    ensures Account(b, d', b') && Charged(d, b, d', b', Capacity)
    ensures i <= |names| && d' == Evicted(d, names, i, protected)
    ensures i == |names| || !Misses(WithSpare(o, |d| - |names|), d, names, protected, i)
    ensures i > 0 ==> Misses(WithSpare(o, |d| - |names|), d, names, protected, i - 1)
  {
    hide Evicted, Misses, Account, Charged, Counted, Reasoned, WithSpare;
    d', b' := d, b;
    NoneEvicted(d, names, protected, b);
    var remaining := |names|;
    i := 0;
    while i < |names|
      invariant i <= |names|
      invariant Account(b, d', b') && Charged(d, b, d', b', Capacity)
      invariant d' == Evicted(d, names, i, protected)
      invariant remaining == |names| - |d| + |d'|
      invariant i > 0 ==> Misses(WithSpare(o, |d| - |names|), d, names, protected, i - 1)
    {
      MissesIffOver(o, |d| - |names|, d, names, protected, i, b, b');
      if b'.bytes <= o.maxBytes && remaining <= o.maxItems {
        break;
      }
      NotYetEvicted(d, names, i, protected);
      OneMoreEvicted(d, names, i, protected);
      if names[i] !in inflight {
        var removed;
        d', b', removed := TryRemove(d, b, d', b', names[i], stuck);
        if removed {
          remaining := remaining - 1;
        }
      }
      i := i + 1;
    }
  }

  lemma NoneEvicted(d: Directory, order: seq<Name>, inflight: set<Name>, b: Books)
    requires Counted(d, b) && Reasoned(b)
    ensures Evicted(d, order, 0, inflight) == d && Account(b, d, b) && Charged(d, b, d, b, Capacity)
  {
  }

  lemma OneMoreEvicted(d: Directory, order: seq<Name>, k: nat, inflight: set<Name>)
    requires k < |order|
    ensures Evicted(d, order, k + 1, inflight) ==
            (var before := Evicted(d, order, k, inflight);
             if order[k] in inflight then before else before - {order[k]})
  {
  }

  /** The counters tell whether a budget is missed. */
  lemma MissesIffOver(
    o: Options, spare: nat, d: Directory, order: seq<Name>, inflight: set<Name>, k: nat, b: Books, b': Books)
    requires k <= |order| && Account(b, Evicted(d, order, k, inflight), b')
    ensures Misses(WithSpare(o, spare), d, order, inflight, k) <==>
            b'.bytes > o.maxBytes || |Evicted(d, order, k, inflight)| > o.maxItems + spare
  {
  }

  method TryRemove(ghost start: Directory, ghost b: Books, d: Directory, b': Books, n: Name, stuck: set<Name>)
    returns (d': Directory, b'': Books, removed: bool)
    requires Account(b, d, b') && Charged(start, b, d, b', Capacity) && n in d
    ensures removed <==> n !in stuck
    ensures Account(b, d', b'') && Charged(start, b, d', b'', Capacity)
    ensures d' == if removed then d - {n} else d
    ensures |d'| == if removed then |d| - 1 else |d|
  {
    removed := n !in stuck;
    d', b'' := d, b';
    if removed {
      RemovalKeepsAccount(b, d, b', n, Capacity);
      RemovalIsCharged(start, b, d, b', n, d[n].size, Capacity);
      d', b'' := d - {n}, RecordRemoval(b', d[n].size, Capacity);
    }
  }

  /** The limits with room for some more entries: those that are over age but could not be removed do not
      count towards the number of entries. */
  function WithSpare(o: Options, spare: nat): Options {
    o.(maxItems := o.maxItems + spare)
  }

  /** `d'` is what retention must leave of `d` when the names in `stuck` cannot be removed: over-age entries
      are gone, and of the others the first `k` in eviction order, as far as removable and not in flight,
      where no shorter prefix would have met both budgets. */
  ghost predicate Pruned(
    o: Options, now: int, d: Directory, inflight: set<Name>, stuck: set<Name>, order: seq<Name>, k: nat, d': Directory)
  {
    var considered, young := Spared(o, now, d, inflight), Spared(o, now, d, inflight + stuck);
    && InEvictionOrder(considered, order) && |considered| <= |young|
    && MinimalEviction(WithSpare(o, |young| - |considered|), young, order, inflight + stuck, k, d')
  }

  ghost predicate Enforced(
    o: Options, now: int, d: Directory, inflight: set<Name>, stuck: set<Name>, d': Directory)
  {
    exists order, k :: Pruned(o, now, d, inflight, stuck, order, k, d')
  }

  /** `d'` is what an attempt to enforce retention leaves of `d`; the attempt is at fault if the directory
      cannot be listed or some entries cannot be removed. */
  ghost predicate AfterRetention(
    o: Options, now: int, d: Directory, inflight: set<Name>, d': Directory, faulty: bool)
  {
    if faulty then d' == d || exists stuck :: Enforced(o, now, d, inflight, stuck, d')
    else Enforced(o, now, d, inflight, {}, d')
  }

  lemma NothingEnforced(o: Options, now: int, d: Directory, inflight: set<Name>)
    ensures AfterRetention(o, now, d, inflight, d, true)
  {
  }

  lemma PrunedAfterRetention(
    o: Options, now: int, d: Directory, inflight: set<Name>, stuck: set<Name>, order: seq<Name>, k: nat, d': Directory)
    requires Pruned(o, now, d, inflight, stuck, order, k, d')
    ensures AfterRetention(o, now, d, inflight, d', stuck != {})
  {
    hide Pruned;
    assert Enforced(o, now, d, inflight, stuck, d');
  }

  /** If every entry can be removed, none outside the in-flight set is over age afterwards, and evictions
      are minimal. */
  lemma PrunedWithoutFaults(
    o: Options, now: int, d: Directory, inflight: set<Name>, order: seq<Name>, k: nat, d': Directory)
    requires Pruned(o, now, d, inflight, {}, order, k, d')
    ensures var spared := Spared(o, now, d, inflight);
            InEvictionOrder(spared, order) && MinimalEviction(o, spared, order, inflight, k, d')
    ensures forall n :: n in d' ==> n in inflight || !OverAge(o, now, d'[n])
  {
    hide Evicted, Misses, InEvictionOrder;
    assert inflight + {} == inflight;
    assert WithSpare(o, 0) == o;
    EvictedMembers(Spared(o, now, d, inflight), order, k, inflight);
  }

  /** There is nothing for retention to do. */
  ghost predicate WithinLimits(o: Options, now: int, d: Directory, inflight: set<Name>) {
    Fits(o, d) && forall n :: n in d ==> n in inflight || !OverAge(o, now, d[n])
  }

  /** `enforceRetentionLocked`. The books stay exact whatever fails, and what is left is exactly what the
      policy calls for given which removals fail. */
  method EnforceRetention(o: Options, now: int, d: Directory, b: Books, inflight: set<Name>, stuck: set<Name>)
    returns (d': Directory, b': Books, ghost order: seq<Name>, ghost k: nat)
    requires Counted(d, b) && Reasoned(b)
    ensures Account(b, d', b')
    ensures forall n :: n in d' ==> n in d && d'[n] == d[n]
    ensures forall n :: n in d && n in inflight ==> n in d'
    ensures Pruned(o, now, d, inflight, stuck, order, k, d')
    ensures WithinLimits(o, now, d, inflight) ==> d' == d
    ensures b'.expired + b'.capacity == b.expired + b.capacity + |d| - |d'|
    ensures b'.corrupt == b.corrupt && b'.permanent == b.permanent
  {
    hide Evicted, Misses, InEvictionOrder, MinimalEviction, Account, Charged, Counted, Reasoned, Fits;
    var kept;
    d', b', kept := DropExpired(o, now, d, b, inflight, stuck);
    var candidates := map n | n in kept && n in d :: d[n];
    ghost var spared := Spared(o, now, d, inflight);
    SameDirectory(candidates, spared);
    var names := SortForEviction(candidates);
    order := names;
    DistinctCount(spared, names);
    SameDirectory(d', Spared(o, now, d, inflight + stuck));
    SubsetSize(spared, d');
    if WithinLimits(o, now, d, inflight) {
      SameDirectory(d', d);
      SameDirectory(d', spared);
    }
    ghost var young, books := d', b';
    AccountIsExact(b, young, books);
    d', b', k := EvictForCapacity(o, d', b', names, inflight, stuck);
    AddCharges(d, b, young, books, d', b');
  }

  lemma AddCharges(d: Directory, b: Books, young: Directory, books: Books, d': Directory, b': Books)
    requires Charged(d, b, young, books, Expired) && Charged(young, books, d', b', Capacity)
    requires Account(b, young, books) && Account(books, d', b')
    ensures Account(b, d', b')
    ensures b'.expired + b'.capacity == b.expired + b.capacity + |d| - |d'|
    ensures b'.corrupt == b.corrupt && b'.permanent == b.permanent
  {
    assert Departed(books, Capacity) == Departed(b, Capacity) && Departed(b', Expired) == Departed(books, Expired);
    assert Departed(b', Corrupt) == Departed(books, Corrupt) == Departed(b, Corrupt);
    assert Departed(b', Permanent) == Departed(books, Permanent) == Departed(b, Permanent);
  }

  lemma SameDirectory(a: Directory, b: Directory)
    requires forall n :: n in a <==> n in b
    requires forall n :: n in a ==> a[n] == b[n]
    ensures a == b
  {
    SameMembers(a.Keys, b.Keys);
  }

  lemma SubsetSize(a: Directory, b: Directory)
    requires forall n :: n in a ==> n in b
    ensures |a| <= |b|
  {
    SmallerSet(a.Keys, b.Keys);
  }

  lemma {:induction false} SmallerSet(a: set<Name>, b: set<Name>)
    requires forall n :: n in a ==> n in b
    ensures |a| <= |b|
  {
    if n :| n in a {
      SmallerSet(a - {n}, b - {n});
    }
  }

  lemma {:induction false} DistinctSize(names: seq<Name>)
    requires forall i, j :: 0 <= i < j < |names| ==> names[i] != names[j]
    ensures |(set n | n in names)| == |names|
  {
    if names != [] {
      var rest := names[..|names| - 1];
      DistinctSize(rest);
      assert names == rest + [names[|names| - 1]];
      assert (set n | n in names) == (set n | n in rest) + {names[|names| - 1]};
    }
  }

  lemma DistinctCount(d: Directory, names: seq<Name>)
    requires InEvictionOrder(d, names)
    ensures |names| == |d|
    ensures forall i :: 0 <= i < |names| ==> names[i] in d
    ensures forall i, j :: 0 <= i < j < |names| ==> names[i] != names[j]
  {
    DistinctSize(names);
    SameMembers((set n | n in names), d.Keys);
  }

  // ---------------------------------------------------------------------------------------------
  // The statistics file.
  // ---------------------------------------------------------------------------------------------

  function Max(x: int, y: int): int { if x < y then y else x }

  /** The counting part of `rescanLocked`. */
  ghost function Rescanned(d: Directory, totals: Books): Books {
    totals.(pending := |d|, bytes := Bytes(d), enqueued := Max(totals.enqueued, |d|))
  }

  lemma RestartCounts(d: Directory, totals: Books)
    requires Reasoned(totals)
    ensures Counted(d, Rescanned(d, totals)) && Reasoned(Rescanned(d, totals))
  {
  }

  /** After a restart the books balance precisely if the statistics file balances with the directory,
      or has forgotten some batches and knows of no departure: a stale file is never repaired beyond
      that. */
  lemma RestartBalances(d: Directory, totals: Books)
    requires Reasoned(totals)
    ensures Balanced(Rescanned(d, totals)) <==>
              || totals.enqueued == |d| + totals.delivered + totals.dropped
              || (totals.enqueued < |d| && totals.delivered + totals.dropped == 0)
  {
  }

  /** A clean shutdown is one after which the file holds the books as they were. */
  lemma CleanRestartBalances(d: Directory, b: Books)
    requires Counted(d, b) && Reasoned(b)
    ensures Balanced(Rescanned(d, b)) <==> Balanced(b) || (b.enqueued < |d| && b.delivered + b.dropped == 0)
    ensures Balanced(b) ==> Rescanned(d, b) == b
  {
    RestartBalances(d, b);
  }

  /** A crash between the removal of a delivered batch and the statistics write leaves the books one
      short for good. */
  lemma CrashUnbalances(d: Directory, b: Books, n: Name)
    requires Counted(d, b) && Reasoned(b) && Balanced(b) && n in d
    ensures !Balanced(Rescanned(d - {n}, b))
  {
    BytesRemove(d, n);
  }

  /** The scan of `rescanLocked`. */
  method Measure(d: Directory) returns (bytes: int)
    ensures bytes == Bytes(d)
  {
    bytes := 0;
    var rest := d;
    while |rest| != 0
      invariant bytes + Bytes(rest) == Bytes(d)
      decreases |rest|
    {
      var n := Pick(rest.Keys);
      BytesRemove(rest, n);
      bytes := bytes + rest[n].size;
      rest := rest - {n};
    }
  }

  /** `rescanLocked`: count, then enforce retention, unless the directory cannot be listed again. */
  method Rescan(o: Options, now: int, found: Directory, totals: Books)
    returns (d: Directory, b: Books, ghost faulty: bool)
    requires Reasoned(totals)
    ensures Account(Rescanned(found, totals), d, b)
    ensures forall n :: n in d ==> n in found && d[n] == found[n]
    ensures AfterRetention(o, now, found, {}, d, faulty)
    ensures WithinLimits(o, now, found, {}) ==> d == found
  {
    hide Pruned, WithinLimits, AfterRetention;
    NothingEnforced(o, now, found, {});
    var bytes := Measure(found);
    d, b := found, totals.(pending := |found|, bytes := bytes, enqueued := totals.enqueued);
    if b.enqueued < b.pending {
      b := b.(enqueued := b.pending);
    }
    RestartCounts(found, totals);
    var readable: bool := *;
    faulty := !readable;
    if readable {
      var stuck: set<Name> := *;
      ghost var order, k;
      d, b, order, k := EnforceRetention(o, now, d, b, {}, stuck);
      faulty := stuck != {};
      PrunedAfterRetention(o, now, found, {}, stuck, order, k, d);
    }
  }

  // ---------------------------------------------------------------------------------------------
  // Drain order.
  // ---------------------------------------------------------------------------------------------

  /** Undecodable files first, then by importance, age and name. */
  predicate DrainedBefore(d: Directory, a: Name, b: Name)
    requires a in d && b in d
  {
    var e, f := d[a].envelope, d[b].envelope;
    if e.None? || f.None? then e.None? && (f.Some? || a.rank <= b.rank)
    else if e.value.priority != f.value.priority then e.value.priority > f.value.priority
    else if e.value.createdAt != f.value.createdAt then e.value.createdAt < f.value.createdAt
    else a.rank <= b.rank
  }

  ghost predicate InDrainOrder(d: Directory, names: seq<Name>) {
    && (forall i :: 0 <= i < |names| ==> names[i] in d)
    && (forall n :: n in d ==> n in names)
    && (forall i, j :: 0 <= i < j < |names| ==> names[i] != names[j] && DrainedBefore(d, names[i], names[j]))
  }

  /** The comparison in `snapshot`. */
  method DrainedSooner(f: File, a: Name, g: File, b: Name) returns (sooner: bool)
    ensures sooner <==>
              if f.envelope.None? || g.envelope.None?
              then f.envelope.None? && (g.envelope.Some? || a.rank < b.rank)
              else
                var e, e' := f.envelope.value, g.envelope.value;
                || e.priority > e'.priority
                || (e.priority == e'.priority && e.createdAt < e'.createdAt)
                || (e.priority == e'.priority && e.createdAt == e'.createdAt && a.rank < b.rank)
  {
    if f.envelope.None? != g.envelope.None? {
      return f.envelope.None?;
    }
    if f.envelope.None? {
      return a.rank < b.rank;
    }
    var e, e' := f.envelope.value, g.envelope.value;
    if e.priority != e'.priority {
      return e.priority > e'.priority;
    }
    if e.createdAt != e'.createdAt {
      return e.createdAt < e'.createdAt;
    }
    sooner := a.rank < b.rank;
  }

  method NextToDrain(d: Directory, candidates: set<Name>) returns (first: Name)
    requires candidates != {} && candidates <= d.Keys
    ensures first in candidates && forall n :: n in candidates ==> DrainedBefore(d, first, n)
  {
    first := Pick(candidates);
    var others := candidates - {first};
    while others != {}
      invariant others <= candidates && first in candidates
      invariant forall n :: n in candidates && n !in others ==> DrainedBefore(d, first, n)
      decreases |others|
    {
      var n := Pick(others);
      var sooner := DrainedSooner(d[n], n, d[first], first);
      if sooner {
        first := n;
      }
      others := others - {n};
    }
  }

  /** `snapshot`. */
  method SortForDrain(d: Directory) returns (names: seq<Name>)
    ensures InDrainOrder(d, names)
  {
    names := [];
    var rest := d.Keys;
    while rest != {}
      invariant rest <= d.Keys
      invariant forall i :: 0 <= i < |names| ==> names[i] in d && names[i] !in rest
      invariant forall n :: n in d ==> n in rest || n in names
      invariant forall i, j :: 0 <= i < j < |names| ==> names[i] != names[j] && DrainedBefore(d, names[i], names[j])
      invariant forall i, n :: 0 <= i < |names| && n in rest ==> DrainedBefore(d, names[i], n)
      decreases |rest|
    {
      var first := NextToDrain(d, rest);
      names := names + [first];
      rest := rest - {first};
    }
  }

  // ---------------------------------------------------------------------------------------------
  // The spool itself.
  // ---------------------------------------------------------------------------------------------

  datatype Enqueued = Queued | NotWritten | OverBudget | Uninspected

  datatype Removal = Removed | Unsynced | NotFound | Undecodable | OtherBatch | NotRemoved

  /** What delivering one batch came to. */
  datatype Verdict = Accepted | Refused | Deferred

  /** What became of an entry in a drain. */
  datatype Fate = Vanished | Gone(reason: Reason) | NotRemovable | Retained | NotRewritten | NotReadable

  /** What has to become of the entry `f` when it is taken up at time `now` and its delivery comes to
      `v`; a removal or rewriting that fails leaves it as it is. */
  predicate Fated(o: Options, now: int, f: File, v: Verdict, fate: Fate) {
    if f.envelope.None? then fate in {Gone(Corrupt), NotRemovable}
    else if TooOld(o, now, f) then fate in {Gone(Reason.Expired), NotRemovable}
    else match v
      case Accepted => fate in {Gone(Reason.Delivered), NotRemovable}
      case Refused => fate in {Gone(Permanent), NotRemovable}
      case Deferred => fate in {Retained, NotRewritten}
  }

  function VerdictOn(i: nat, verdict: (nat, Envelope) -> Verdict, f: File): Verdict {
    if f.envelope.Some? then verdict(i, f.envelope.value) else Refused
  }

  /** The i-th entry of a drain, which held `f`, met its fate: it was gone or could not be read when its
      turn came, or its own content, its age and the delivery of its own envelope decided. */
  predicate Met(o: Options, now: int, i: nat, verdict: (nat, Envelope) -> Verdict, f: File, fate: Fate) {
    fate in {Vanished, NotReadable} || Fated(o, now, f, VerdictOn(i, verdict, f), fate)
  }

  /** The drain goes on after this entry: it was gone or is gone now, or it could not be removed although it
      was not delivered. */
  predicate GoesOn(o: Options, now: int, f: File, v: Verdict, fate: Fate) {
    || fate == Vanished || fate.Gone?
    || (fate == NotRemovable && (f.envelope.None? || TooOld(o, now, f) || v == Refused))
  }

  predicate TooOld(o: Options, now: int, f: File) {
    f.envelope.Some? && o.maxAge > 0 && now - f.envelope.value.createdAt > o.maxAge
  }

  /** An entry leaves as delivered only if its own envelope was accepted, as lost for good only if it was
      refused, as expired only if it is too old and as corrupt only if it does not decode; one that is
      kept was deferred. */
  lemma FatesFollowVerdicts(o: Options, now: int, i: nat, verdict: (nat, Envelope) -> Verdict, f: File, fate: Fate)
    requires Met(o, now, i, verdict, f, fate)
    ensures fate == Gone(Reason.Delivered) ==>
              f.envelope.Some? && !TooOld(o, now, f) && verdict(i, f.envelope.value) == Accepted
    ensures fate == Gone(Permanent) ==>
              f.envelope.Some? && !TooOld(o, now, f) && verdict(i, f.envelope.value) == Refused
    ensures fate in {Retained, NotRewritten} ==>
              f.envelope.Some? && !TooOld(o, now, f) && verdict(i, f.envelope.value) == Deferred
    ensures fate == Gone(Reason.Expired) ==> TooOld(o, now, f)
    ensures fate == Gone(Corrupt) ==> f.envelope.None?
    ensures fate != Gone(Capacity)
  {
  }

  /** The same batch after one more attempt. */
  predicate TriedAgain(f: File, g: File) {
    f.envelope.Some? && g.envelope == Some(f.envelope.value.(attempts := f.envelope.value.attempts + 1))
  }

  /** Of the entries named, none is new and none has other content. */
  ghost predicate Undisturbed(before: Directory, after: Directory, names: set<Name>) {
    forall n :: n in after && n in names ==> n in before && after[n] == before[n]
  }

  /** What a drain leaves of the entry that held `f` and met `fate`. */
  ghost predicate LeftBy(files: Directory, name: Name, f: File, fate: Fate) {
    && (fate.Gone? || fate == Vanished ==> name !in files)
    && (fate == Retained ==> name in files && TriedAgain(f, files[name]))
    && (fate != Retained && name in files ==> files[name] == f)
  }

  /** How many of the entries met this fate. */
  function Tally(fates: seq<Fate>, fate: Fate): nat {
    if fates == [] then 0
    else Tally(fates[..|fates| - 1], fate) + if fates[|fates| - 1] == fate then 1 else 0
  }

  lemma TallyStep(fates: seq<Fate>, last: Fate, fate: Fate)
    ensures Tally(fates + [last], fate) == Tally(fates, fate) + if last == fate then 1 else 0
  {
    assert (fates + [last])[..|fates|] == fates;
  }

  /** The books say of each entry taken up why it left, or that it was tried once more. Only batches enqueued
      meanwhile make others leave for their age or for room. */
  predicate Recorded(b: Books, b': Books, fates: seq<Fate>) {
    && b'.delivered == b.delivered + Tally(fates, Gone(Reason.Delivered))
    && b'.permanent == b.permanent + Tally(fates, Gone(Permanent))
    && b'.corrupt == b.corrupt + Tally(fates, Gone(Corrupt))
    && b'.retries == b.retries + Tally(fates, Retained)
    && b.enqueued <= b'.enqueued
    && (b'.enqueued == b.enqueued ==>
          b'.expired == b.expired + Tally(fates, Gone(Reason.Expired)) && b'.capacity == b.capacity)
  }

  lemma RecordedStep(b: Books, b': Books, b'': Books, fates: seq<Fate>, fate: Fate)
    requires Recorded(b, b', fates) && Recorded(b', b'', [fate])
    ensures Recorded(b, b'', fates + [fate])
  {
    assert [] + [fate] == [fate];
    forall any: Fate ensures Tally(fates + [fate], any) == Tally(fates, any) + Tally([fate], any) {
      TallyStep(fates, fate, any);
      TallyStep([], fate, any);
    }
  }

  /** What a drain made of the names listed in `d`: those taken up met their fates, and the others, as far as
      still there, are as they were. */
  ghost predicate Taken(
    o: Options, clock: nat -> int, verdict: (nat, Envelope) -> Verdict, d: Directory, d': Directory,
    names: seq<Name>, fates: seq<Fate>)
  {
    && |fates| <= |names| && (forall i :: 0 <= i < |names| ==> names[i] in d)
    && (forall i :: 0 <= i < |fates| ==>
          && Met(o, clock(i), i, verdict, d[names[i]], fates[i])
          && LeftBy(d', names[i], d[names[i]], fates[i])
          && (i < |fates| - 1 ==> GoesOn(o, clock(i), d[names[i]], VerdictOn(i, verdict, d[names[i]]), fates[i])))
    && (forall i :: |fates| <= i < |names| && names[i] in d' ==> d'[names[i]] == d[names[i]])
  }

  /** Every entry taken up so far let the drain go on. */
  ghost predicate WentOn(
    o: Options, clock: nat -> int, verdict: (nat, Envelope) -> Verdict, d: Directory,
    names: seq<Name>, fates: seq<Fate>)
  {
    && |fates| <= |names| && (forall i :: 0 <= i < |names| ==> names[i] in d)
    && forall i :: 0 <= i < |fates| ==>
         GoesOn(o, clock(i), d[names[i]], VerdictOn(i, verdict, d[names[i]]), fates[i])
  }

  lemma NotTakenYet(
    o: Options, clock: nat -> int, verdict: (nat, Envelope) -> Verdict, d: Directory, d': Directory,
    names: seq<Name>, fates: seq<Fate>)
    requires Taken(o, clock, verdict, d, d', names, fates) && |fates| < |names|
    ensures names[|fates|] in d && (names[|fates|] in d' ==> d'[names[|fates|]] == d[names[|fates|]])
  {
  }

  lemma TakenStep(
    o: Options, clock: nat -> int, verdict: (nat, Envelope) -> Verdict, d: Directory, d': Directory, d'': Directory,
    names: seq<Name>, listed: set<Name>, fates: seq<Fate>, fate: Fate)
    requires Taken(o, clock, verdict, d, d', names, fates) && |fates| < |names|
    requires WentOn(o, clock, verdict, d, names, fates)
    requires forall n :: n in names ==> n in listed
    requires forall i, j :: 0 <= i < j < |names| ==> names[i] != names[j]
    requires Undisturbed(d', d'', listed - {names[|fates|]})
    requires Met(o, clock(|fates|), |fates|, verdict, d[names[|fates|]], fate)
    requires LeftBy(d'', names[|fates|], d[names[|fates|]], fate)
    ensures Taken(o, clock, verdict, d, d'', names, fates + [fate])
    ensures GoesOn(o, clock(|fates|), d[names[|fates|]], VerdictOn(|fates|, verdict, d[names[|fates|]]), fate) ==>
              WentOn(o, clock, verdict, d, names, fates + [fate])
  {
    hide Met, VerdictOn;
    var i := |fates|;
    forall k | 0 <= k < |names| && k != i && names[k] in d''
      ensures names[k] in d' && d''[names[k]] == d'[names[k]]
    {
      assert names[k] in listed - {names[i]};
    }
    forall k | 0 <= k < i ensures LeftBy(d'', names[k], d[names[k]], fates[k]) {
      assert LeftBy(d', names[k], d[names[k]], fates[k]) && fates[k] != Retained;
    }
  }

  /** The directory after a drain during which nothing was enqueued: of the names taken up exactly those
      that were removed are gone, and the others are as they were. */
  ghost predicate Residue(d: Directory, d': Directory, names: seq<Name>, fates: seq<Fate>)
    requires |fates| <= |names|
  {
    && (forall n :: n in d' ==> n in d)
    && (forall n :: n in d && n !in names[..|fates|] ==> n in d' && d'[n] == d[n])
    && (forall i :: 0 <= i < |fates| ==> (names[i] in d' <==> !fates[i].Gone?))
  }

  /** The same for one entry. */
  ghost predicate OneTaken(d: Directory, d': Directory, name: Name, fate: Fate) {
    && (forall n :: n in d' ==> n in d)
    && (forall n :: n in d && n != name ==> n in d' && d'[n] == d[n])
    && (name in d' <==> !fate.Gone?)
  }

  lemma ResidueStep(d: Directory, d': Directory, d'': Directory, names: seq<Name>, fates: seq<Fate>, fate: Fate)
    requires |fates| < |names| && Residue(d, d', names, fates)
    requires forall i, j :: 0 <= i < j < |names| ==> names[i] != names[j]
    requires names[|fates|] in d
    requires names[|fates|] in d' ==> OneTaken(d', d'', names[|fates|], fate)
    ensures Residue(d, d'', names, fates + [fate])
  {
    var name, taken := names[|fates|], names[..|fates|];
    assert names[..|fates| + 1] == taken + [name];
    assert name !in taken;
    forall i | 0 <= i < |fates| + 1 ensures names[i] in d'' <==> !(fates + [fate])[i].Gone? {
      if i < |fates| {
        assert names[i] != name;
      }
    }
  }

  /** What the end of an entry's turn does to the directory and the books. */
  ghost predicate Concluded(d: Directory, b: Books, d': Directory, b': Books, name: Name, f: File, fate: Fate) {
    match fate
    case Gone(reason) => d' == d - {name} && b' == RecordRemoval(b, f.size, reason)
    case Retained =>
      && d'.Keys == d.Keys && Kept(d, d', d.Keys - {name}) && name in d' && TriedAgain(f, d'[name])
      && b' == b.(bytes := b'.bytes, retries := b.retries + 1)
    case _ => d' == d && b' == b
  }

  lemma NothingConcluded(d: Directory, b: Books, name: Name, f: File)
    ensures Concluded(d, b, d, b, name, f, Vanished) && Concluded(d, b, d, b, name, f, NotReadable)
  {
  }

  /** One turn: others enqueue (`d1`), the entry is still what it was, and it is settled or kept. */
  lemma TurnIsRecorded(
    d: Directory, b: Books, d1: Directory, b1: Books, d2: Directory, b2: Books, name: Name, f: File, fate: Fate)
    requires Aside(d, b, d1, b1) && Concluded(d1, b1, d2, b2, name, f, fate)
    requires (name in d1 <==> fate != Vanished) && fate != Gone(Capacity)
    ensures Recorded(b, b2, [fate])
    ensures b2.enqueued == b.enqueued && name in d ==> OneTaken(d, d2, name, fate)
  {
    assert [] + [fate] == [fate];
    forall any: Fate ensures Tally([fate], any) == if fate == any then 1 else 0 {
      TallyStep([], fate, any);
    }
  }

  lemma ConcludedUndisturbed(
    d: Directory, b: Books, d': Directory, b': Books, name: Name, f: File, fate: Fate, names: set<Name>)
    requires Concluded(d, b, d', b', name, f, fate)
    ensures Undisturbed(d, d', names - {name})
    ensures name in d && d[name] == f && fate != Vanished ==> LeftBy(d', name, f, fate)
  {
    forall n | n in d' && n in names - {name} ensures n in d && d'[n] == d[n] {
      if fate == Retained {
        assert n in d.Keys - {name};
      }
    }
  }

  lemma AsideTwice(d: Directory, b: Books, d1: Directory, b1: Books, d2: Directory, b2: Books)
    requires Aside(d, b, d1, b1) && Aside(d1, b1, d2, b2)
    ensures Aside(d, b, d2, b2)
  {
  }

  /** How many entries a drain takes up. */
  function Share(limit: int, n: nat): nat {
    var bound := if limit <= 0 then 64 else limit;
    if n < bound then n else bound
  }

  ghost predicate Kept(before: Directory, after: Directory, names: set<Name>) {
    forall n :: n in before && n in names ==> n in after && after[n] == before[n]
  }

  /** The new file is counted, and retention is enforced unless the directory cannot be listed. */
  method AddFile(o: Options, now: int, d: Directory, b: Books, inflight: set<Name>, name: Name, f: File)
    returns (d': Directory, b': Books, ghost faulty: bool)
    requires Counted(d, b) && Reasoned(b) && name !in d
    ensures Counted(d', b') && Reasoned(b') && (Balanced(b) ==> Balanced(b'))
    ensures SameDepartures(b, b') && b'.enqueued == b.enqueued + 1
    ensures b'.expired + b'.capacity == b.expired + b.capacity + |d| + 1 - |d'|
    ensures AfterRetention(o, now, d[name := f], inflight, d', faulty)
    ensures forall n :: n in d' ==> (n == name && d'[n] == f) || (n in d && d'[n] == d[n])
    ensures Kept(d, d', inflight)
    ensures WithinLimits(o, now, d[name := f], inflight) ==> d' == d[name := f]
  {
    hide Bytes, WithinLimits, Pruned, AfterRetention;
    NothingEnforced(o, now, d[name := f], inflight);
    d' := d[name := f];
    b' := b.(pending := b.pending + 1, bytes := b.bytes + f.size, enqueued := b.enqueued + 1);
    BytesUpdate(d, name, f);
    assert d'.Keys == d.Keys + {name};
    var readable: bool := *;
    faulty := !readable;
    if readable {
      var stuck: set<Name> := *;
      ghost var order, k;
      d', b', order, k := EnforceRetention(o, now, d', b', inflight, stuck);
      faulty := stuck != {};
      PrunedAfterRetention(o, now, d[name := f], inflight, stuck, order, k, d');
    }
  }

  lemma FaultIsNoted(o: Options, now: int, d: Directory, inflight: set<Name>, d': Directory, faulty: bool)
    requires AfterRetention(o, now, d, inflight, d', faulty)
    ensures AfterRetention(o, now, d, inflight, d', true)
  {
  }

  /** What enqueueing does to the rest of the spool: nothing is delivered, refused or found corrupt, and
      only a batch that was written makes others leave. */
  predicate Aside(d: Directory, b: Books, d': Directory, b': Books) {
    && SameDepartures(b, b') && b.enqueued <= b'.enqueued
    && (b'.enqueued == b.enqueued ==> d' == d && b'.expired == b.expired && b'.capacity == b.capacity)
  }

  /** Nothing was delivered, refused, found corrupt or tried again. */
  predicate SameDepartures(b: Books, b': Books) {
    && b'.delivered == b.delivered && b'.permanent == b.permanent && b'.corrupt == b.corrupt
    && b'.retries == b.retries
  }

  class Spool {
    const o: Options
    var files: Directory
    var b: Books
    var inflight: set<Name>
    /** The statistics file; all zero if there is none that can be read. */
    var saved: Books
    /** How many file operations, or drains by cancellation, have failed. */
    ghost var faults: nat
    /** How often the statistics file could not be written. */
    ghost var unsaved: nat
    /** The entries drains have taken up, in order. */
    ghost var attended: seq<Name>

    ghost predicate Valid()
      reads `files, `b, `saved
    {
      Counted(files, b) && Reasoned(b) && Reasoned(saved)
    }

    /** Starting up on whatever an earlier process left. */
    constructor (options: Options, found: Directory, stats: Books, now: int)
      requires Reasoned(stats)
      ensures Valid() && o == options && inflight == {} && (unsaved == 0 ==> saved == b)
      ensures AfterRetention(o, now, found, {}, files, faults > 0)
      ensures WithinLimits(o, now, found, {}) ==> files == found
      ensures forall n :: n in files ==> n in found && files[n] == found[n]
      ensures Balanced(Rescanned(found, stats)) ==> Balanced(b)
      ensures b.delivered == stats.delivered && b.enqueued == Max(stats.enqueued, |found|)
    {
      hide WithinLimits, AfterRetention;
      ghost var faulty;
      var d, books;
      d, books, faulty := Rescan(options, now, found, stats);
      o, inflight, saved, files, b := options, {}, stats, d, books;
      faults, unsaved, attended := if faulty then 1 else 0, 0, [];
      new;
      Persist();
    }

    /** Writing the statistics may fail, with or without having replaced the file. */
    method Persist()
      requires Valid()
      modifies `saved, `unsaved
      ensures Valid() && (saved == old(saved) || saved == b)
      ensures unsaved >= old(unsaved) && (unsaved == old(unsaved) ==> saved == b)
    {
      var ok: bool := *;
      var landed: bool := *;
      if ok || landed {
        saved := b;
      }
      unsaved := unsaved + if ok then 0 else 1;
    }

    /** `EnqueuePriority`. `name` is new because it contains a random identity. */
    method Enqueue(name: Name, env: Envelope, size: nat, now: int) returns (r: Enqueued)
      requires Valid() && name !in files
      modifies `files, `b, `saved, `unsaved, `faults
      ensures Valid() && (Balanced(old(b)) ==> Balanced(b)) && faults >= old(faults)
      ensures unsaved >= old(unsaved) && (unsaved == old(unsaved) ==> saved == b)
      ensures r == Queued ==> name in files
      ensures r == NotWritten || r == Uninspected ==> faults > old(faults)
      ensures r == OverBudget ==> !WithinLimits(o, now, old(files)[name := File(size, Some(env), now)], inflight)
      ensures r == NotWritten || r == OverBudget ==> name !in files
      ensures name in files ==> files[name] == File(size, Some(env), now)
      ensures forall n :: n in files && n != name ==> n in old(files) && files[n] == old(files)[n]
      ensures Kept(old(files), files, inflight)
      // What else leaves the spool is what the retention policy calls for, charged to it.
      ensures r == NotWritten ==> files == old(files) && b == old(b).(enqueueErrors := old(b).enqueueErrors + 1)
      ensures r != NotWritten ==>
                var added := old(files)[name := File(size, Some(env), now)];
                && AfterRetention(o, now, added, inflight, files, faults > old(faults))
                && (WithinLimits(o, now, added, inflight) ==> files == added)
                && b.enqueued == old(b.enqueued) + 1
                && b.expired + b.capacity == old(b.expired) + old(b.capacity) + |old(files)| + 1 - |files|
      ensures SameDepartures(old(b), b)
    {
      hide Bytes, WithinLimits, AfterRetention;
      var written: bool := *;
      if !written {
        faults := faults + 1;
        b := b.(enqueueErrors := b.enqueueErrors + 1);
        Persist();
        return NotWritten;
      }
      var f := File(size, Some(env), now);
      ghost var faulty;
      var d, books;
      d, books, faulty := AddFile(o, now, files, b, inflight, name, f);
      files, b := d, books;
      Persist();
      var inspected: bool := *;
      FaultIsNoted(o, now, old(files)[name := f], inflight, files, faulty);
      faults := faults + if inspected && !faulty then 0 else 1;
      r := if !inspected then Uninspected else if name in files then Queued else OverBudget;
    }

    /** `Acknowledge` (delivered) and `Reject` (permanent). */
    method RemoveEnvelope(name: Name, id: string, reason: Reason) returns (r: Removal)
      requires Valid() && reason in {Reason.Delivered, Permanent}
      modifies `files, `b, `saved, `unsaved, `faults
      ensures Valid() && (Balanced(old(b)) ==> Balanced(b)) && faults >= old(faults)
      ensures unsaved >= old(unsaved)
      ensures old(saved) == old(b) && unsaved == old(unsaved) && faults == old(faults) ==> saved == b
      ensures r == Unsynced || r == NotRemoved ==> faults > old(faults)
      ensures r == NotFound <==> name !in old(files)
      ensures name in old(files) ==>
                && (r == Undecodable <==> old(files)[name].envelope.None?)
                && (r == OtherBatch <==> old(files)[name].envelope.Some? && old(files)[name].envelope.value.id != id)
      ensures if r == Removed || r == Unsynced
              then && name in old(files) && files == old(files) - {name}
                   && b == RecordRemoval(old(b), old(files)[name].size, reason)
              else files == old(files) && b == old(b)
    {
      if name !in files { return NotFound; }
      var f := files[name];
      if f.envelope.None? { return Undecodable; }
      if f.envelope.value.id != id { return OtherBatch; }
      var removed: bool := *;
      if !removed {
        faults := faults + 1;
        return NotRemoved;
      }
      RemovalIsExact(files, b, name, reason);
      files, b := files - {name}, RecordRemoval(b, f.size, reason);
      var synced: bool := *;
      if !synced {
        faults := faults + 1;
        return Unsynced;
      }
      Persist();
      r := Removed;
    }

    /** Everything another goroutine can do to the spool while a drain has released the lock:
        enqueue. Removing entries or draining needs the drain lock. New names are random, so none of
        those the drain has listed comes up again. What fails there is not counted among the faults of
        the drain. */
    method Interfere(listed: set<Name>)
      requires Valid()
      modifies `files, `b, `saved, `unsaved, `faults
      ensures Valid() && (Balanced(old(b)) ==> Balanced(b)) && faults == old(faults)
      ensures unsaved >= old(unsaved) && (old(saved) == old(b) && unsaved == old(unsaved) ==> saved == b)
      ensures Kept(old(files), files, inflight) && Aside(old(files), old(b), files, b)
      ensures Undisturbed(old(files), files, listed)
    {
      hide Counted, Reasoned, Balanced, AfterRetention, WithinLimits;
      var count: int := *;
      for i := 0 to if count < 0 then 0 else count
        invariant Valid() && (Balanced(old(b)) ==> Balanced(b))
        invariant unsaved >= old(unsaved) && (old(saved) == old(b) && unsaved == old(unsaved) ==> saved == b)
        invariant Kept(old(files), files, inflight) && Aside(old(files), old(b), files, b)
        invariant Undisturbed(old(files), files, listed)
      {
        var name: Name := *;
        var env: Envelope := *;
        var size: nat := *;
        var now: int := *;
        if name !in files && name !in listed {
          var _ := Enqueue(name, env, size, now);
        }
      }
      faults := old(faults);
    }

    /** Removes the in-flight entry and records why, unless the removal fails; either way the entry is
        no longer in flight. */
    method Settle(name: Name, size: nat, reason: Reason) returns (removed: bool)
      requires Valid() && name in files && files[name].size == size && inflight == {name}
      modifies `files, `b, `saved, `unsaved, `inflight, `faults
      ensures Valid() && inflight == {} && (Balanced(old(b)) ==> Balanced(b))
      ensures unsaved >= old(unsaved) && (removed && unsaved == old(unsaved) ==> saved == b)
      ensures !removed ==> saved == old(saved)
      ensures removed ==>
                files == old(files) - {name} && b == RecordRemoval(old(b), size, reason) && faults == old(faults)
      ensures !removed ==> files == old(files) && b == old(b) && faults > old(faults)
    {
      removed := *;
      if removed {
        RemovalIsExact(files, b, name, reason);
        files, b := files - {name}, RecordRemoval(b, size, reason);
        Persist();
      } else {
        faults := faults + 1;
      }
      inflight := {};
    }

    /** After a failed delivery the envelope is rewritten with one more attempt. */
    method Defer(name: Name, f: File, size: nat) returns (written: bool)
      requires Valid() && name in files && files[name] == f && f.envelope.Some? && inflight == {name}
      modifies `files, `b, `saved, `unsaved, `inflight, `faults
      ensures Valid() && inflight == {} && (Balanced(old(b)) ==> Balanced(b))
      ensures unsaved >= old(unsaved) && (written && unsaved == old(unsaved) ==> saved == b)
      ensures !written ==> saved == old(saved)
      ensures !written ==> files == old(files) && b == old(b) && faults > old(faults)
      ensures written ==>
                && b == old(b).(bytes := b.bytes, retries := old(b.retries) + 1) && faults == old(faults)
                && files.Keys == old(files).Keys && Kept(old(files), files, files.Keys - {name})
                && files[name].envelope == Some(f.envelope.value.(attempts := f.envelope.value.attempts + 1))
    {
      written := *;
      if written {
        var env := f.envelope.value;
        var now: int := *;
        var f' := File(size, Some(env.(attempts := env.attempts + 1)), now);
        BytesUpdate(files, name, f');
        assert files[name := f'].Keys == files.Keys;
        files, b := files[name := f'], b.(bytes := b.bytes + size - f.size, retries := b.retries + 1);
        Persist();
      } else {
        faults := faults + 1;
      }
      inflight := {};
    }

    /** `Drain`: `clock` and `verdict` give the time and what delivering comes to at the i-th entry. Other
        goroutines enqueue whenever the lock is free. The entries are taken up in drain order and each
        meets the fate its own content and delivery call for; the result is the exact number that left
        the spool as delivered. */
    method Drain(limit: int, clock: nat -> int, verdict: (nat, Envelope) -> Verdict)
      returns (delivered: nat, ok: bool, ghost order: seq<Name>, ghost fates: seq<Fate>)
      requires Valid() && inflight == {}
      modifies `files, `b, `saved, `unsaved, `inflight, `faults, `attended
      ensures Valid() && inflight == {} && (Balanced(old(b)) ==> Balanced(b)) && faults >= old(faults)
      ensures unsaved >= old(unsaved) && (old(saved) == old(b) && unsaved == old(unsaved) ==> saved == b)
      ensures Recorded(old(b), b, fates) && delivered == Tally(fates, Gone(Reason.Delivered))
      ensures InDrainOrder(old(files), order) && |fates| <= Share(limit, |order|)
      ensures |fates| <= |order| && attended == old(attended) + order[..|fates|]
      ensures Taken(o, clock, verdict, old(files), files, order, fates)
      ensures b.enqueued == old(b.enqueued) ==> Residue(old(files), files, order, fates)
      ensures forall i :: 0 <= i < |fates| && fates[i] in {NotRemovable, NotRewritten, NotReadable} ==>
                faults > old(faults)
      ensures ok ==> |fates| == Share(limit, |order|) && WentOn(o, clock, verdict, old(files), order, fates)
      ensures !ok ==> faults > old(faults) || (|fates| > 0 && fates[|fates| - 1] == Retained)
    {
      var names := SortForDrain(files);
      order := names;
      ListedOnce(files, names);
      var bound := if limit <= 0 then 64 else limit;
      bound := if |names| < bound then |names| else bound;
      assert bound == Share(limit, |names|);
      hide Share, InDrainOrder, Valid, Balanced, Recorded, Tally, Taken, WentOn, Residue;
      NothingTaken(o, clock, verdict, files, b, names);
      var readable: bool := *;
      if !readable {
        faults := faults + 1;
        return 0, false, order, [];
      }
      delivered, ok, fates := DrainNames(names, bound, clock, verdict);
    }

    lemma ListedOnce(d: Directory, names: seq<Name>)
      requires InDrainOrder(d, names)
      ensures forall i :: 0 <= i < |names| ==> names[i] in d
      ensures forall i, j :: 0 <= i < j < |names| ==> names[i] != names[j]
    {
    }

    /** The loop of `Drain` over the first `bound` names. */
    method DrainNames(names: seq<Name>, bound: nat, clock: nat -> int, verdict: (nat, Envelope) -> Verdict)
      returns (delivered: nat, ok: bool, ghost fates: seq<Fate>)
      requires Valid() && inflight == {} && bound <= |names|
      requires forall i :: 0 <= i < |names| ==> names[i] in files
      requires forall i, j :: 0 <= i < j < |names| ==> names[i] != names[j]
      modifies `files, `b, `saved, `unsaved, `inflight, `faults, `attended
      ensures Valid() && inflight == {} && (Balanced(old(b)) ==> Balanced(b)) && faults >= old(faults)
      ensures unsaved >= old(unsaved) && (old(saved) == old(b) && unsaved == old(unsaved) ==> saved == b)
      ensures Recorded(old(b), b, fates) && delivered == Tally(fates, Gone(Reason.Delivered))
      ensures |fates| <= bound && attended == old(attended) + names[..|fates|]
      ensures Taken(o, clock, verdict, old(files), files, names, fates)
      ensures b.enqueued == old(b.enqueued) ==> Residue(old(files), files, names, fates)
      ensures forall i :: 0 <= i < |fates| && fates[i] in {NotRemovable, NotRewritten, NotReadable} ==>
                faults > old(faults)
      ensures ok ==> |fates| == bound && WentOn(o, clock, verdict, old(files), names, fates)
      ensures !ok ==> faults > old(faults) || (|fates| > 0 && fates[|fates| - 1] == Retained)
    {
      hide Valid, Recorded, Tally, Met, LeftBy, Undisturbed, Taken, WentOn, GoesOn, Residue, OneTaken;
      NothingTaken(o, clock, verdict, files, b, names);
      delivered, ok, fates := 0, true, [];
      var listed := set n | n in names;
      for i := 0 to bound
        invariant Valid() && inflight == {} && (Balanced(old(b)) ==> Balanced(b)) && ok
        invariant unsaved >= old(unsaved) && (old(saved) == old(b) && unsaved == old(unsaved) ==> saved == b)
        invariant |fates| == i && faults >= old(faults) && attended == old(attended) + names[..i]
        invariant delivered == Tally(fates, Gone(Reason.Delivered)) && Recorded(old(b), b, fates)
        invariant b.enqueued == old(b.enqueued) ==> Residue(old(files), files, names, fates)
        invariant forall k :: 0 <= k < i && fates[k] in {NotRemovable, NotRewritten, NotReadable} ==>
                    faults > old(faults)
        invariant Taken(o, clock, verdict, old(files), files, names, fates)
        invariant WentOn(o, clock, verdict, old(files), names, fates)
      {
        var cancelled: bool := *;
        if cancelled {
          faults := faults + 1;
          return delivered, false, fates;
        }
        ghost var fate;
        ghost var before, books := files, b;
        var done;
        NotTakenYet(o, clock, verdict, old(files), files, names, fates);
        done, ok, fate := DrainOne(names[i], listed, i, clock(i), verdict, old(files)[names[i]]);
        TakenStep(o, clock, verdict, old(files), before, files, names, listed, fates, fate);
        RecordedStep(old(b), books, b, fates, fate);
        EnqueuedGrows(old(b), books, b, fates, fate);
        if b.enqueued == old(b.enqueued) {
          ResidueStep(old(files), before, files, names, fates, fate);
        }
        TallyStep(fates, fate, Gone(Reason.Delivered));
        fates := fates + [fate];
        assert names[..i + 1] == names[..i] + [names[i]];
        delivered := delivered + if done then 1 else 0;
        if !ok {
          return;
        }
      }
    }

    lemma NothingTaken(
      limits: Options, clock: nat -> int, verdict: (nat, Envelope) -> Verdict, d: Directory, books: Books,
      names: seq<Name>)
      requires forall i :: 0 <= i < |names| ==> names[i] in d
      ensures Taken(limits, clock, verdict, d, d, names, []) && WentOn(limits, clock, verdict, d, names, [])
      ensures Tally([], Gone(Reason.Delivered)) == 0 && Recorded(books, books, []) && Residue(d, d, names, [])
    {
    }

    lemma EnqueuedGrows(start: Books, before: Books, after: Books, fates: seq<Fate>, fate: Fate)
      requires Recorded(start, before, fates) && Recorded(before, after, [fate])
      ensures start.enqueued <= before.enqueued <= after.enqueued
    {
    }

    /** One iteration of the loop of `Drain`, for an entry that held `f` when it was listed. */
    method DrainOne(
      name: Name, listed: set<Name>, i: nat, now: int, verdict: (nat, Envelope) -> Verdict, ghost f: File)
      returns (done: bool, ok: bool, ghost fate: Fate)
      requires Valid() && inflight == {} && name in listed && (name in files ==> files[name] == f)
      modifies `files, `b, `saved, `unsaved, `inflight, `faults, `attended
      ensures Valid() && inflight == {} && (Balanced(old(b)) ==> Balanced(b)) && faults >= old(faults)
      ensures unsaved >= old(unsaved) && (old(saved) == old(b) && unsaved == old(unsaved) ==> saved == b)
      ensures Recorded(old(b), b, [fate])
      ensures done <==> fate == Gone(Reason.Delivered)
      ensures !ok ==> faults > old(faults) || fate == Retained
      ensures ok <==> GoesOn(o, now, f, VerdictOn(i, verdict, f), fate)
      ensures fate in {NotRemovable, NotRewritten, NotReadable} ==> faults > old(faults) && name in files
      ensures b.enqueued == old(b.enqueued) && name in old(files) ==> OneTaken(old(files), files, name, fate)
      ensures attended == old(attended) + [name]
      ensures Met(o, now, i, verdict, f, fate) && LeftBy(files, name, f, fate)
      ensures Undisturbed(old(files), files, listed - {name})
    {
      hide Valid, Recorded, Tally, OneTaken, Concluded, Aside;
      fate := Vanished;
      Interfere(listed);
      attended := attended + [name];
      var readable: bool := *;
      if name !in files {
        NothingConcluded(files, b, name, f);
        TurnIsRecorded(old(files), old(b), files, b, files, b, name, f, Vanished);
        return false, true, Vanished;
      }
      if !readable {
        faults := faults + 1;
        NothingConcluded(files, b, name, f);
        TurnIsRecorded(old(files), old(b), files, b, files, b, name, f, NotReadable);
        return false, false, NotReadable;
      }
      inflight := {name};
      var found := files[name];
      ghost var files1, b1 := files, b;
      Interfere(listed);
      AsideTwice(old(files), old(b), files1, b1, files, b);
      files1, b1 := files, b;
      done, ok, fate := Conclude(name, found, i, now, verdict);
      TurnIsRecorded(old(files), old(b), files1, b1, files, b, name, f, fate);
      ConcludedUndisturbed(files1, b1, files, b, name, f, fate, listed);
    }

    /** What becomes of the entry `name`, which was read as `f` and has been in flight since. */
    method Conclude(name: Name, f: File, i: nat, now: int, verdict: (nat, Envelope) -> Verdict)
      returns (done: bool, ok: bool, ghost fate: Fate)
      requires Valid() && inflight == {name} && name in files && files[name] == f
      modifies `files, `b, `saved, `unsaved, `inflight, `faults
      ensures Valid() && inflight == {} && (Balanced(old(b)) ==> Balanced(b)) && faults >= old(faults)
      ensures unsaved >= old(unsaved) && (old(saved) == old(b) && unsaved == old(unsaved) ==> saved == b)
      ensures Fated(o, now, f, VerdictOn(i, verdict, f), fate)
      ensures fate in {NotRemovable, NotRewritten} ==> faults > old(faults) && name in files
      ensures Concluded(old(files), old(b), files, b, name, f, fate)
      ensures done <==> fate == Gone(Reason.Delivered)
      ensures !ok ==> faults > old(faults) || fate == Retained
      ensures ok <==> GoesOn(o, now, f, VerdictOn(i, verdict, f), fate)
    {
      fate := NotRemovable;
      if f.envelope.None? {
        var removed := Settle(name, f.size, Corrupt);
        return false, true, if removed then Gone(Corrupt) else NotRemovable;
      }
      var env := f.envelope.value;
      if o.maxAge > 0 && now - env.createdAt > o.maxAge {
        var removed := Settle(name, f.size, Reason.Expired);
        return false, true, if removed then Gone(Reason.Expired) else NotRemovable;
      }
      match verdict(i, env)
      case Accepted =>
        done := Settle(name, f.size, Reason.Delivered);
        ok := done;
        fate := if done then Gone(Reason.Delivered) else NotRemovable;
      case Refused =>
        var removed := Settle(name, f.size, Permanent);
        done, ok := false, true;
        fate := if removed then Gone(Permanent) else NotRemovable;
      case Deferred =>
        var size: nat := *;
        var written := Defer(name, f, size);
        done, ok := false, false;
        fate := if written then Retained else NotRewritten;
    }
  }
}
