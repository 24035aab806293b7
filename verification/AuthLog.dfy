/** The authentication log reader of internal/collectors/ssh/authlog.go: it turns complete lines into
    events, and moves on only when the events of a capture are committed. */
module AuthLog {
  import opened Optional
  import opened MapSum

  /** What repeated login lines have in common; evidence has no source address. */
  datatype Key = Key(srcIP: string, user: string, action: string)

  datatype LogFile = LogFile(device: int, inode: int, text: string)

  /** The arguments of the name-based identifier of an event. */
  datatype EventId = EventId(device: int, inode: int, offset: nat, line: string)

  /** The regular expressions: `None` for a line that is no event. */
  type Parser = string -> Option<Key>

  predicate IsEvidence(k: Key) { k.srcIP == "" }

  // ---------------------------------------------------------------------------------------------
  // Lines.
  // ---------------------------------------------------------------------------------------------

  predicate Boundary(text: string, o: int) {
    o == 0 || (0 < o <= |text| && text[o - 1] == '\n')
  }

  /** Where the line that starts at `o` ends, if it is complete. */
  function LineEnd(text: string, o: nat): (r: Option<nat>)
    requires o <= |text|
    ensures r.Some? ==>
              && o < r.value <= |text| && text[r.value - 1] == '\n'
              && forall i :: o <= i < r.value - 1 ==> text[i] != '\n'
    ensures r.None? ==> forall i :: o <= i < |text| ==> text[i] != '\n'
    decreases |text| - o
  {
    if o == |text| then None else if text[o] == '\n' then Some(o + 1) else LineEnd(text, o + 1)
  }

  lemma {:induction false} LineEndStable(text: string, more: string, o: nat)
    requires o <= |text| && text <= more && LineEnd(text, o).Some?
    ensures LineEnd(more, o) == LineEnd(text, o)
  {
    var e := LineEnd(text, o).value;
    assert more[e - 1] == '\n';
    if LineEnd(more, o).None? || LineEnd(more, o).value > e {
      assert false;
    }
  }

  lemma LineWithin(text: string, o: nat, b: nat)
    requires o < b && Boundary(text, b)
    ensures LineEnd(text, o).Some? && LineEnd(text, o).value <= b
  {
  }

  function IdAt(f: LogFile, o: nat): EventId
    requires o <= |f.text| && LineEnd(f.text, o).Some?
  {
    EventId(f.device, f.inode, o, f.text[o..LineEnd(f.text, o).value])
  }

  ghost predicate Extends(f: LogFile, g: LogFile) {
    f.device == g.device && f.inode == g.inode && f.text <= g.text
  }

  /** The same line gets the same identity however much is appended later. */
  lemma {:induction false} IdentityIsStable(f: LogFile, g: LogFile, o: nat)
    requires Extends(f, g) && o <= |f.text| && LineEnd(f.text, o).Some?
    ensures LineEnd(g.text, o) == LineEnd(f.text, o) && IdAt(g, o) == IdAt(f, o)
  {
    LineEndStable(f.text, g.text, o);
  }

  // ---------------------------------------------------------------------------------------------
  // What a stretch of the log amounts to.
  // ---------------------------------------------------------------------------------------------

  /** The evidence lines between two offsets, in order: they are never suppressed. */
  function EvidenceIn(p: Parser, f: LogFile, a: nat, b: nat): seq<EventId>
    requires a <= b <= |f.text|
    decreases b - a
  {
    var e := LineEnd(f.text, a);
    if e.None? || e.value > b then []
    else
      var k := p(IdAt(f, a).line);
      (if k.Some? && IsEvidence(k.value) then [IdAt(f, a)] else []) + EvidenceIn(p, f, e.value, b)
  }

  /** The event the line at `o` gives rise to, if any, when logins with a key in `silent` are
      suppressed. */
  function Emitted(p: Parser, f: LogFile, o: nat, silent: set<Key>): seq<EventId>
    requires o <= |f.text| && LineEnd(f.text, o).Some?
  {
    var k := p(IdAt(f, o).line);
    if k.Some? && (IsEvidence(k.value) || k.value !in silent) then [IdAt(f, o)] else []
  }

  /** A login suppresses those that follow. */
  function Heard(p: Parser, f: LogFile, o: nat, silent: set<Key>): set<Key>
    requires o <= |f.text| && LineEnd(f.text, o).Some?
  {
    var k := p(IdAt(f, o).line);
    if k.None? || IsEvidence(k.value) then silent else silent + {k.value}
  }

  /** The events between two offsets. */
  function Reported(p: Parser, f: LogFile, a: nat, b: nat, silent: set<Key>): seq<EventId>
    requires a <= b <= |f.text|
    decreases b - a
  {
    var e := LineEnd(f.text, a);
    if e.None? || e.value > b then []
    else Emitted(p, f, a, silent) + Reported(p, f, e.value, b, Heard(p, f, a, silent))
  }

  function SilentAfter(p: Parser, f: LogFile, a: nat, b: nat, silent: set<Key>): set<Key>
    requires a <= b <= |f.text|
    decreases b - a
  {
    var e := LineEnd(f.text, a);
    if e.None? || e.value > b then silent
    else SilentAfter(p, f, e.value, b, Heard(p, f, a, silent))
  }

  lemma {:induction false} SilentSplit(p: Parser, f: LogFile, a: nat, m: nat, b: nat, silent: set<Key>)
    requires a <= m <= b <= |f.text| && Boundary(f.text, a) && Boundary(f.text, m)
    ensures SilentAfter(p, f, a, b, silent) == SilentAfter(p, f, m, b, SilentAfter(p, f, a, m, silent))
    decreases m - a
  {
    hide Heard, LineEnd;
    if a < m {
      LineWithin(f.text, a, m);
      SilentSplit(p, f, LineEnd(f.text, a).value, m, b, Heard(p, f, a, silent));
    } else {
      NothingWithin(p, f, a, silent);
    }
  }

  lemma {:induction false} ReportedSplit(p: Parser, f: LogFile, a: nat, m: nat, b: nat, silent: set<Key>)
    requires a <= m <= b <= |f.text| && Boundary(f.text, a) && Boundary(f.text, m)
    ensures Reported(p, f, a, b, silent) ==
            Reported(p, f, a, m, silent) + Reported(p, f, m, b, SilentAfter(p, f, a, m, silent))
    decreases m - a
  {
    hide Heard, Emitted, LineEnd;
    if a < m {
      LineWithin(f.text, a, m);
      var e := LineEnd(f.text, a).value;
      ReportedSplit(p, f, e, m, b, Heard(p, f, a, silent));
    } else {
      NothingWithin(p, f, a, silent);
    }
  }

  lemma {:induction false} NothingWithin(p: Parser, f: LogFile, a: nat, silent: set<Key>)
    requires a <= |f.text|
    ensures Reported(p, f, a, a, silent) == [] && SilentAfter(p, f, a, a, silent) == silent
    ensures EvidenceIn(p, f, a, a) == []
  {
  }

  lemma {:induction false} EvidenceSplit(p: Parser, f: LogFile, a: nat, m: nat, b: nat)
    requires a <= m <= b <= |f.text| && Boundary(f.text, a) && Boundary(f.text, m)
    ensures EvidenceIn(p, f, a, b) == EvidenceIn(p, f, a, m) + EvidenceIn(p, f, m, b)
    decreases m - a
  {
    if a < m {
      LineWithin(f.text, a, m);
      EvidenceSplit(p, f, LineEnd(f.text, a).value, m, b);
    } else {
      NothingWithin(p, f, a, {});
    }
  }

  /** What was in the log once stays there, identities included. */
  lemma {:induction false} EvidenceIsStable(p: Parser, f: LogFile, g: LogFile, a: nat, b: nat)
    requires Extends(f, g) && a <= b <= |f.text| && Boundary(f.text, a) && Boundary(f.text, b)
    ensures EvidenceIn(p, g, a, b) == EvidenceIn(p, f, a, b)
    decreases b - a
  {
    if a < b {
      LineWithin(f.text, a, b);
      IdentityIsStable(f, g, a);
      EvidenceIsStable(p, f, g, LineEnd(f.text, a).value, b);
    } else {
      NothingWithin(p, f, a, {});
      NothingWithin(p, g, a, {});
    }
  }

  /** The events that are evidence. */
  function EvidenceOf(p: Parser, events: seq<EventId>): seq<EventId> {
    if events == [] then []
    else
      var k := p(events[0].line);
      (if k.Some? && IsEvidence(k.value) then [events[0]] else []) + EvidenceOf(p, events[1..])
  }

  lemma {:induction false} EvidenceOfAppend(p: Parser, s: seq<EventId>, t: seq<EventId>)
    ensures EvidenceOf(p, s + t) == EvidenceOf(p, s) + EvidenceOf(p, t)
  {
    if s == [] {
      assert s + t == t;
    } else {
      assert (s + t)[1..] == s[1..] + t;
      EvidenceOfAppend(p, s[1..], t);
    }
  }

  /** Suppressing logins never touches evidence. */
  lemma {:induction false} EvidenceIsReported(p: Parser, f: LogFile, a: nat, b: nat, silent: set<Key>)
    requires a <= b <= |f.text|
    ensures EvidenceOf(p, Reported(p, f, a, b, silent)) == EvidenceIn(p, f, a, b)
    decreases b - a
  {
    var e := LineEnd(f.text, a);
    if e.Some? && e.value <= b {
      var rest := Reported(p, f, e.value, b, Heard(p, f, a, silent));
      EvidenceIsReported(p, f, e.value, b, Heard(p, f, a, silent));
      EvidenceOfAppend(p, Emitted(p, f, a, silent), rest);
    }
  }

  /** Every event names a line of the stretch, by its position and text. */
  lemma {:induction false} ReportedNamesLines(p: Parser, f: LogFile, a: nat, b: nat, silent: set<Key>)
    requires a <= b <= |f.text|
    ensures forall id :: id in Reported(p, f, a, b, silent) ==>
              a <= id.offset < b && LineEnd(f.text, id.offset).Some? && id == IdAt(f, id.offset)
    decreases b - a
  {
    var e := LineEnd(f.text, a);
    if e.Some? && e.value <= b {
      ReportedNamesLines(p, f, e.value, b, Heard(p, f, a, silent));
    }
  }

  // ---------------------------------------------------------------------------------------------
  // What a capture has to report.
  // ---------------------------------------------------------------------------------------------

  /** A complete line starts here. */
  predicate IsLine(f: LogFile, o: nat) {
    o < |f.text| && Boundary(f.text, o) && LineEnd(f.text, o).Some?
  }

  /** What the line that starts here parses to. */
  function KeyAt(p: Parser, f: LogFile, o: nat): Option<Key>
    requires IsLine(f, o)
  {
    p(f.text[o..LineEnd(f.text, o).value])
  }

  /** The line at `o` has to be reported by a capture that began at `a`: it is evidence, or a login that was not
      seen recently, neither before the capture nor in it. */
  predicate IsNews(p: Parser, f: LogFile, a: nat, o: nat, recent: set<Key>)
    requires IsLine(f, o)
  {
    var k := KeyAt(p, f, o);
    && k.Some?
    && (|| k.value.srcIP == ""
        || (k.value !in recent && forall m: nat :: a <= m < o && IsLine(f, m) ==> KeyAt(p, f, m) != k))
  }

  /** The events name lines from `a` to `b`, each once and in order, and exactly those that are news. */
  predicate ReportsNews(p: Parser, f: LogFile, a: nat, b: nat, recent: set<Key>, events: seq<EventId>) {
    && (forall i :: 0 <= i < |events| ==>
          var e := events[i];
          a <= e.offset < b && IsLine(f, e.offset) && e == IdAt(f, e.offset) && IsNews(p, f, a, e.offset, recent))
    && (forall i, j :: 0 <= i < j < |events| ==> events[i].offset < events[j].offset)
    && (forall o: nat :: a <= o < b && IsLine(f, o) && IsNews(p, f, a, o, recent) ==> IdAt(f, o) in events)
  }

  /** A login with this key stands between `a` and `b`. */
  ghost predicate LoginSeen(p: Parser, f: LogFile, a: nat, b: nat, k: Key) {
    k.srcIP != "" && exists o: nat :: a <= o < b && IsLine(f, o) && KeyAt(p, f, o) == Some(k)
  }

  /** The logins read were last seen now, and of the others what was known is still known. */
  ghost predicate Touched(
    p: Parser, f: LogFile, a: nat, b: nat, now: int, cache: map<Key, int>, cache': map<Key, int>)
  {
    forall k: Key ::
      if LoginSeen(p, f, a, b, k) then k in cache' && cache'[k] == now
      else (k in cache' <==> k in cache) && (k in cache ==> cache'[k] == cache[k])
  }

  /** The same after what is older than twice the window was forgotten. */
  ghost predicate Remembers(
    p: Parser, f: LogFile, a: nat, b: nat, now: int, ttl: nat, cache: map<Key, int>, cache': map<Key, int>)
  {
    forall k: Key ::
      if LoginSeen(p, f, a, b, k) then k in cache' && cache'[k] == now
      else (k in cache' <==> k in cache && now - cache[k] <= 2 * ttl) && (k in cache' ==> cache'[k] == cache[k])
  }

  lemma NothingTouched(p: Parser, f: LogFile, a: nat, now: int, cache: map<Key, int>)
    ensures Touched(p, f, a, a, now, cache, cache)
  {
  }

  lemma {:induction false} LoginSeenNext(p: Parser, f: LogFile, a: nat, o: nat, k: Key)
    requires a <= o && IsLine(f, o)
    ensures LoginSeen(p, f, a, LineEnd(f.text, o).value, k) <==>
            LoginSeen(p, f, a, o, k) || (k.srcIP != "" && KeyAt(p, f, o) == Some(k))
  {
    var e := LineEnd(f.text, o).value;
    forall m: nat | o <= m < e && IsLine(f, m) ensures m == o {
      NextLine(f, o, m);
    }
  }

  lemma {:induction false} TouchedNext(
    p: Parser, f: LogFile, a: nat, o: nat, now: int, cache: map<Key, int>, cache': map<Key, int>,
    cache'': map<Key, int>)
    requires a <= o && IsLine(f, o) && Touched(p, f, a, o, now, cache, cache')
    requires var k := KeyAt(p, f, o);
             cache'' == if k.Some? && k.value.srcIP != "" then cache'[k.value := now] else cache'
    ensures Touched(p, f, a, LineEnd(f.text, o).value, now, cache, cache'')
  {
    hide LoginSeen, KeyAt;
    forall k: Key
      ensures if LoginSeen(p, f, a, LineEnd(f.text, o).value, k) then k in cache'' && cache''[k] == now
              else (k in cache'' <==> k in cache) && (k in cache ==> cache''[k] == cache[k])
    {
      LoginSeenNext(p, f, a, o, k);
    }
  }

  /** Between the start and the end of a line no other starts. */
  lemma NextLine(f: LogFile, a: nat, o: nat)
    requires a <= o && IsLine(f, a) && IsLine(f, o)
    ensures o == a || LineEnd(f.text, a).value <= o
  {
  }

  /** News since the end of the first line of a stretch. */
  lemma {:induction false} NewsAfterLine(p: Parser, f: LogFile, a: nat, o: nat, silent: set<Key>)
    requires a < |f.text| && IsLine(f, a) && IsLine(f, o) && LineEnd(f.text, a).value <= o
    ensures IsNews(p, f, LineEnd(f.text, a).value, o, Heard(p, f, a, silent)) <==> IsNews(p, f, a, o, silent)
  {
    var e, k := LineEnd(f.text, a).value, KeyAt(p, f, o);
    if k.Some? && k.value.srcIP != "" {
      assert KeyAt(p, f, a) == p(IdAt(f, a).line);
      forall m: nat | a <= m < o && IsLine(f, m) ensures m == a || e <= m {
        NextLine(f, a, m);
      }
      assert k.value in Heard(p, f, a, silent) <==> k.value in silent || KeyAt(p, f, a) == k;
    }
  }

  lemma {:induction false} ReportedIsNews(p: Parser, f: LogFile, a: nat, b: nat, silent: set<Key>)
    requires a <= b <= |f.text| && Boundary(f.text, a) && Boundary(f.text, b)
    ensures ReportsNews(p, f, a, b, silent, Reported(p, f, a, b, silent))
    decreases b - a
  {
    if a < b {
      LineWithin(f.text, a, b);
      var e := LineEnd(f.text, a).value;
      ReportedIsNews(p, f, e, b, Heard(p, f, a, silent));
      LineBefore(p, f, a, b, silent, Reported(p, f, e, b, Heard(p, f, a, silent)));
    } else {
      NothingWithin(p, f, a, silent);
    }
  }

  /** The first line comes before the news of the rest. */
  lemma {:induction false} LineBefore(
    p: Parser, f: LogFile, a: nat, b: nat, silent: set<Key>, rest: seq<EventId>)
    requires a < b <= |f.text| && IsLine(f, a) && LineEnd(f.text, a).value <= b
    requires ReportsNews(p, f, LineEnd(f.text, a).value, b, Heard(p, f, a, silent), rest)
    ensures ReportsNews(p, f, a, b, silent, Emitted(p, f, a, silent) + rest)
  {
    FirstLine(p, f, a, silent);
    var e, first := LineEnd(f.text, a).value, Emitted(p, f, a, silent);
    var events := first + rest;
    hide LineEnd, Boundary, Heard, IsNews, Emitted;
    forall i | 0 <= i < |rest|
      ensures IsNews(p, f, a, rest[i].offset, silent) && e <= rest[i].offset
    {
      NewsAfterLine(p, f, a, rest[i].offset, silent);
    }
    forall o: nat | a <= o < b && IsLine(f, o) && IsNews(p, f, a, o, silent) ensures IdAt(f, o) in events {
      NextLine(f, a, o);
      if o == a {
        assert events[0] == IdAt(f, a);
      } else {
        NewsAfterLine(p, f, a, o, silent);
        assert IdAt(f, o) in rest;
      }
    }
  }

  lemma FirstLine(p: Parser, f: LogFile, a: nat, silent: set<Key>)
    requires IsLine(f, a)
    ensures Emitted(p, f, a, silent) == if IsNews(p, f, a, a, silent) then [IdAt(f, a)] else []
    ensures IdAt(f, a).offset == a < LineEnd(f.text, a).value
  {
  }

  // ---------------------------------------------------------------------------------------------
  // Reading.
  // ---------------------------------------------------------------------------------------------

  predicate Recent(ttl: nat, now: int, cache: map<Key, int>, k: Key) {
    k in cache && now - cache[k] <= ttl
  }

  ghost function SilentNow(ttl: nat, now: int, cache: map<Key, int>): set<Key> {
    set k | k in cache && Recent(ttl, now, cache, k)
  }

  /** `isDeduped`. */
  method CheckRepeated(ttl: nat, now: int, cache: map<Key, int>, k: Key) returns (repeated: bool, cache': map<Key, int>)
    ensures repeated <==> !IsEvidence(k) && Recent(ttl, now, cache, k)
    ensures SilentNow(ttl, now, cache') == SilentNow(ttl, now, cache) + if IsEvidence(k) then {} else {k}
    ensures cache' == if IsEvidence(k) then cache else cache[k := now]
  {
    if k.srcIP == "" {
      return false, cache;
    }
    repeated := k in cache && now - cache[k] <= ttl;
    cache' := cache[k := now];
    SameMembers(SilentNow(ttl, now, cache'), SilentNow(ttl, now, cache) + {k});
  }

  /** `pruneDedup`: forgets what is too old to matter. */
  method Prune(ttl: nat, now: int, cache: map<Key, int>) returns (cache': map<Key, int>)
    ensures SilentNow(ttl, now, cache') == SilentNow(ttl, now, cache)
    ensures forall k :: k in cache' <==> k in cache && now - cache[k] <= 2 * ttl
    ensures forall k :: k in cache' ==> cache'[k] == cache[k]
  {
    cache' := map k | k in cache && now - cache[k] <= 2 * ttl :: cache[k];
    SameMembers(SilentNow(ttl, now, cache'), SilentNow(ttl, now, cache));
  }

  lemma {:induction false} OneMoreLine(p: Parser, f: LogFile, a: nat, o: nat, silent: set<Key>)
    requires a <= o <= |f.text| && Boundary(f.text, a) && Boundary(f.text, o) && LineEnd(f.text, o).Some?
    ensures var e := LineEnd(f.text, o).value;
            var before := SilentAfter(p, f, a, o, silent);
            && Reported(p, f, a, e, silent) == Reported(p, f, a, o, silent) + Emitted(p, f, o, before)
            && SilentAfter(p, f, a, e, silent) == Heard(p, f, o, before)
  {
    var e := LineEnd(f.text, o).value;
    var before := SilentAfter(p, f, a, o, silent);
    ReportedSplit(p, f, a, o, e, silent);
    SilentSplit(p, f, a, o, e, silent);
    NothingWithin(p, f, e, Heard(p, f, o, before));
  }

  /** What the loop does with one line. */
  method HandleLine(p: Parser, f: LogFile, o: nat, now: int, cache: map<Key, int>, ttl: nat)
    returns (event: seq<EventId>, cache': map<Key, int>)
    requires o <= |f.text| && LineEnd(f.text, o).Some?
    ensures event == Emitted(p, f, o, SilentNow(ttl, now, cache)) && |event| <= 1
    ensures SilentNow(ttl, now, cache') == Heard(p, f, o, SilentNow(ttl, now, cache))
    ensures var k := p(f.text[o..LineEnd(f.text, o).value]);
            cache' == if k.Some? && k.value.srcIP != "" then cache[k.value := now] else cache
  {
    hide LineEnd;
    var line := f.text[o..LineEnd(f.text, o).value];
    var id := EventId(f.device, f.inode, o, line);
    var k := p(line);
    if k.None? {
      return [], cache;
    }
    RecentIsSilent(ttl, now, cache, k.value);
    hide SilentNow;
    var repeated;
    repeated, cache' := CheckRepeated(ttl, now, cache, k.value);
    event := if repeated then [] else [id];
  }

  /** The reading loop: complete lines from `start` on, until the batch is full or the text ends, unless
      a read fails, which `broken` decides for the read at each offset. */
  method ReadLines(
    p: Parser, f: LogFile, start: nat, now: int, cache: map<Key, int>, ttl: nat, maxBatch: nat, broken: nat -> bool)
    returns (ok: bool, events: seq<EventId>, offset: nat, cache': map<Key, int>)
    requires start <= |f.text| && Boundary(f.text, start)
    ensures start <= offset <= |f.text| && Boundary(f.text, offset)
    ensures events == Reported(p, f, start, offset, SilentNow(ttl, now, cache)) && |events| <= maxBatch
    ensures ReportsNews(p, f, start, offset, SilentNow(ttl, now, cache), events)
    ensures ok ==> SilentNow(ttl, now, cache') == SilentAfter(p, f, start, offset, SilentNow(ttl, now, cache))
    ensures ok ==> Remembers(p, f, start, offset, now, ttl, cache, cache')
    ensures ok ==> |events| == maxBatch || LineEnd(f.text, offset).None?
    ensures !ok ==> broken(offset)
    ensures ok ==> AllRead(f, start, offset, broken) && (|events| < maxBatch ==> !broken(offset))
  {
    hide ReadSoFar, SilentNow, LineEnd, Touched, ReportsNews, KeyAt, AllRead;
    NoneRead(f, start, broken);
    ghost var silent := SilentNow(ttl, now, cache);
    events, offset, cache', ok := [], start, cache, true;
    NothingRead(p, f, start, cache, ttl, now);
    NothingTouched(p, f, start, now, cache);
    while |events| < maxBatch
      invariant ReadSoFar(p, f, start, silent, offset, events, ttl, now, cache') && ok && |events| <= maxBatch
      invariant offset <= |f.text| && Touched(p, f, start, offset, now, cache, cache')
      invariant AllRead(f, start, offset, broken)
      decreases |f.text| - offset
    {
      if broken(offset) {
        ReadState(p, f, start, silent, offset, events, ttl, now, cache');
        ReportedIsNews(p, f, start, offset, silent);
        return false, events, offset, cache';
      }
      var e := LineEnd(f.text, offset);
      if e.None? {
        break;
      }
      var event, next := HandleLine(p, f, offset, now, cache', ttl);
      LineStarts(p, f, start, silent, offset, events, ttl, now, cache');
      ReadOn(p, f, start, silent, offset, events, ttl, now, cache', event, next);
      TouchedNext(p, f, start, offset, now, cache, cache', next);
      OneMoreRead(f, start, offset, broken);
      events, offset, cache' := events + event, e.value, next;
    }
    ReadState(p, f, start, silent, offset, events, ttl, now, cache');
    ReportedIsNews(p, f, start, offset, silent);
    ghost var touched := cache';
    cache' := Prune(ttl, now, cache');
    TouchedAndPruned(p, f, start, offset, now, ttl, cache, touched, cache');
  }

  /** No read of a line between `a` and `b` failed. */
  predicate AllRead(f: LogFile, a: nat, b: nat, broken: nat -> bool) {
    forall o: nat :: a <= o < b && IsLine(f, o) ==> !broken(o)
  }

  lemma NoneRead(f: LogFile, a: nat, broken: nat -> bool)
    ensures AllRead(f, a, a, broken)
  {
  }

  lemma OneMoreRead(f: LogFile, a: nat, o: nat, broken: nat -> bool)
    requires a <= o && IsLine(f, o) && AllRead(f, a, o, broken) && !broken(o)
    ensures AllRead(f, a, LineEnd(f.text, o).value, broken)
  {
    forall m: nat | a <= m < LineEnd(f.text, o).value && IsLine(f, m) ensures !broken(m) {
      if m >= o {
        NextLine(f, o, m);
      }
    }
  }

  lemma TouchedAndPruned(
    p: Parser, f: LogFile, a: nat, b: nat, now: int, ttl: nat, cache: map<Key, int>, cache': map<Key, int>,
    cache'': map<Key, int>)
    requires Touched(p, f, a, b, now, cache, cache')
    requires forall k :: k in cache'' <==> k in cache' && now - cache'[k] <= 2 * ttl
    requires forall k :: k in cache'' ==> cache''[k] == cache'[k]
    ensures Remembers(p, f, a, b, now, ttl, cache, cache'')
  {
    hide LoginSeen;
  }

  lemma LineStarts(
    p: Parser, f: LogFile, start: nat, silent: set<Key>, offset: nat, events: seq<EventId>,
    ttl: nat, now: int, cache: map<Key, int>)
    requires ReadSoFar(p, f, start, silent, offset, events, ttl, now, cache) && LineEnd(f.text, offset).Some?
    ensures start <= offset && IsLine(f, offset)
    ensures KeyAt(p, f, offset) == p(f.text[offset..LineEnd(f.text, offset).value])
  {
  }

  /** What has been read of `f` from `start` to `offset`. */
  ghost predicate ReadSoFar(
    p: Parser, f: LogFile, start: nat, silent: set<Key>, offset: nat, events: seq<EventId>,
    ttl: nat, now: int, cache: map<Key, int>)
  {
    && start <= offset <= |f.text| && Boundary(f.text, start) && Boundary(f.text, offset)
    && events == Reported(p, f, start, offset, silent)
    && SilentNow(ttl, now, cache) == SilentAfter(p, f, start, offset, silent)
  }

  lemma NothingRead(p: Parser, f: LogFile, start: nat, cache: map<Key, int>, ttl: nat, now: int)
    requires start <= |f.text| && Boundary(f.text, start)
    ensures ReadSoFar(p, f, start, SilentNow(ttl, now, cache), start, [], ttl, now, cache)
  {
    NothingWithin(p, f, start, SilentNow(ttl, now, cache));
  }

  lemma ReadState(
    p: Parser, f: LogFile, start: nat, silent: set<Key>, offset: nat, events: seq<EventId>,
    ttl: nat, now: int, cache: map<Key, int>)
    requires ReadSoFar(p, f, start, silent, offset, events, ttl, now, cache)
    ensures start <= offset <= |f.text| && Boundary(f.text, offset)
    ensures events == Reported(p, f, start, offset, silent)
    ensures SilentNow(ttl, now, cache) == SilentAfter(p, f, start, offset, silent)
  {
  }

  lemma {:induction false} ReadOn(
    p: Parser, f: LogFile, start: nat, silent: set<Key>, offset: nat, events: seq<EventId>,
    ttl: nat, now: int, cache: map<Key, int>, event: seq<EventId>, cache': map<Key, int>)
    requires ReadSoFar(p, f, start, silent, offset, events, ttl, now, cache) && LineEnd(f.text, offset).Some?
    requires event == Emitted(p, f, offset, SilentNow(ttl, now, cache))
    requires SilentNow(ttl, now, cache') == Heard(p, f, offset, SilentNow(ttl, now, cache))
    ensures ReadSoFar(p, f, start, silent, LineEnd(f.text, offset).value, events + event, ttl, now, cache')
  {
    hide Reported, SilentAfter, SilentNow, Emitted, Heard, IdAt;
    OneMoreLine(p, f, start, offset, silent);
  }

  lemma RecentIsSilent(ttl: nat, now: int, cache: map<Key, int>, k: Key)
    ensures k in SilentNow(ttl, now, cache) <==> Recent(ttl, now, cache, k)
  {
  }

  // ---------------------------------------------------------------------------------------------
  // Capture, commit, rollback, restart.
  // ---------------------------------------------------------------------------------------------

  datatype Position = Position(offset: nat, device: int, inode: int, cache: map<Key, int>)

  datatype Checkpoint = Checkpoint(device: int, inode: int, offset: nat)

  const NO_FILE := LogFile(0, 0, "")

  function Prefix(f: LogFile, o: nat): LogFile
    requires o <= |f.text|
  {
    f.(text := f.text[..o])
  }

  /** The events of the committed captures contain each evidence line of the committed part of the log
      exactly once, in order, and end at a line boundary. */
  ghost predicate Settled(p: Parser, known: LogFile, committed: seq<EventId>) {
    && Boundary(known.text, |known.text|) && (known.inode == 0 ==> known.text == "")
    && EvidenceOf(p, committed) == EvidenceIn(p, known, 0, |known.text|)
  }

  /** `captured` are the events of the stretch of `seen` from `origin` to `o`. */
  ghost predicate Covers(p: Parser, seen: LogFile, origin: nat, o: nat, captured: seq<EventId>) {
    && origin <= o <= |seen.text| && Boundary(seen.text, origin) && Boundary(seen.text, o)
    && EvidenceOf(p, captured) == EvidenceIn(p, seen, origin, o)
    && forall id :: id in captured ==>
         origin <= id.offset < o && LineEnd(seen.text, id.offset).Some? && id == IdAt(seen, id.offset)
  }

  /** The position is the end of `f`. */
  predicate At(o: nat, d: int, i: int, f: LogFile) {
    o == |f.text| && d == f.device && i == f.inode
  }

  /** Where a capture of `seen` begins: where the last committed one ended, or at the start of a new or
      truncated log. */
  ghost function Origin(known: LogFile, seen: LogFile): nat {
    if Extends(known, seen) then |known.text| else 0
  }

  /** A pending capture of `seen` has got to `o`, and can be taken back to `saved`. */
  ghost predicate PendingOk(
    p: Parser, known: LogFile, saved: Position, seen: LogFile, device: int, inode: int, o: nat, captured: seq<EventId>)
  {
    && At(saved.offset, saved.device, saved.inode, known)
    && device == seen.device && inode == seen.inode && inode != 0
    && Covers(p, seen, Origin(known, seen), o, captured)
  }

  lemma CaptureIsPending(
    p: Parser, known: LogFile, saved: Position, seen: LogFile, o: nat, captured: seq<EventId>)
    requires At(saved.offset, saved.device, saved.inode, known) && seen.inode != 0
    requires Covers(p, seen, Origin(known, seen), o, captured)
    ensures PendingOk(p, known, saved, seen, seen.device, seen.inode, o, captured)
  {
  }

  lemma {:induction false} CommitContinues(
    p: Parser, known: LogFile, committed: seq<EventId>, seen: LogFile, o: nat, captured: seq<EventId>)
    requires Settled(p, known, committed) && Extends(known, seen) && Covers(p, seen, |known.text|, o, captured)
    requires seen.inode != 0
    ensures Settled(p, Prefix(seen, o), committed + captured)
  {
    hide EvidenceIn, EvidenceOf, LineEnd;
    var n := |known.text|;
    EvidenceIsStable(p, known, seen, 0, n);
    EvidenceSplit(p, seen, 0, n, o);
    EvidenceIsStable(p, Prefix(seen, o), seen, 0, o);
    EvidenceOfAppend(p, committed, captured);
  }

  lemma {:induction false} CommitStarts(p: Parser, seen: LogFile, o: nat, captured: seq<EventId>)
    requires Covers(p, seen, 0, o, captured) && seen.inode != 0
    ensures Settled(p, Prefix(seen, o), captured)
  {
    hide EvidenceIn, EvidenceOf, LineEnd;
    EvidenceIsStable(p, Prefix(seen, o), seen, 0, o);
  }

  lemma EndIsBoundary(p: Parser, known: LogFile, committed: seq<EventId>, f: LogFile)
    requires Settled(p, known, committed)
    ensures Extends(known, f) ==> Boundary(f.text, |known.text|)
    ensures known.inode == 0 ==> known.text == ""
  {
  }

  lemma CoveredIsPart(p: Parser, seen: LogFile, origin: nat, o: nat, captured: seq<EventId>)
    requires Covers(p, seen, origin, o, captured)
    ensures origin <= o <= |seen.text|
  {
  }

  lemma NothingSettled(p: Parser)
    ensures Settled(p, NO_FILE, [])
  {
  }

  /** Two captures, before and after a rollback, a restart or further lines, give a line the same
      identity ... */
  lemma {:induction false} SameLineSameIdentity(
    p: Parser, f: LogFile, a: nat, o: nat, events: seq<EventId>, g: LogFile, a': nat, o': nat, events': seq<EventId>,
    x: EventId, y: EventId)
    requires Covers(p, f, a, o, events) && Covers(p, g, a', o', events') && Extends(f, g)
    requires x in events && y in events' && x.offset == y.offset
    ensures x == y
  {
    IdentityIsStable(f, g, x.offset);
  }

  /** ... and the evidence of the shorter one is where the longer one begins. */
  lemma {:induction false} ReplayBeginsAlike(
    p: Parser, f: LogFile, a: nat, o: nat, events: seq<EventId>, g: LogFile, o': nat, events': seq<EventId>)
    requires Covers(p, f, a, o, events) && Covers(p, g, a, o', events') && Extends(f, g) && o <= o'
    ensures EvidenceOf(p, events) <= EvidenceOf(p, events')
  {
    EvidenceIsStable(p, f, g, a, o);
    EvidenceSplit(p, g, a, o, o');
  }

  class Capturer {
    const p: Parser
    const ttl: nat
    const maxBatch: nat
    /** Whether a checkpoint path is configured. */
    const persistent: bool
    var offset: nat
    var device: int
    var inode: int
    var cache: map<Key, int>
    var pending: Option<Position>
    var loadErr: bool
    /** The checkpoint file. */
    var checkpoint: Option<Checkpoint>

    /** The committed part of the current log, and the events committed for it. */
    ghost var known: LogFile
    ghost var committed: seq<EventId>
    /** The log as the pending capture found it, and the events of that capture. */
    ghost var seen: LogFile
    ghost var captured: seq<EventId>
    /** The same as of the last checkpoint. */
    ghost var savedKnown: LogFile
    ghost var savedCommitted: seq<EventId>

    ghost predicate Valid()
      reads this
    {
      && 0 < maxBatch && (loadErr ==> pending.None?)
      && Settled(p, known, committed)
      && (pending.None? ==> At(offset, device, inode, known))
      && (pending.Some? ==> PendingOk(p, known, pending.value, seen, device, inode, offset, captured))
      && Settled(p, savedKnown, savedCommitted)
      && (checkpoint.Some? ==> At(checkpoint.value.offset, checkpoint.value.device, checkpoint.value.inode, savedKnown))
    }

    /** The log was only appended to since the last commit, unless it was replaced or truncated
        visibly. */
    ghost predicate Follows(f: LogFile)
      reads this
    {
      && f.inode != 0
      && (f.device == known.device && f.inode == known.inode && |known.text| <= |f.text| ==> known.text <= f.text)
    }

    /** Where the next capture will begin, and what it will suppress. */
    ghost function Here(): Position
      reads this
    {
      if pending.Some? then pending.value else Position(offset, device, inode, cache)
    }

    /** The first process, without a checkpoint file. */
    constructor (parser: Parser, dedup: nat, batch: int, durable: bool)
      ensures Valid() && pending.None? && committed == [] && checkpoint.None?
      ensures p == parser && ttl == dedup && persistent == durable && !loadErr && cache == map[]
      ensures maxBatch == if batch <= 0 then 200 else batch
    {
      p, ttl, persistent := parser, dedup, durable;
      maxBatch := if batch <= 0 then 200 else batch;
      offset, device, inode, cache, pending, loadErr, checkpoint := 0, 0, 0, map[], None, false, None;
      known, committed, seen, captured, savedKnown, savedCommitted := NO_FILE, [], NO_FILE, [], NO_FILE, [];
      new;
      NothingSettled(p);
    }

    /** Commits are kept on disk; everything else is forgotten. An unreadable checkpoint file makes the
        capturer fail closed. */
    method Restart(readable: bool)
      requires Valid()
      modifies this
      ensures Valid() && pending.None? && checkpoint == old(checkpoint)
      ensures savedKnown == old(savedKnown) && savedCommitted == old(savedCommitted)
      ensures loadErr <==> persistent && !readable
      ensures if persistent && readable && checkpoint.Some?
              then known == old(savedKnown) && committed == old(savedCommitted)
              else known == NO_FILE && committed == []
    {
      hide Settled, Covers;
      cache, pending, loadErr := map[], None, persistent && !readable;
      if persistent && readable && checkpoint.Some? {
        offset, device, inode := checkpoint.value.offset, checkpoint.value.device, checkpoint.value.inode;
        known, committed := savedKnown, savedCommitted;
      } else {
        offset, device, inode := 0, 0, 0;
        known, committed := NO_FILE, [];
        NothingSettled(p);
      }
    }

    method Rollback()
      requires Valid()
      modifies `offset, `device, `inode, `cache, `pending
      ensures Valid() && pending.None?
      ensures Position(offset, device, inode, cache) == old(Here())
    {
      hide Settled, Covers, Origin;
      if pending.Some? {
        var before := pending.value;
        offset, device, inode, cache := before.offset, before.device, before.inode, before.cache;
        pending := None;
      }
    }

    /** Reads on from the committed position. Whatever happens, what is committed stays as it was; a
        capture that succeeds covers the log from there to a line boundary. */
    method Capture(now: int, file: Option<LogFile>, broken: nat -> bool) returns (ok: bool, events: seq<EventId>)
      requires Valid() && (file.Some? ==> Follows(file.value))
      modifies `offset, `device, `inode, `cache, `pending, `seen, `captured
      ensures Valid() && Here() == old(Here())
      ensures ok ==> pending.Some? && file.Some? && seen == file.value && captured == events && |events| <= maxBatch
      // Exactly the news of the stretch read are reported, and the logins in it are remembered.
      ensures ok ==> AllRead(seen, Origin(known, seen), offset, broken)
      ensures ok && |events| < maxBatch ==> !broken(offset)
      ensures ok ==>
                && ReportsNews(p, seen, Origin(known, seen), offset, SilentNow(ttl, now, old(Here()).cache), events)
                && Remembers(p, seen, Origin(known, seen), offset, now, ttl, old(Here()).cache, cache)
      ensures ok ==> |events| == maxBatch || (offset <= |seen.text| && LineEnd(seen.text, offset).None?)
      ensures !ok ==> pending.None? && (loadErr || file.None? || exists o :: 0 <= o <= |file.value.text| && broken(o))
    {
      hide Settled, Covers, Reported, SilentAfter, SilentNow, LineEnd, ReportsNews, Remembers, AllRead;
      if loadErr {
        return false, [];
      }
      Rollback();
      if file.None? {
        return false, [];
      }
      var start := StartIn(file.value);
      ok, events := CaptureFrom(file.value, start, now, broken);
    }

    /** Where to start reading: at the committed position, unless the log was replaced or truncated. */
    method StartIn(f: LogFile) returns (start: nat)
      requires Valid() && pending.None? && Follows(f)
      ensures start == Origin(known, f) <= |f.text| && Boundary(f.text, start)
    {
      EndIsBoundary(p, known, committed, f);
      hide Settled, Covers;
      start := if inode != 0 && (f.inode != inode || f.device != device) then 0 else offset;
      start := if start > |f.text| then 0 else start;
    }

    method CaptureFrom(f: LogFile, start: nat, now: int, broken: nat -> bool) returns (ok: bool, events: seq<EventId>)
      requires Valid() && pending.None? && !loadErr && f.inode != 0
      requires start == Origin(known, f) <= |f.text| && Boundary(f.text, start)
      modifies `offset, `device, `inode, `cache, `pending, `seen, `captured
      ensures Valid() && Here() == old(Here())
      ensures ok ==> pending.Some? && seen == f && captured == events && |events| <= maxBatch
      // Exactly the news of the stretch read are reported, and the logins in it are remembered.
      ensures ok ==> AllRead(seen, Origin(known, seen), offset, broken)
      ensures ok && |events| < maxBatch ==> !broken(offset)
      ensures ok ==>
                && ReportsNews(p, seen, Origin(known, seen), offset, SilentNow(ttl, now, old(Here()).cache), events)
                && Remembers(p, seen, Origin(known, seen), offset, now, ttl, old(Here()).cache, cache)
      ensures ok ==> |events| == maxBatch || (offset <= |seen.text| && LineEnd(seen.text, offset).None?)
      ensures !ok ==> pending.None? && exists o :: 0 <= o <= |f.text| && broken(o)
    {
      hide Settled, Covers, Reported, SilentAfter, SilentNow, LineEnd, Boundary, Origin, PendingOk;
      hide ReportsNews, Remembers, AllRead;
      var o, cache';
      ok, events, o, cache' := ReadLines(p, f, start, now, cache, ttl, maxBatch, broken);
      if !ok {
        return;
      }
      ReadIsCovered(f, start, o, now, events);
      CaptureIsPending(p, known, Position(offset, device, inode, cache), f, o, events);
      pending := Some(Position(offset, device, inode, cache));
      seen, captured := f, events;
      offset, device, inode, cache := o, f.device, f.inode, cache';
    }

    lemma ReadIsCovered(f: LogFile, start: nat, o: nat, now: int, events: seq<EventId>)
      requires start <= o <= |f.text| && Boundary(f.text, start) && Boundary(f.text, o)
      requires events == Reported(p, f, start, o, SilentNow(ttl, now, cache))
      ensures Covers(p, f, start, o, events)
    {
      EvidenceIsReported(p, f, start, o, SilentNow(ttl, now, cache));
      ReportedNamesLines(p, f, start, o, SilentNow(ttl, now, cache));
    }

    /** Accepts the pending capture and records the position, if it can. */
    method Commit() returns (ok: bool)
      requires Valid()
      modifies this
      ensures Valid() && pending.None? && loadErr == old(loadErr)
      ensures old(pending).None? ==>
                ok && known == old(known) && committed == old(committed) && checkpoint == old(checkpoint)
      ensures old(pending).Some? ==>
                && old(offset) <= |old(seen).text| && known == Prefix(old(seen), old(offset))
                && committed == (if Extends(old(known), old(seen)) then old(committed) else []) + old(captured)
      ensures !persistent ==> ok && checkpoint == old(checkpoint)
      ensures ok && old(pending).Some? && persistent ==>
                savedKnown == known && savedCommitted == committed && checkpoint.Some?
      ensures checkpoint != old(checkpoint) ==> savedKnown == known && savedCommitted == committed
      ensures checkpoint == old(checkpoint) ==>
                || (savedKnown == old(savedKnown) && savedCommitted == old(savedCommitted))
                || (savedKnown == known && savedCommitted == committed)
    {
      hide Settled, Covers;
      if pending.None? {
        return true;
      }
      CoveredIsPart(p, seen, Origin(known, seen), offset, captured);
      pending := None;
      if Extends(known, seen) {
        CommitContinues(p, known, committed, seen, offset, captured);
        committed := committed + captured;
      } else {
        CommitStarts(p, seen, offset, captured);
        committed := captured;
      }
      known := Prefix(seen, offset);
      if !persistent {
        return true;
      }
      ok := *;
      var landed: bool := *;
      if ok || landed {
        checkpoint := Some(Checkpoint(device, inode, offset));
        savedKnown, savedCommitted := known, committed;
      }
    }
  }
}
