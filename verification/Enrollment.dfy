/** Identity recovery (internal/enrollment/manager.go and pending.go). Every method is shown to do
    nothing but steps of `EnrollmentProtocol`, so the theorems about runs hold of it wherever it is
    interrupted. */
module Enrollment {
  import opened Optional
  import opened EnrollmentProtocol
  import CertPair

  datatype Attempt = Recovered | Unauthorized | IncompatibleStatus | OtherFailure

  const MAX_WAIT := 300

  /** The wait after a number of failures, in seconds, without jitter: doubling from five seconds to five
      minutes. */
  function Wait(failures: nat): nat {
    if failures <= 1 then 5 else if 2 * Wait(failures - 1) >= MAX_WAIT then MAX_WAIT else 2 * Wait(failures - 1)
  }

  /** The waits one by one. */
  lemma {:induction false} WaitByCases(n: nat)
    ensures Wait(n) ==
              if n <= 1 then 5 else if n == 2 then 10 else if n == 3 then 20 else if n == 4 then 40
              else if n == 5 then 80 else if n == 6 then 160 else 300
  {
    if n > 1 {
      WaitByCases(n - 1);
    }
  }

  lemma {:induction false} WaitIsBounded(a: nat, b: nat)
    requires a <= b
    ensures 5 <= Wait(a) <= Wait(b) <= 300
  {
    if b > 1 {
      if a < b {
        WaitIsBounded(a, b - 1);
      } else {
        WaitIsBounded(b - 1, b - 1);
      }
    }
  }

  lemma {:induction false} WaitStays(a: nat, b: nat)
    requires 1 <= a <= b && Wait(a) == MAX_WAIT
    ensures Wait(b) == MAX_WAIT
  {
    WaitIsBounded(a, b);
  }

  /** The doubling loop of `nextRecoveryBackoff`, which stops at the maximum. */
  method NextWait(failures: int) returns (wait: nat)
    ensures wait == Wait(if failures < 1 then 1 else failures)
  {
    var n := if failures < 1 then 1 else failures;
    wait := 5;
    var i := 1;
    while i < n
      invariant 1 <= i <= n && wait == Wait(i)
    {
      wait := wait * 2;
      i := i + 1;
      if wait >= MAX_WAIT {
        wait := MAX_WAIT;
        WaitStays(i, n);
        break;
      }
    }
  }

  datatype Candidate = Candidate(via: Method, token: string)

  /** `availableRecoveryMethods`, in order of preference. */
  function Candidates(i: Identity, bootstrap: string, now: int): seq<Candidate> {
    Offered(i, bootstrap, now, Renewal) + Offered(i, bootstrap, now, RenewalPrevious) +
    Offered(i, bootstrap, now, Bootstrap)
  }

  function Offered(i: Identity, bootstrap: string, now: int, m: Method): seq<Candidate> {
    if TokenFor(i, bootstrap, now, m) == "" then [] else [Candidate(m, TokenFor(i, bootstrap, now, m))]
  }

  function Preference(m: Method): nat {
    match m
    case Renewal => 0
    case RenewalPrevious => 1
    case Bootstrap => 2
    case Rotation => 3
  }

  /** Every candidate carries the token of its method, and the preferred methods come first. */
  predicate Genuine(i: Identity, bootstrap: string, now: int, cs: seq<Candidate>) {
    && |cs| <= 3 && InOrder(cs)
    && forall k :: 0 <= k < |cs| ==>
         cs[k].token == TokenFor(i, bootstrap, now, cs[k].via) && cs[k].token != "" && cs[k].via != Rotation
  }

  predicate InOrder(cs: seq<Candidate>) {
    forall j, k :: 0 <= j < k < |cs| ==> Preference(cs[j].via) < Preference(cs[k].via)
  }

  /** Which methods are available, and with which tokens: the renewal token unless it has expired; the previous
      one unless it has expired or is the same; the bootstrap token until it is consumed. */
  lemma AvailableByFields(i: Identity, bootstrap: string, now: int)
    ensures var current := i.renewal != "" && (i.renewalExp.None? || now <= i.renewalExp.value);
            var fallback := && i.previous != "" && (i.previousExp.None? || now <= i.previousExp.value)
                            && !(current && i.previous == i.renewal);
            forall c :: c in Candidates(i, bootstrap, now) <==>
              || (current && c == Candidate(Renewal, i.renewal))
              || (fallback && c == Candidate(RenewalPrevious, i.previous))
              || (!i.consumed && bootstrap != "" && c == Candidate(Bootstrap, bootstrap))
  {
  }

  /** `availableRecoveryMethods`. `bootstrap` is the token provisioned, which does not count once it is
      consumed. */
  method AvailableMethods(i: Identity, bootstrap: string, now: int) returns (cs: seq<Candidate>)
    ensures cs == Candidates(i, bootstrap, now)
  {
    var token := if i.consumed then "" else bootstrap;
    var renewal, previous := i.renewal, i.previous;
    if i.renewalExp.Some? && now > i.renewalExp.value {
      renewal := "";
    }
    if previous == renewal {
      previous := "";
    }
    if i.previousExp.Some? && now > i.previousExp.value {
      previous := "";
    }
    cs := [];
    if renewal != "" {
      cs := cs + [Candidate(Renewal, renewal)];
    }
    if previous != "" {
      cs := cs + [Candidate(RenewalPrevious, previous)];
    }
    if token != "" {
      cs := cs + [Candidate(Bootstrap, token)];
    }
  }

  /** `recoveryMethodToken`. */
  method TokenOf(cs: seq<Candidate>, m: Method, ghost i: Identity, ghost bootstrap: string, ghost now: int)
    returns (token: string)
    requires cs == Candidates(i, bootstrap, now)
    ensures token == TokenFor(i, bootstrap, now, m)
  {
    CandidatesAreGenuine(i, bootstrap, now);
    hide Candidates;
    for k := 0 to |cs|
      invariant forall j :: 0 <= j < k ==> cs[j].via != m
    {
      if cs[k].via == m {
        return cs[k].token;
      }
    }
    token := "";
  }

  lemma CandidatesAreGenuine(i: Identity, bootstrap: string, now: int)
    ensures Genuine(i, bootstrap, now, Candidates(i, bootstrap, now)) && |Candidates(i, bootstrap, now)| <= 3
    ensures forall m :: m != Rotation ==>
              (TokenFor(i, bootstrap, now, m) != "" <==> exists c :: c in Candidates(i, bootstrap, now) && c.via == m)
  {
    var cs := Candidates(i, bootstrap, now);
    var a, b := Offered(i, bootstrap, now, Renewal), Offered(i, bootstrap, now, RenewalPrevious);
    var c := Offered(i, bootstrap, now, Bootstrap);
    hide TokenFor;
    assert forall x: Candidate :: x in a + b + c ==>
             x.token == TokenFor(i, bootstrap, now, x.via) && x.token != "" && x.via != Rotation;
    CandidatesInOrder(a, b, c);
    hide InOrder, Preference;
    forall m | m != Rotation && TokenFor(i, bootstrap, now, m) != "" ensures exists c :: c in cs && c.via == m {
      assert Candidate(m, TokenFor(i, bootstrap, now, m)) in cs;
    }
  }

  lemma CandidatesInOrder(a: seq<Candidate>, b: seq<Candidate>, c: seq<Candidate>)
    requires |a| <= 1 && |b| <= 1 && |c| <= 1
    requires (a != [] ==> a[0].via == Renewal) && (b != [] ==> b[0].via == RenewalPrevious)
    requires c != [] ==> c[0].via == Bootstrap
    ensures InOrder(a + b + c)
  {
  }

  /** `removeRecoveryMethod`. */
  function Without(cs: seq<Candidate>, m: Method): seq<Candidate> {
    if cs == [] then []
    else
      var last := cs[|cs| - 1];
      Without(cs[..|cs| - 1], m) + if last.via == m then [] else [last]
  }

  /** The loop of `removeRecoveryMethod`. */
  method RemoveMethod(cs: seq<Candidate>, m: Method) returns (out: seq<Candidate>)
    ensures out == Without(cs, m)
  {
    out := [];
    for k := 0 to |cs|
      invariant out == Without(cs[..k], m)
    {
      assert cs[..k + 1][..k] == cs[..k];
      if cs[k].via != m {
        out := out + [cs[k]];
      }
    }
    assert cs[..|cs|] == cs;
  }

  lemma {:induction false} WithoutIsGenuine(i: Identity, bootstrap: string, now: int, cs: seq<Candidate>, m: Method)
    requires Genuine(i, bootstrap, now, cs)
    ensures Genuine(i, bootstrap, now, Without(cs, m)) && |Without(cs, m)| <= |cs|
    ensures forall c :: c in Without(cs, m) <==> c in cs && c.via != m
  {
    hide Without, TokenFor, InOrder;
    WithoutMembers(cs, m);
    WithoutInOrder(cs, m);
    var out := Without(cs, m);
    forall k | 0 <= k < |out|
      ensures out[k].token == TokenFor(i, bootstrap, now, out[k].via) && out[k].token != "" && out[k].via != Rotation
    {
      assert out[k] in out;
    }
  }

  lemma {:induction false} WithoutMembers(cs: seq<Candidate>, m: Method)
    ensures forall c :: c in Without(cs, m) <==> c in cs && c.via != m
  {
    if cs != [] {
      var n := |cs| - 1;
      WithoutMembers(cs[..n], m);
      assert cs == cs[..n] + [cs[n]];
    }
  }

  predicate Below(cs: seq<Candidate>, bound: nat) {
    forall k :: 0 <= k < |cs| ==> Preference(cs[k].via) < bound
  }

  lemma {:induction false} WithoutIsBelow(cs: seq<Candidate>, m: Method, bound: nat)
    requires Below(cs, bound)
    ensures Below(Without(cs, m), bound)
  {
    if cs != [] {
      WithoutIsBelow(cs[..|cs| - 1], m, bound);
    }
  }

  lemma {:induction false} WithoutInOrder(cs: seq<Candidate>, m: Method)
    requires InOrder(cs)
    ensures InOrder(Without(cs, m)) && |Without(cs, m)| <= |cs|
  {
    if cs != [] {
      var n := |cs| - 1;
      WithoutInOrder(cs[..n], m);
      WithoutIsBelow(cs[..n], m, Preference(cs[n].via));
    }
  }

  /** The open request was sent again, unless its token is no longer available. */
  predicate Repeated(p: Pending, token: string, before: seq<Event>, after: seq<Event>) {
    token != "" ==> |after| > |before| && after[|before|] == Sent(p.id, p.csr, p.via, token)
  }

  /** The first request of a new transaction uses the preferred method. */
  predicate Opened(candidates: seq<Candidate>, id: string, csr: string, before: seq<Event>, after: seq<Event>) {
    if candidates == [] then after == before
    else |after| > |before| && after[|before|] == Sent(id, csr, candidates[0].via, candidates[0].token)
  }

  /** Recovery is not held back by an earlier failure. */
  predicate Due(force: bool, retryAt: Option<int>, now: int) {
    force || retryAt.None? || now >= retryAt.value
  }

  /** The failure was counted, and the next try waits. */
  predicate BackedOff(now: int, before: nat, failures: nat, retryAt: Option<int>) {
    failures == before + 1 && retryAt.Some? && now + Wait(failures) <= retryAt.value <= now + Wait(failures) + 30
  }

  predicate OnlyFinalized(before: seq<Event>, after: seq<Event>) {
    before <= after && forall k :: |before| <= k < |after| ==> after[k].Finalized?
  }

  predicate NothingSent(before: seq<Event>, after: seq<Event>) {
    before <= after && forall k :: |before| <= k < |after| ==> !after[k].Sent?
  }

  lemma ExtendRun(worlds: seq<World>, steps: seq<Step>, s: Step)
    requires IsRun(worlds, steps) && Enabled(worlds[|worlds| - 1], s)
    ensures IsRun(worlds + [Apply(worlds[|worlds| - 1], s)], steps + [s])
  {
  }

  /** The response stored in `p` was finalized last, and its credential is in force in file and memory. */
  predicate Completes(p: Pending, log: seq<Event>, mem: Identity, disk: Identity) {
    && p.response.Some? && |log| > 0 && log[|log| - 1] == Finalized(p.id, p.via)
    && mem == disk && mem.credential == p.response.value.update.credential && mem.credential != ""
  }

  function WithResponse(p: Pending, r: Response): Pending {
    p.(response := Some(r))
  }

  /** The response would be finalized at time `now`. */
  predicate Usable(tls: Tls, pair: CertPair.Disk, p: Pending, r: Response, now: int) {
    FinalizableAt(tls, WithResponse(p, r), now) && !PairStuck(tls, pair)
  }

  /** The reply to the request `p` is a response that would be finalized. */
  predicate UsableReply(tls: Tls, pair: CertPair.Disk, p: Pending, reply: Option<Reply>, now: int) {
    reply.Some? && reply.value.Answer? && Usable(tls, pair, p, reply.value.response, now)
  }

  /** The tokens of the candidates before the m-th are refused, and the m-th request gets a usable answer. */
  predicate MethodWorks(
    tls: Tls, pair: CertPair.Disk, candidates: seq<Candidate>, ids: seq<string>, csr: string, key: Option<int>,
    replies: nat -> Option<Reply>, later: int, m: nat)
    requires |candidates| <= |ids|
  {
    && m < |candidates| && (forall k :: 1 <= k <= m ==> replies(k) == Some(Http401))
    && UsableReply(tls, pair, Pending(ids[m], csr, candidates[m].via, key, None), replies(m + 1), later)
  }

  const NOTHING := Pending("", "", Rotation, None, None)

  class Manager {
    /** Whether and how client certificate files are configured. */
    const tls: Tls
    /** The pending-enrollment file and the identity file. */
    var pending: Option<Pending>
    var disk: Identity
    var mem: Identity
    /** The client certificate files. */
    var pair: CertPair.Disk
    var failures: nat
    /** When recovery may be tried again, in seconds. */
    var retryAt: Option<int>
    ghost var pc: Pc
    ghost var clock: int
    ghost var log: seq<Event>
    /** The run so far. */
    ghost var worlds: seq<World>
    ghost var steps: seq<Step>
    /** How many local operations have failed. */
    ghost var faults: nat

    ghost function State(): World
      reads `pending, `disk, `mem, `pair, `pc, `clock, `log
    {
      World(tls, pending, disk, mem, pair, pc, clock, log)
    }

    ghost predicate Valid()
      reads `pending, `disk, `mem, `pair, `pc, `clock, `log, `worlds, `steps
    {
      IsRun(worlds, steps) && worlds[|worlds| - 1] == State() && ConsumptionOk(State()) && TransactionsOk(State())
    }

    /** A machine provisioned with an identity and possibly certificate files, before the first start. */
    constructor (certificates: Tls, provisioned: Identity, found: CertPair.Disk)
      ensures Valid() && pc == Down && pending.None? && log == [] && tls == certificates
      ensures mem == disk == provisioned && pair == found
    {
      tls := certificates;
      pending, disk, mem, pair, failures, retryAt := None, provisioned, provisioned, found, 0, None;
      pc, clock, log := Down, 0, [];
      worlds, steps, faults := [World(certificates, None, provisioned, provisioned, found, Down, 0, [])], [], 0;
    }

    /** Extends the run by one step and follows it with the ghost fields. */
    ghost method Follow(s: Step)
      requires Valid() && Enabled(State(), s)
      modifies `pc, `clock, `log, `worlds, `steps
      ensures worlds == old(worlds) + [Apply(old(State()), s)] && steps == old(steps) + [s]
      ensures IsRun(worlds, steps)
      ensures var w := Apply(old(State()), s);
              pc == w.pc && clock == w.clock && log == w.log && ConsumptionOk(w) && TransactionsOk(w)
    {
      var w := State();
      ExtendRun(worlds, steps, s);
      StepKeepsConsumption(w, s);
      StepKeepsTransactions(w, s);
      worlds, steps := worlds + [Apply(w, s)], steps + [s];
      pc, clock, log := Apply(w, s).pc, Apply(w, s).clock, Apply(w, s).log;
    }

    /** The process is gone and comes back. */
    method Restart() returns (ok: bool)
      requires Valid()
      modifies `mem, `pair, `failures, `retryAt, `pc, `clock, `log, `worlds, `steps, `faults
      ensures Valid() && pending == old(pending) && disk == old(disk) && log == old(log) && clock == old(clock)
      ensures old(worlds) <= worlds && faults >= old(faults)
      ensures pc == if ok then Idle else Down
      ensures ok ==> mem == disk && pair == RecoveredFiles(tls, old(pair))
      ensures !ok ==> PairStuck(tls, old(pair)) || PairEmpty(tls, old(pair)) || faults > old(faults)
      ensures PairStuck(tls, old(pair)) || PairEmpty(tls, old(pair)) ==> !ok && pair == old(pair)
    {
      hide ConsumptionOk, TransactionsOk, IsRun, PairStuck, PairEmpty, RecoveredFiles, NewPair, Updated, TokenFor;
      Follow(Crash);
      ok := Start();
    }

    /** The process starts with what is on disk, unless the certificate files cannot be recovered or loaded,
        or a file operation fails on the way. */
    method Start() returns (ok: bool)
      requires Valid() && pc == Down
      modifies `mem, `pair, `failures, `retryAt, `pc, `clock, `log, `worlds, `steps, `faults
      ensures Valid() && log == old(log) && clock == old(clock) && old(worlds) <= worlds && faults >= old(faults)
      ensures pc == if ok then Idle else Down
      ensures ok ==> mem == disk && pair == RecoveredFiles(tls, old(pair))
      ensures !ok ==> PairStuck(tls, old(pair)) || PairEmpty(tls, old(pair)) || faults > old(faults)
      ensures PairStuck(tls, old(pair)) || PairEmpty(tls, old(pair)) ==> !ok && pair == old(pair)
    {
      hide ConsumptionOk, TransactionsOk, IsRun, PairStuck, PairEmpty, RecoveredFiles, NewPair, Updated, TokenFor;
      hide FinalizableAt, CertPair.RecoveryReaches, CertPair.TransactionReaches, Used;
      NoFilesNoTrouble(pair);
      ok := true;
      if tls == Tls(true) {
        ok := RecoverFiles();
      }
      if ok {
        Follow(Boot);
        mem, failures, retryAt := disk, 0, None;
      }
    }

    lemma NoFilesNoTrouble(files: CertPair.Disk)
      ensures tls != Tls(true) ==>
                !PairStuck(tls, files) && !PairEmpty(tls, files) && RecoveredFiles(tls, files) == files
    {
    }

    /** `RecoverPair` at the start of the process, and the attempt to load what it left. */
    method RecoverFiles() returns (ok: bool)
      requires Valid() && pc == Down && tls == Tls(true)
      modifies `pair, `pc, `clock, `log, `worlds, `steps, `faults
      ensures Valid() && pc == Down && clock == old(clock) && log == old(log) && old(worlds) <= worlds
      ensures faults >= old(faults)
      ensures ok ==>
                && !PairStuck(tls, pair) && !PairEmpty(tls, pair)
                && !PairStuck(tls, old(pair)) && !PairEmpty(tls, old(pair))
                && pair == RecoveredFiles(tls, old(pair)) == RecoveredFiles(tls, pair)
      ensures !ok ==> PairStuck(tls, old(pair)) || PairEmpty(tls, old(pair)) || faults > old(faults)
      ensures PairStuck(tls, old(pair)) || PairEmpty(tls, old(pair)) ==> pair == old(pair)
    {
      hide ConsumptionOk, TransactionsOk, IsRun, CertPair.Outcome, CertPair.RecoveryReaches;
      CertPair.OutcomeMatches(pair);
      if CertPair.Outcome(pair).Installs? {
        InstalledPairLoads(CertPair.Outcome(pair).pair);
        CertPair.InstalledIsLoaded(CertPair.Outcome(pair).pair);
      }
      CertPair.LoadedInstalls(pair);
      var store := new CertPair.PairStore(pair);
      ok := store.RecoverPair();
      Follow(Recover(store.files));
      pair := store.files;
      faults := faults + store.faults;
      if ok && !CertPair.Loaded(pair) {
        ok := CertPair.CertCurrent !in pair || CertPair.KeyCurrent !in pair;
      }
    }

    /** Looks at the clock. */
    ghost method LookAtClock(now: int)
      requires Valid()
      modifies `pc, `clock, `log, `worlds, `steps
      ensures Valid() && clock == now && pc == old(pc) && log == old(log) && old(worlds) <= worlds
    {
      hide ConsumptionOk, TransactionsOk, IsRun;
      Follow(Tick(now));
    }

    /** `ApplyCredentialUpdate` for a rotated credential. The file is written first; if that fails,
        memory stays as it was. */
    method RotateCredential(u: Update) returns (ok: bool)
      requires Valid() && pc == Idle
      modifies `disk, `mem, `failures, `retryAt, `pc, `clock, `log, `worlds, `steps, `faults
      ensures Valid() && pc == Idle && log == old(log) && old(worlds) <= worlds
      ensures ok ==>
                && u.credential != "" && mem == disk && TakesOver(old(mem), disk, u, Rotation)
                && failures == 0 && retryAt.None?
      ensures !ok ==> mem == old(mem) && (u.credential == "" || faults > old(faults))
      ensures !ok ==> disk == old(disk) || TakesOver(old(mem), disk, u, Rotation)
      ensures u.credential == "" ==> disk == old(disk)
    {
      UpdateTakesOver(mem, u, Rotation);
      hide Valid, State, Updated, TakesOver;
      if u.credential == "" {
        return false;
      }
      ok := *;
      var landed: bool := *;
      if ok || landed {
        WriteRotated(u, ok);
      }
      if ok {
        failures, retryAt := 0, None;
      }
      faults := faults + if ok then 0 else 1;
    }

    /** The identity file takes the rotated credential, and if the write succeeds, memory does. */
    method WriteRotated(u: Update, adopt: bool)
      requires Valid() && pc == Idle
      modifies `disk, `mem, `pc, `clock, `log, `worlds, `steps
      ensures Valid() && pc == Idle && log == old(log) && old(worlds) <= worlds
      ensures disk == Updated(old(mem), u, Rotation) && mem == if adopt then disk else old(mem)
    {
      hide ConsumptionOk, TransactionsOk, IsRun, Updated, PairStuck, PairEmpty, RecoveredFiles, NewPair, TokenFor;
      hide FinalizableAt, CertPair.RecoveryReaches, CertPair.TransactionReaches, Used;
      Follow(if adopt then Rotate(u) else RotateOnDisk(u));
      disk := Updated(mem, u, Rotation);
      if adopt {
        mem := disk;
      }
    }

    /** `savePendingEnrollment` for a new transaction. */
    method OpenPending(id: string, csr: string, m: Method, key: Option<int>) returns (ok: bool)
      requires Valid() && pc == Idle && pending.None? && !Used(log, id)
      requires m != Rotation && (m == Bootstrap ==> !mem.consumed)
      modifies `pending, `pc, `clock, `log, `worlds, `steps, `faults
      ensures faults == old(faults) + if ok then 0 else 1
      ensures Valid() && pc == Idle && clock == old(clock) && log == old(log) && old(worlds) <= worlds
      ensures ok ==> pending == Some(Pending(id, csr, m, key, None))
    {
      hide ConsumptionOk, TransactionsOk, IsRun, Used;
      ok := *;
      var landed: bool := *;
      if ok || landed {
        Follow(Open(id, csr, m, key));
        pending := Some(Pending(id, csr, m, key, None));
      }
      faults := faults + if ok then 0 else 1;
    }

    /** `clearPendingEnrollment` after the server turned the request down. The file may be gone although
        an error is reported. */
    method DropPending() returns (ok: bool)
      requires Valid() && pc.Got? && !pc.reply.Answer? && pending.Some?
      modifies `pending, `pc, `clock, `log, `worlds, `steps, `faults
      ensures faults == old(faults) + if ok then 0 else 1
      ensures Valid() && pc == Idle && clock == old(clock) && old(worlds) <= worlds
      ensures ok ==> pending.None? && log == old(log) + [Dropped(old(pending).value.id, old(pc).reply)]
      ensures old(log) <= log && |log| <= |old(log)| + 1
    {
      hide ConsumptionOk, TransactionsOk, IsRun;
      ok := *;
      var removed: bool := *;
      faults := faults + if ok then 0 else 1;
      if ok || removed {
        Follow(Drop);
        pending := None;
      } else {
        Follow(Fail);
      }
    }

    /** `finalizePendingEnrollment` at time `now`. Nothing is sent; on success the stored response is in
        force and the file is gone. It fails only if the response cannot be finalized now, the certificate
        files are stuck, or a file operation fails. */
    method FinalizePending(now: int) returns (ok: bool)
      requires Valid() && pc == Idle && pending.Some? && pending.value.response.Some?
      modifies `pending, `disk, `mem, `pair, `failures, `retryAt, `pc, `clock, `log, `worlds, `steps, `faults
      ensures retryAt in {old(retryAt), None}
      ensures faults >= old(faults)
      ensures Valid() && pc == Idle && old(worlds) <= worlds && OnlyFinalized(old(log), log)
      ensures FinalizableAt(tls, old(pending).value, now) && !PairStuck(tls, old(pair)) ==>
                ok || faults > old(faults)
      ensures !FinalizableAt(tls, old(pending).value, now) || PairStuck(tls, old(pair)) ==>
                && !ok && pending == old(pending) && mem == old(mem) && disk == old(disk)
                && log == old(log) && pair == old(pair)
      ensures var p := old(pending).value;
              && (disk == old(disk) || TakesOver(old(mem), disk, p.response.value.update, p.via))
              && (mem == old(mem) || mem == disk)
      ensures !FinalizableAt(tls, old(pending).value, now) ==> faults == old(faults)
      ensures ok ==>
                && pending.None? && failures == 0
                && mem == disk
                && TakesOver(old(mem), disk, old(pending).value.response.value.update, old(pending).value.via)
                && (tls.Tls? ==> pair == CertPair.Installed(NewPair(old(pending).value)))
                && log == old(log) + [Finalized(old(pending).value.id, old(pending).value.via)]
                && Completes(old(pending).value, log, mem, disk)
    {
      hide ConsumptionOk, TransactionsOk, IsRun, PairStuck, NewPair;
      LookAtClock(now);
      ok := CheckResponse(now);
      if !ok {
        return;
      }
      ok := false;
      var bundled: bool := *;
      if pending.value.response.value.issued.Some? && !bundled {
        faults := faults + 1;
        return false;
      }
      ok := InstallPair();
      if !ok {
        return;
      }
      ok := ApplyStored();
      if !ok {
        return;
      }
      ok := ClearFinalized();
    }

    /** The checks of `finalizePendingEnrollment` and of what it calls, in their order. */
    method CheckResponse(now: int) returns (ok: bool)
      requires pending.Some? && pending.value.response.Some?
      ensures ok <==> FinalizableAt(tls, pending.value, now)
      ensures var p, r := pending.value, pending.value.response.value;
              ok ==>
                && r.agentMatches && r.compatible && r.update.credential != ""
                && (tls.Tls? ==> tls.usable && p.key.Some? && r.issued.Some?)
                && (r.issued.Some? ==> r.issued.value.caUsable)
                && (r.issued.Some? && p.key.Some? ==>
                      var c := r.issued.value.certificate;
                      c.Certificate? && c.publicKey == p.key.value && c.named && c.notBefore <= now < c.notAfter)
    {
      var p, r := pending.value, pending.value.response.value;
      if !r.agentMatches || !r.compatible || r.update.credential == "" {
        return false;
      }
      if r.issued.Some? && p.key.Some? {
        var c := r.issued.value.certificate;
        if c == Unreadable || c.publicKey != p.key.value || !c.named || now < c.notBefore || now >= c.notAfter {
          return false;
        }
      }
      if r.issued.Some? && !r.issued.value.caUsable {
        return false;
      }
      ok := tls == NoTls || (r.issued.Some? && p.key.Some? && tls.usable);
    }

    /** `persistEnrollmentCertificate`. */
    method InstallPair() returns (ok: bool)
      requires Valid() && pc == Idle && pending.Some? && pending.value.response.Some?
      requires FinalizableAt(tls, pending.value, clock)
      modifies `pair, `pc, `clock, `log, `worlds, `steps, `faults
      ensures Valid() && clock == old(clock) && log == old(log) && old(worlds) <= worlds && faults >= old(faults)
      ensures ok ==>
                && pc == Placed && !PairStuck(tls, old(pair)) && faults == old(faults)
                && (if tls.Tls? then pair == CertPair.Installed(NewPair(pending.value)) else pair == old(pair))
      ensures !ok ==> pc == Idle && (faults > old(faults) || PairStuck(tls, old(pair)))
      ensures PairStuck(tls, old(pair)) ==> !ok && pair == old(pair) && faults == old(faults)
    {
      hide ConsumptionOk, TransactionsOk, IsRun, NewPair;
      hide CertPair.Outcome, CertPair.TransactionReaches, CertPair.Matches;
      if tls == NoTls {
        Follow(Place);
        return true;
      }
      WellMadePairMatches(tls, pending.value);
      var n := NewPair(pending.value);
      var store := new CertPair.PairStore(pair);
      ok := store.PersistPair(n.cert, n.key, true);
      assert n == CertPair.Pair(n.cert, n.key);
      if ok {
        Follow(Place);
      } else {
        Follow(Persist(n, store.files));
        faults := faults + store.faults;
      }
      pair := store.files;
    }

    /** `ApplyCredentialUpdate` for the stored response: the identity file first, then memory. */
    method ApplyStored() returns (ok: bool)
      requires Valid() && pc == Placed && pending.Some? && pending.value.response.Some?
      modifies `disk, `mem, `failures, `retryAt, `pc, `clock, `log, `worlds, `steps, `faults
      ensures retryAt in {old(retryAt), None}
      ensures Valid() && old(worlds) <= worlds && log == old(log)
      ensures ok ==>
                && pc == Adopted && failures == 0 && faults == old(faults)
                && mem == disk && TakesOver(old(mem), disk, pending.value.response.value.update, pending.value.via)
      ensures !ok ==> pc == Idle && mem == old(mem) && faults > old(faults)
      ensures disk == old(disk) ||
              TakesOver(old(mem), disk, pending.value.response.value.update, pending.value.via)
    {
      hide ConsumptionOk, TransactionsOk, IsRun, Updated, NewPair, FinalizableAt, RecoveredFiles, TokenFor;
      hide CertPair.RecoveryReaches, CertPair.TransactionReaches, PairStuck, PairEmpty, Used;
      UpdateTakesOver(mem, pending.value.response.value.update, pending.value.via);
      hide TakesOver;
      ok := WriteIdentity();
      if !ok {
        return;
      }
      Follow(Adopt);
      mem, failures, retryAt := Updated(mem, pending.value.response.value.update, pending.value.via), 0, None;
    }

    method WriteIdentity() returns (ok: bool)
      requires Valid() && pc == Placed && pending.Some? && pending.value.response.Some?
      modifies `disk, `pc, `clock, `log, `worlds, `steps, `faults
      ensures Valid() && old(worlds) <= worlds && log == old(log)
      ensures ok ==>
                && pc == Saved && faults == old(faults)
                && disk == Updated(mem, pending.value.response.value.update, pending.value.via)
      ensures !ok ==> pc == Idle && faults > old(faults)
      ensures disk in {old(disk), Updated(mem, pending.value.response.value.update, pending.value.via)}
    {
      hide ConsumptionOk, TransactionsOk, IsRun, Updated, NewPair, FinalizableAt, RecoveredFiles, TokenFor;
      hide CertPair.RecoveryReaches, CertPair.TransactionReaches, PairStuck, PairEmpty, Used;
      ok := *;
      var landed: bool := *;
      if ok || landed {
        Follow(Save);
        disk := Updated(mem, pending.value.response.value.update, pending.value.via);
      }
      if !ok {
        Follow(Fail);
      }
      faults := faults + if ok then 0 else 1;
    }

    /** `clearPendingEnrollment` at the end of a finalization. */
    method ClearFinalized() returns (ok: bool)
      requires Valid() && pc == Adopted && pending.Some?
      modifies `pending, `pc, `clock, `log, `worlds, `steps, `faults
      ensures faults == old(faults) + if ok then 0 else 1
      ensures Valid() && pc == Idle && old(worlds) <= worlds && OnlyFinalized(old(log), log)
      ensures ok ==> pending.None? && log == old(log) + [Finalized(old(pending).value.id, old(pending).value.via)]
    {
      hide ConsumptionOk, TransactionsOk, IsRun;
      ok := *;
      var removed: bool := *;
      faults := faults + if ok then 0 else 1;
      if ok || removed {
        Follow(Clear);
        pending := None;
      } else {
        Follow(Fail);
      }
    }

    /** `attemptPendingEnrollment`: sends the request in the file with the token of its method. `reply` is
        `None` if no answer comes; a response is validated at time `later`. */
    method AttemptPending(bootstrap: string, reply: Option<Reply>, later: int) returns (a: Attempt)
      requires Valid() && pc == Idle && pending.Some? && pending.value.response.None?
      requires TokenFor(mem, bootstrap, clock, pending.value.via) != ""
      modifies `pending, `disk, `mem, `pair, `failures, `retryAt, `pc, `clock, `log, `worlds, `steps, `faults
      ensures retryAt in {old(retryAt), None}
      ensures faults >= old(faults)
      ensures Valid() && old(worlds) <= worlds && |log| > |old(log)| && old(log) <= log
      ensures var p := old(pending).value;
              log[|old(log)|] == Sent(p.id, p.csr, p.via, TokenFor(old(mem), bootstrap, old(clock), p.via))
      ensures a in {Unauthorized, IncompatibleStatus} ==>
                && reply.Some? && pc == Got(reply.value) && pending == old(pending) && mem == old(mem)
                && disk == old(disk) && pair == old(pair) && clock == old(clock)
                && log == old(log) + [log[|old(log)|]] && failures == old(failures)
      ensures a == Unauthorized <==> reply == Some(Http401)
      ensures a == IncompatibleStatus <==> reply == Some(HttpIncompatible)
      ensures a in {Recovered, OtherFailure} ==> pc == Idle
      ensures a == Recovered ==>
                && reply.Some? && reply.value.Answer? && pending.None? && failures == 0 && |log| == |old(log)| + 2
                && Completes(WithResponse(old(pending).value, reply.value.response), log, mem, disk)
      ensures UsableReply(tls, old(pair), old(pending).value, reply, later) ==> a == Recovered || faults > old(faults)
      ensures forall k :: |old(log)| < k < |log| ==> log[k].Finalized?
    {
      hide ConsumptionOk, TransactionsOk, IsRun, TokenFor, Usable, Completes;
      Follow(Send(bootstrap));
      if reply.None? {
        Follow(Fail);
        return OtherFailure;
      }
      Follow(Receive(reply.value));
      match reply.value
      case Http401 => return Unauthorized;
      case HttpIncompatible => return IncompatibleStatus;
      case Answer(response) =>
        a := HandleAnswer(response, later);
    }

    /** Stores the response before anything is done with it. */
    method HandleAnswer(response: Response, later: int) returns (a: Attempt)
      requires Valid() && pc == Got(Answer(response)) && pending.Some? && pending.value.response.None?
      modifies `pending, `disk, `mem, `pair, `failures, `retryAt, `pc, `clock, `log, `worlds, `steps, `faults
      ensures retryAt in {old(retryAt), None}
      ensures faults >= old(faults)
      ensures Valid() && old(worlds) <= worlds && OnlyFinalized(old(log), log)
      ensures a in {Recovered, OtherFailure} && pc == Idle
      ensures Usable(tls, old(pair), old(pending).value, response, later) ==> a == Recovered || faults > old(faults)
      ensures a == Recovered ==>
                && pending.None? && failures == 0 && |log| == |old(log)| + 1
                && Completes(WithResponse(old(pending).value, response), log, mem, disk)
    {
      hide ConsumptionOk, TransactionsOk, IsRun, Completes, FinalizableAt;
      NegotiatedFirst(pending.value, response, later);
      if !response.compatible {
        Follow(Fail);
        return OtherFailure;
      }
      var stored: bool := *;
      var landed: bool := *;
      if stored || landed {
        Follow(Store);
        pending := Some(pending.value.(response := Some(response)));
      } else {
        Follow(Fail);
      }
      if !stored {
        faults := faults + 1;
        return OtherFailure;
      }
      var ok := FinalizePending(later);
      a := if ok then Recovered else OtherFailure;
    }

    lemma NegotiatedFirst(p: Pending, r: Response, now: int)
      ensures FinalizableAt(tls, WithResponse(p, r), now) ==> r.compatible
    {
    }

    /** `RecoverIdentity`. A stored response is finalized first, without sending anything; an open request
        is sent again as it is; otherwise the available methods are tried in turn, each under a new
        identity. Success means that the response in `p` was finalized just now and is in force. */
    method RecoverIdentity(
      force: bool, bootstrap: string, now: int, later: int, ids: seq<string>, csr: string, key: Option<int>,
      replies: nat -> Option<Reply>)
      returns (ok: bool, ghost p: Pending)
      requires Valid() && pc == Idle
      requires |ids| == 3 && forall i :: 0 <= i < |ids| ==>
                 !Used(log, ids[i]) && (pending.Some? ==> ids[i] != pending.value.id)
      requires forall i, j :: 0 <= i < j < |ids| ==> ids[i] != ids[j]
      modifies `pending, `disk, `mem, `pair, `failures, `retryAt, `pc, `clock, `log, `worlds, `steps, `faults
      ensures faults >= old(faults)
      ensures Valid() && pc == Idle && old(worlds) <= worlds && old(log) <= log
      ensures ok ==> pending.None? && failures == 0 && |log| > |old(log)| && Completes(p, log, mem, disk)
      ensures ok && old(pending).Some? && old(pending).value.response.Some? ==> p == old(pending).value
      ensures !Due(force, old(retryAt), now) ==>
                !ok && pending == old(pending) && log == old(log) && retryAt == old(retryAt)
      ensures Due(force, old(retryAt), now) ==> retryAt.None? || BackedOff(now, old(failures), failures, retryAt)
      ensures old(pending).Some? && old(pending).value.response.Some? && Due(force, old(retryAt), now) ==>
                && NothingSent(old(log), log)
                && (FinalizableAt(tls, old(pending).value, later) && !PairStuck(tls, old(pair)) ==>
                      ok || faults > old(faults))
      ensures old(pending).Some? && old(pending).value.response.None? && Due(force, old(retryAt), now) ==>
                || Repeated(old(pending).value, TokenFor(old(mem), bootstrap, now, old(pending).value.via),
                            old(log), log)
                || faults > old(faults)
      ensures old(pending).None? && Due(force, old(retryAt), now) ==>
                Opened(Candidates(old(mem), bootstrap, now), ids[0], csr, old(log), log) || faults > old(faults)
      ensures (old(pending).Some? ==> old(pending).value.response.None?) && Due(force, old(retryAt), now) &&
              SomeAnswerWorks(old(pending), old(mem), old(pair), bootstrap, now, ids, csr, key, replies, later) ==>
                ok || faults > old(faults)
      ensures (old(pending).Some? ==> old(pending).value.response.None?) && Due(force, old(retryAt), now) && !ok ==>
                faults > old(faults) || BackedOff(now, old(failures), failures, retryAt)
    {
      hide ConsumptionOk, TransactionsOk, IsRun, Completes, FinalizableAt, Used, TokenFor, Candidates;
      hide SomeAnswerWorks, PairStuck;
      p := NOTHING;
      if !force && retryAt.Some? && now < retryAt.value {
        return false, p;
      }
      retryAt := None;
      LookAtClock(now);
      var readable: bool := *;
      if pending.Some? && !readable {
        faults := faults + 1;
        return false, p;
      }
      if pending.Some? && pending.value.response.Some? {
        p := pending.value;
        ok := FinalizePending(later);
        return;
      }
      ok, p := RequestIdentity(bootstrap, now, later, ids, csr, key, replies);
    }

    /** A request of this recovery gets a usable answer: the open one that is repeated, or, after it was
        refused with a 401 or if there is none, one under a new identity. */
    ghost predicate SomeAnswerWorks(
      open: Option<Pending>, i: Identity, files: CertPair.Disk, bootstrap: string, now: int, ids: seq<string>,
      csr: string, key: Option<int>, replies: nat -> Option<Reply>, later: int)
    {
      var candidates := Candidates(i, bootstrap, now);
      var others := if open.Some? then Without(candidates, open.value.via) else candidates;
      && (open.Some? ==> TokenFor(i, bootstrap, now, open.value.via) != "")
      && (|| (open.Some? && UsableReply(tls, files, open.value, replies(0), later))
          || ((open.Some? ==> replies(0) == Some(Http401)) && |others| <= |ids|
              && exists m :: MethodWorks(tls, files, others, ids, csr, key, replies, later, m)))
    }

    /** The part of `RecoverIdentity` in which requests are sent. */
    method RequestIdentity(
      bootstrap: string, now: int, later: int, ids: seq<string>, csr: string, key: Option<int>,
      replies: nat -> Option<Reply>)
      returns (ok: bool, ghost p: Pending)
      requires Valid() && pc == Idle && clock == now && (pending.Some? ==> pending.value.response.None?)
      requires |ids| == 3 && forall i :: 0 <= i < |ids| ==>
                 !Used(log, ids[i]) && (pending.Some? ==> ids[i] != pending.value.id)
      requires forall i, j :: 0 <= i < j < |ids| ==> ids[i] != ids[j]
      modifies `pending, `disk, `mem, `pair, `failures, `retryAt, `pc, `clock, `log, `worlds, `steps, `faults
      ensures faults >= old(faults)
      ensures Valid() && pc == Idle && old(worlds) <= worlds && old(log) <= log
      ensures ok ==> pending.None? && failures == 0 && |log| > |old(log)| && Completes(p, log, mem, disk)
      ensures old(pending).Some? ==>
                Repeated(old(pending).value, TokenFor(old(mem), bootstrap, now, old(pending).value.via), old(log), log)
      ensures old(pending).None? ==>
                Opened(Candidates(old(mem), bootstrap, now), ids[0], csr, old(log), log) || faults > old(faults)
      ensures SomeAnswerWorks(old(pending), old(mem), old(pair), bootstrap, now, ids, csr, key, replies, later) ==>
                ok || faults > old(faults)
      ensures !ok ==> faults > old(faults) || BackedOff(now, old(failures), failures, retryAt)
      ensures old(retryAt).None? ==> retryAt.None? || BackedOff(now, old(failures), failures, retryAt)
    {
      hide ConsumptionOk, TransactionsOk, IsRun, TokenFor, Candidates, Used, Without, Completes;
      hide Genuine, MethodWorks, UsableReply;
      var before := failures;
      var candidates := AvailableMethods(mem, bootstrap, now);
      CandidatesAreGenuine(mem, bootstrap, now);
      if pending.Some? {
        var via := pending.value.via;
        var done, retry;
        ok, done, retry, p := RepeatPending(bootstrap, now, replies(0), later);
        if done {
          if retry { RecordFailure(now, before); }
          return;
        }
        forall k | 0 <= k < |ids| ensures !Used(log, ids[k]) {
          StillUnused(old(log), log, old(pending).value.id, ids[k]);
        }
        WithoutIsGenuine(mem, bootstrap, now, candidates, via);
        candidates := RemoveMethod(candidates, via);
      }
      var retry;
      ok, retry, p := TryMethods(bootstrap, now, later, candidates, ids, csr, key, replies);
      if retry { RecordFailure(now, before); }
    }

    /** `recordRecoveryFailure`: the next try waits longer with every failure, and some jitter more. */
    method RecordFailure(now: int, before: nat)
      modifies `failures, `retryAt
      ensures BackedOff(now, before, failures, retryAt)
    {
      failures := before + 1;
      var wait := NextWait(failures);
      var jitter: int := *;
      if jitter < 0 || 3 * jitter > wait || jitter > 30 {
        jitter := 0;
      }
      retryAt := Some(now + wait + jitter);
    }

    /** Sends an open request again. `done` is false only after the server refused its token and the
        file is gone; success means that its answer was finalized. */
    method RepeatPending(bootstrap: string, now: int, reply: Option<Reply>, later: int)
      returns (ok: bool, done: bool, retry: bool, ghost p: Pending)
      requires Valid() && pc == Idle && clock == now && pending.Some? && pending.value.response.None?
      modifies `pending, `disk, `mem, `pair, `failures, `retryAt, `pc, `clock, `log, `worlds, `steps, `faults
      ensures retryAt in {old(retryAt), None}
      ensures faults >= old(faults)
      ensures Valid() && pc == Idle && old(worlds) <= worlds && old(log) <= log
      ensures done && !ok ==> retry || faults > old(faults)
      ensures ok ==>
                && done && !retry && pending.None? && failures == 0 && |log| == |old(log)| + 2
                && reply.Some? && reply.value.Answer? && p == WithResponse(old(pending).value, reply.value.response)
                && Completes(p, log, mem, disk)
      ensures !done ==>
                && pending.None? && mem == old(mem) && failures == old(failures) && clock == old(clock)
                && pair == old(pair) && reply == Some(Http401)
      ensures var q := old(pending).value;
              var token := TokenFor(old(mem), bootstrap, now, q.via);
              if token == "" then log == old(log) && done && !ok && retry
              else
                && |log| > |old(log)| && log[|old(log)|] == Sent(q.id, q.csr, q.via, token)
                && (UsableReply(tls, old(pair), q, reply, later) ==> ok || faults > old(faults))
                && (reply == Some(Http401) ==> !done || faults > old(faults))
                && (reply in {Some(Http401), Some(HttpIncompatible)} ==> pending.None? || faults > old(faults))
      ensures reply !in {Some(Http401), Some(HttpIncompatible)} ==>
                forall k :: |old(log)| <= k < |log| ==> !log[k].Dropped?
      ensures !done ==>
                && |log| == |old(log)| + 2 && log[|old(log)|].id == old(pending).value.id
                && log[|old(log)| + 1].id == old(pending).value.id
    {
      hide ConsumptionOk, TransactionsOk, IsRun, TokenFor, Candidates, Usable, Completes;
      p := NOTHING;
      var candidates := AvailableMethods(mem, bootstrap, now);
      var token := TokenOf(candidates, pending.value.via, mem, bootstrap, now);
      if token == "" {
        return false, true, true, p;
      }
      var a := AttemptPending(bootstrap, reply, later);
      match a
      case Recovered =>
        p := WithResponse(old(pending).value, reply.value.response);
        return true, true, false, p;
      case OtherFailure => return false, true, true, p;
      case IncompatibleStatus =>
        var cleared := DropPending();
        return false, true, cleared, p;
      case Unauthorized =>
        var cleared := DropPending();
        return false, !cleared, false, p;
    }

    /** Tries the candidates under new identities until one works or fails for good. */
    method TryMethods(
      bootstrap: string, now: int, later: int, candidates: seq<Candidate>, ids: seq<string>, csr: string,
      key: Option<int>, replies: nat -> Option<Reply>)
      returns (ok: bool, retry: bool, ghost p: Pending)
      requires Valid() && pc == Idle && clock == now && pending.None? && |ids| == 3
      requires Genuine(mem, bootstrap, now, candidates) && |candidates| <= 3
      requires forall i :: 0 <= i < |ids| ==> !Used(log, ids[i])
      requires forall i, j :: 0 <= i < j < |ids| ==> ids[i] != ids[j]
      modifies `pending, `disk, `mem, `pair, `failures, `retryAt, `pc, `clock, `log, `worlds, `steps, `faults
      ensures retryAt in {old(retryAt), None}
      ensures faults >= old(faults)
      ensures Valid() && pc == Idle && old(worlds) <= worlds && old(log) <= log
      ensures !ok ==> retry || faults > old(faults)
      ensures ok ==>
                && !retry && pending.None? && failures == 0 && |log| > |old(log)|
                && p.id in ids && p.csr == csr && Completes(p, log, mem, disk)
      ensures candidates == [] ==> !ok && retry && log == old(log)
      ensures candidates != [] ==>
                || faults > old(faults)
                || (|log| > |old(log)| && log[|old(log)|] == Sent(ids[0], csr, candidates[0].via, candidates[0].token))
      ensures forall m :: MethodWorks(tls, old(pair), candidates, ids, csr, key, replies, later, m) ==>
                ok || faults > old(faults)
    {
      hide ConsumptionOk, TransactionsOk, IsRun, Completes, Used, UsableReply, MethodWorks, TokenFor;
      hide Genuine, Valid, State;
      p := NOTHING;
      RefusedSoFar(pair, candidates, ids, csr, key, replies, later, 0);
      var prepared: bool := *;
      if candidates != [] && !prepared {
        faults := faults + 1;
        return false, false, p;
      }
      for i := 0 to |candidates|
        invariant Valid() && pc == Idle && clock == now && pending.None? && mem == old(mem) && pair == old(pair)
        invariant forall k :: 1 <= k <= i ==> replies(k) == Some(Http401)
        invariant old(worlds) <= worlds && old(log) <= log
        invariant forall k :: i <= k < |ids| ==> !Used(log, ids[k])
        invariant faults >= old(faults) && (i == 0 ==> log == old(log)) && retryAt in {old(retryAt), None}
        invariant i > 0 ==>
                    |log| > |old(log)| && log[|old(log)|] == Sent(ids[0], csr, candidates[0].via, candidates[0].token)
      {
        AvailableMethod(bootstrap, candidates, i);
        var saved := OpenPending(ids[i], csr, candidates[i].via, key);
        if !saved {
          return false, false, p;
        }
        ghost var before := log;
        RefusedSoFar(pair, candidates, ids, csr, key, replies, later, i);
        var done;
        ok, done, retry, p := RepeatPending(bootstrap, now, replies(i + 1), later);
        if done {
          return;
        }
        forall k | i + 1 <= k < |ids| ensures !Used(log, ids[k]) {
          StillUnused(before, log, ids[i], ids[k]);
        }
      }
      RefusedSoFar(pair, candidates, ids, csr, key, replies, later, |candidates|);
      return false, true, p;
    }

    lemma AvailableMethod(bootstrap: string, candidates: seq<Candidate>, i: nat)
      requires Genuine(mem, bootstrap, clock, candidates) && i < |candidates|
      ensures var c := candidates[i];
              && c.via != Rotation && (c.via == Bootstrap ==> !mem.consumed)
              && c.token == TokenFor(mem, bootstrap, clock, c.via) && c.token != ""
    {
    }

    /** If the first `i` requests were refused, a method that works is a later one. */
    lemma RefusedSoFar(
      files: CertPair.Disk, candidates: seq<Candidate>, ids: seq<string>, csr: string, key: Option<int>,
      replies: nat -> Option<Reply>, later: int, i: nat)
      requires i <= |candidates| <= |ids| && forall k :: 1 <= k <= i ==> replies(k) == Some(Http401)
      ensures forall m :: MethodWorks(tls, files, candidates, ids, csr, key, replies, later, m) ==>
                && i <= m && i < |candidates|
                && (var p := Pending(ids[i], csr, candidates[i].via, key, None);
                    replies(i + 1) == Some(Http401) || UsableReply(tls, files, p, replies(i + 1), later))
    {
      hide Usable;
    }

    lemma StillUnused(before: seq<Event>, after: seq<Event>, id: string, other: string)
      requires before <= after && |after| == |before| + 2 && id != other && !Used(before, other)
      requires after[|before|].id == id && after[|before| + 1].id == id
      ensures !Used(after, other)
    {
    }
  }
}
