/** Enrollment as a transition system over the pending-enrollment file, the identity file and memory
    (internal/enrollment/manager.go and pending.go), with a crash allowed between any two steps. */
module EnrollmentProtocol {
  import opened Optional
  import CertPair

  datatype Method = Bootstrap | Renewal | RenewalPrevious | Rotation

  /** What the identity file holds and the manager keeps in memory; times are whole seconds. */
  datatype Identity = Identity(
    credential: string, renewal: string, renewalExp: Option<int>,
    previous: string, previousExp: Option<int>, consumed: bool)

  datatype Update = Update(credential: string, renewal: string, renewalExp: Option<int>)

  /** An issued certificate: its key and serial number, whether it names this agent as a client, and when it
      is valid; `Unreadable` if it does not parse. */
  datatype Certificate =
    | Unreadable
    | Certificate(publicKey: int, serial: int, named: bool, notBefore: int, notAfter: int)

  /** What came with a response: the certificate, and whether the server CA bundle is usable or absent. */
  datatype Issued = Issued(certificate: Certificate, caUsable: bool)

  datatype Response = Response(agentMatches: bool, compatible: bool, update: Update, issued: Option<Issued>)

  /** The pending-enrollment file; `key` is the private key in it, if any, by its public half. */
  datatype Pending = Pending(id: string, csr: string, via: Method, key: Option<int>, response: Option<Response>)

  /** Whether client certificate files are configured, and if so whether both paths are given and differ. */
  datatype Tls = NoTls | Tls(usable: bool)

  /** What the server and the network make of one enrollment request. */
  datatype Reply = Answer(response: Response) | Http401 | HttpIncompatible

  /** What `ApplyCredentialUpdate` makes of an identity. */
  function Updated(i: Identity, u: Update, m: Method): Identity {
    var renewal := if u.renewal == "" then i.renewal else u.renewal;
    var expiry := if u.renewal == "" && u.renewalExp.None? then i.renewalExp else u.renewalExp;
    var rotated := renewal != "" && renewal != i.renewal;
    Identity(
      u.credential, renewal, expiry,
      if rotated then i.renewal else i.previous,
      if rotated then i.renewalExp else i.previousExp,
      i.consumed || m == Bootstrap)
  }

  /** What the server issued is taken over: the credential always; a renewal token with its expiry if one was
      issued, the old one becoming the previous one if it differs; otherwise the token stays, and at most
      its expiry is renewed. A bootstrap enrollment consumes the bootstrap token. */
  predicate TakesOver(i: Identity, i': Identity, u: Update, m: Method) {
    && i'.credential == u.credential
    && (i'.consumed <==> i.consumed || m == Bootstrap)
    && (u.renewal != "" ==> i'.renewal == u.renewal && i'.renewalExp == u.renewalExp)
    && (u.renewal == "" ==>
          && i'.renewal == i.renewal
          && i'.renewalExp == if u.renewalExp.Some? then u.renewalExp else i.renewalExp)
    && (u.renewal != "" && u.renewal != i.renewal ==> i'.previous == i.renewal && i'.previousExp == i.renewalExp)
    && (u.renewal == "" || u.renewal == i.renewal ==> i'.previous == i.previous && i'.previousExp == i.previousExp)
  }

  lemma UpdateTakesOver(i: Identity, u: Update, m: Method)
    ensures TakesOver(i, Updated(i, u, m), u, m)
  {
  }

  /** Applying the same update again, from memory or after a restart, changes nothing. */
  lemma UpdateIsIdempotent(i: Identity, u: Update, m: Method)
    ensures Updated(Updated(i, u, m), u, m) == Updated(i, u, m)
  {
  }

  /** The token that was current stays usable as current or previous one. */
  lemma UpdateKeepsTheChain(i: Identity, u: Update, m: Method)
    ensures i.renewal != "" ==> i.renewal in {Updated(i, u, m).renewal, Updated(i, u, m).previous}
    ensures i.consumed ==> Updated(i, u, m).consumed
  {
  }

  function Unexpired(token: string, exp: Option<int>, now: int): string {
    if exp.Some? && now > exp.value then "" else token
  }

  /** The token of a recovery method, empty if the method is not available. */
  function TokenFor(i: Identity, bootstrap: string, now: int, m: Method): string {
    match m
    case Renewal => Unexpired(i.renewal, i.renewalExp, now)
    case RenewalPrevious =>
      if i.previous == Unexpired(i.renewal, i.renewalExp, now) then "" else Unexpired(i.previous, i.previousExp, now)
    case Bootstrap => if i.consumed then "" else bootstrap
    case Rotation => ""
  }

  // ---------------------------------------------------------------------------------------------
  // What can be finalized.
  // ---------------------------------------------------------------------------------------------

  /** The certificate of the response is validated against the stored key. */
  predicate Checked(p: Pending)
    requires p.response.Some?
  {
    p.key.Some? && p.response.value.issued.Some?
  }

  /** What `finalizePendingEnrollment` demands of a response whatever the time. */
  predicate WellMade(tls: Tls, p: Pending)
    requires p.response.Some?
  {
    var r := p.response.value;
    && r.agentMatches && r.compatible && r.update.credential != ""
    && (r.issued.Some? ==> r.issued.value.caUsable)
    && (Checked(p) ==>
          var c := r.issued.value.certificate;
          c.Certificate? && c.publicKey == p.key.value && c.named)
    && (tls.Tls? ==> Checked(p) && tls.usable)
  }

  predicate FinalizableAt(tls: Tls, p: Pending, now: int)
    requires p.response.Some?
  {
    && WellMade(tls, p)
    && (Checked(p) ==>
          var c := p.response.value.issued.value.certificate;
          c.notBefore <= now < c.notAfter)
  }

  /** The response can still be finalized at some time from `now` on. */
  predicate Acceptable(tls: Tls, p: Pending, now: int)
    requires p.response.Some?
  {
    && WellMade(tls, p)
    && (Checked(p) ==>
          var c := p.response.value.issued.value.certificate;
          c.notBefore < c.notAfter && now < c.notAfter)
  }

  /** The pair a response installs. */
  function NewPair(p: Pending): CertPair.Pair
    requires p.response.Some?
  {
    if Checked(p) && p.response.value.issued.value.certificate.Certificate? then
      var c := p.response.value.issued.value.certificate;
      CertPair.Pair(CertPair.Certificate(c.publicKey, c.serial), CertPair.PrivateKey(p.key.value))
    else CertPair.Pair(CertPair.Blank, CertPair.Blank)
  }

  /** The certificate files are in a state no recovery can do anything with. */
  predicate PairStuck(tls: Tls, pair: CertPair.Disk) {
    tls == Tls(true) && CertPair.Outcome(pair) == CertPair.Stuck
  }

  /** There is no pair to recover, yet both files exist: the process cannot load them and does not start. */
  predicate PairEmpty(tls: Tls, pair: CertPair.Disk) {
    && tls == Tls(true) && CertPair.Outcome(pair) == CertPair.Untouched
    && CertPair.CertCurrent in pair && CertPair.KeyCurrent in pair
  }

  /** What the recovery at the start of the process makes of the certificate files. */
  function RecoveredFiles(tls: Tls, pair: CertPair.Disk): CertPair.Disk {
    if tls == Tls(true) && CertPair.Outcome(pair).Installs? then CertPair.Installed(CertPair.Outcome(pair).pair)
    else pair
  }

  lemma WellMadePairMatches(tls: Tls, p: Pending)
    requires p.response.Some? && WellMade(tls, p) && tls.Tls?
    ensures tls == Tls(true) && CertPair.Matches(NewPair(p))
  {
  }

  function Later(x: int, y: int): int { if x < y then y else x }

  /** The first time from `now` on at which the response can be finalized. */
  function FirstChance(p: Pending, now: int): int
    requires p.response.Some?
  {
    if Checked(p) && p.response.value.issued.value.certificate.Certificate?
    then Later(now, p.response.value.issued.value.certificate.notBefore) else now
  }

  lemma AcceptableIffSomeday(tls: Tls, p: Pending, now: int)
    requires p.response.Some?
    ensures Acceptable(tls, p, now) <==> exists t :: now <= t && FinalizableAt(tls, p, t)
    ensures Acceptable(tls, p, now) ==> FinalizableAt(tls, p, FirstChance(p, now)) && now <= FirstChance(p, now)
  {
    if Acceptable(tls, p, now) {
      assert FinalizableAt(tls, p, FirstChance(p, now));
    }
  }

  // ---------------------------------------------------------------------------------------------
  // Steps.
  // ---------------------------------------------------------------------------------------------

  datatype Pc = Idle | Awaiting | Got(reply: Reply) | Placed | Saved | Adopted | Down

  datatype Event =
    | Sent(id: string, csr: string, via: Method, token: string)
    | Dropped(id: string, cause: Reply)
    | Finalized(id: string, via: Method)

  /** `tls` is configuration and does not change; `pair` are the client certificate files. */
  datatype World = World(
    tls: Tls, pending: Option<Pending>, disk: Identity, mem: Identity, pair: CertPair.Disk,
    pc: Pc, clock: int, log: seq<Event>)

  datatype Step =
    | Open(id: string, csr: string, via: Method, key: Option<int>)
    | Send(bootstrap: string)
    | Receive(reply: Reply)
    | Store
    | Drop
    | Place
    | Persist(n: CertPair.Pair, left: CertPair.Disk)
    | Recover(left: CertPair.Disk)
    | Save
    | Adopt
    | Clear
    | Fail
    | RotateOnDisk(update: Update)
    | Rotate(update: Update)
    | Tick(now: int)
    | Crash
    | Boot

  predicate Closes(e: Event) { !e.Sent? }

  predicate Answered(w: World) {
    w.pending.Some? && w.pending.value.response.Some?
  }

  predicate Used(log: seq<Event>, id: string) {
    exists k :: 0 <= k < |log| && log[k].id == id
  }

  ghost predicate Enabled(w: World, s: Step) {
    match s
    // A new transaction has a random identity and a method whose token is available.
    case Open(id, _, m, _) =>
      w.pc == Idle && w.pending.None? && !Used(w.log, id) && m != Rotation && (m == Bootstrap ==> !w.mem.consumed)
    case Send(bootstrap) =>
      && w.pc == Idle && w.pending.Some? && w.pending.value.response.None?
      && TokenFor(w.mem, bootstrap, w.clock, w.pending.value.via) != ""
    case Receive(_) => w.pc == Awaiting
    case Store => w.pc.Got? && w.pc.reply.Answer? && w.pc.reply.response.compatible && w.pending.Some?
    case Drop => w.pc.Got? && !w.pc.reply.Answer? && w.pending.Some?
    // The response passes the checks and its certificate, where one is configured, is installed.
    case Place =>
      w.pc == Idle && Answered(w) && FinalizableAt(w.tls, w.pending.value, w.clock) && !PairStuck(w.tls, w.pair)
    // An installation, by enrollment or by certificate renewal, that fails or is interrupted.
    case Persist(n, left) =>
      && w.pc != Down && w.tls == Tls(true) && CertPair.Matches(n)
      && CertPair.TransactionReaches(w.pair, n, left)
    case Recover(left) => w.tls == Tls(true) && CertPair.RecoveryReaches(w.pair, left)
    case Save => w.pc == Placed && Answered(w)
    case Adopt => w.pc == Saved && Answered(w)
    case Clear => w.pc == Adopted && w.pending.Some?
    case Fail => w.pc !in {Idle, Down}
    case RotateOnDisk(_) => w.pc !in {Saved, Down}
    case Rotate(_) => w.pc !in {Saved, Down}
    case Tick(_) => true
    case Crash => true
    case Boot => w.pc == Down && !PairStuck(w.tls, w.pair) && !PairEmpty(w.tls, w.pair)
  }

  function Apply(w: World, s: Step): World
    requires Enabled(w, s)
  {
    match s
    case Open(id, csr, m, key) => w.(pending := Some(Pending(id, csr, m, key, None)))
    case Send(bootstrap) =>
      var p := w.pending.value;
      w.(pc := Awaiting, log := w.log + [Sent(p.id, p.csr, p.via, TokenFor(w.mem, bootstrap, w.clock, p.via))])
    case Receive(reply) => w.(pc := Got(reply))
    case Store => w.(pending := Some(w.pending.value.(response := Some(w.pc.reply.response))), pc := Idle)
    case Drop => w.(pending := None, pc := Idle, log := w.log + [Dropped(w.pending.value.id, w.pc.reply)])
    case Place =>
      w.(pc := Placed, pair := if w.tls.Tls? then CertPair.Installed(NewPair(w.pending.value)) else w.pair)
    case Persist(_, left) => w.(pair := left)
    case Recover(left) => w.(pair := left)
    case Save => w.(disk := Updated(w.mem, w.pending.value.response.value.update, w.pending.value.via), pc := Saved)
    case Adopt => w.(mem := Updated(w.mem, w.pending.value.response.value.update, w.pending.value.via), pc := Adopted)
    case Clear => w.(pending := None, pc := Idle, log := w.log + [Finalized(w.pending.value.id, w.pending.value.via)])
    case Fail => w.(pc := Idle)
    case RotateOnDisk(u) => w.(disk := Updated(w.mem, u, Rotation))
    case Rotate(u) => w.(disk := Updated(w.mem, u, Rotation), mem := Updated(w.mem, u, Rotation))
    case Tick(now) => w.(clock := now)
    case Crash => w.(pc := Down)
    case Boot => w.(pc := Idle, mem := w.disk, pair := RecoveredFiles(w.tls, w.pair))
  }

  ghost predicate CanFollow(w: World, s: Step, w': World) {
    Enabled(w, s) && w' == Apply(w, s)
  }

  predicate Started(w: World) {
    w.pc == Down && w.pending.None? && w.log == []
  }

  /** The steps lead from world to world. */
  ghost predicate IsPath(worlds: seq<World>, steps: seq<Step>) {
    && |worlds| == |steps| + 1
    && forall i :: 0 <= i < |steps| ==> Enabled(worlds[i], steps[i]) && worlds[i + 1] == Apply(worlds[i], steps[i])
  }

  ghost predicate IsRun(worlds: seq<World>, steps: seq<Step>) {
    IsPath(worlds, steps) && Started(worlds[0])
  }

  /** A path can be extended by any steps that follow one another. */
  lemma {:induction false} FollowSteps(worlds: seq<World>, steps: seq<Step>, more: seq<Step>, reached: seq<World>)
    requires IsPath(worlds, steps) && |more| == |reached| > 0
    requires CanFollow(worlds[|worlds| - 1], more[0], reached[0])
    requires forall i :: 0 < i < |more| ==> CanFollow(reached[i - 1], more[i], reached[i])
    ensures IsPath(worlds + reached, steps + more)
  {
    hide Enabled, Apply;
    var ws, ss := worlds + reached, steps + more;
    forall i | 0 <= i < |ss| ensures Enabled(ws[i], ss[i]) && ws[i + 1] == Apply(ws[i], ss[i]) {
      if i >= |steps| {
        var k := i - |steps|;
        assert ss[i] == more[k] && ws[i + 1] == reached[k];
        assert CanFollow(ws[i], ss[i], ws[i + 1]);
      }
    }
  }

  // ---------------------------------------------------------------------------------------------
  // Invariants.
  // ---------------------------------------------------------------------------------------------

  /** A bootstrap enrollment was completed. */
  predicate Spent(log: seq<Event>) {
    exists k :: 0 <= k < |log| && log[k].Finalized? && log[k].via == Bootstrap
  }

  /** Bootstrap consumption is never forgotten. */
  predicate ConsumptionOk(w: World) {
    && (w.pc != Down && w.mem.consumed ==> w.disk.consumed)
    && (w.pc == Saved && Answered(w) && w.pending.value.via == Bootstrap ==> w.disk.consumed)
    && (w.pc == Saved ==>
          Answered(w) && w.disk == Updated(w.mem, w.pending.value.response.value.update, w.pending.value.via))
    && (w.pc == Adopted ==> Answered(w) && (w.pending.value.via == Bootstrap ==> w.mem.consumed))
    && (Spent(w.log) ==>
          && w.disk.consumed && (w.pc != Down ==> w.mem.consumed)
          && (w.pending.Some? ==> w.pending.value.via != Bootstrap))
  }

  /** The last request, as long as its transaction is open. */
  function OpenOf(log: seq<Event>): Option<Event> {
    if log == [] || Closes(log[|log| - 1]) then None else Some(log[|log| - 1])
  }

  predicate SameRequest(a: Event, b: Event) {
    a.Sent? && b.Sent? && a.id == b.id && a.csr == b.csr && a.via == b.via
  }

  /** Requests in a row belong to the same transaction. */
  predicate Repeats(log: seq<Event>) {
    forall k :: 0 < k < |log| && log[k].Sent? && log[k - 1].Sent? ==> SameRequest(log[k - 1], log[k])
  }

  /** A closed transaction stays closed. */
  predicate ClosedForGood(log: seq<Event>) {
    forall i, j :: 0 <= i < j < |log| && Closes(log[i]) ==> log[j].id != log[i].id
  }

  predicate TransactionsOk(w: World) {
    && Repeats(w.log) && ClosedForGood(w.log)
    && (OpenOf(w.log).Some? ==>
          && w.pending.Some?
          && SameRequest(OpenOf(w.log).value, Sent(w.pending.value.id, w.pending.value.csr, w.pending.value.via, "")))
    && (w.pending.Some? ==> forall i :: 0 <= i < |w.log| && Closes(w.log[i]) ==> w.log[i].id != w.pending.value.id)
    && (w.pc == Awaiting || w.pc.Got? ==>
          w.pending.Some? && w.pending.value.response.None? && OpenOf(w.log).Some?)
  }

  lemma {:induction false} StepKeepsConsumption(w: World, s: Step)
    requires ConsumptionOk(w) && Enabled(w, s)
    ensures ConsumptionOk(Apply(w, s))
  {
    var w' := Apply(w, s);
    if |w'.log| > |w.log| {
      assert w'.log[..|w.log|] == w.log;
      if Spent(w'.log) && !s.Clear? {
        var k :| 0 <= k < |w'.log| && w'.log[k].Finalized? && w'.log[k].via == Bootstrap;
        assert w.log[k] == w'.log[k];
      }
    }
  }

  lemma {:induction false} StepKeepsTransactions(w: World, s: Step)
    requires TransactionsOk(w) && Enabled(w, s)
    ensures TransactionsOk(Apply(w, s))
  {
    var w' := Apply(w, s);
    if s.Open? {
      forall i | 0 <= i < |w.log| && Closes(w.log[i]) ensures w.log[i].id != s.id {
        assert !Used(w.log, s.id);
      }
    }
  }

  lemma {:induction false} RunsAreConsistent(worlds: seq<World>, steps: seq<Step>, i: nat)
    requires IsRun(worlds, steps) && i < |worlds|
    ensures ConsumptionOk(worlds[i]) && TransactionsOk(worlds[i])
  {
    if i > 0 {
      RunsAreConsistent(worlds, steps, i - 1);
      StepKeepsConsumption(worlds[i - 1], steps[i - 1]);
      StepKeepsTransactions(worlds[i - 1], steps[i - 1]);
    }
  }

  // ---------------------------------------------------------------------------------------------
  // Theorems over runs.
  // ---------------------------------------------------------------------------------------------

  lemma {:induction false} RequestsInARow(log: seq<Event>, i: nat, j: nat)
    requires Repeats(log) && i <= j < |log|
    requires forall k :: i <= k <= j ==> log[k].Sent?
    ensures SameRequest(log[i], log[j])
    decreases j
  {
    if i < j {
      RequestsInARow(log, i, j - 1);
      assert SameRequest(log[j - 1], log[j]);
    }
  }

  /** In every run, two requests between which no transaction was completed or dropped carry the same
      enrollment identity and signing request, whatever crashed or failed in between. */
  lemma {:induction false} PendingEnrollmentIsReplayed(worlds: seq<World>, steps: seq<Step>, n: nat, i: nat, j: nat)
    requires IsRun(worlds, steps) && n < |worlds| && i <= j < |worlds[n].log|
    requires forall k :: i <= k <= j ==> !Closes(worlds[n].log[k])
    ensures SameRequest(worlds[n].log[i], worlds[n].log[j])
  {
    RunsAreConsistent(worlds, steps, n);
    RequestsInARow(worlds[n].log, i, j);
  }

  /** In every run, an identity is not used again once its transaction was completed or dropped. */
  lemma {:induction false} ClosedEnrollmentsStayClosed(worlds: seq<World>, steps: seq<Step>, n: nat, i: nat, j: nat)
    requires IsRun(worlds, steps) && n < |worlds| && i < j < |worlds[n].log| && Closes(worlds[n].log[i])
    ensures worlds[n].log[j].id != worlds[n].log[i].id
  {
    RunsAreConsistent(worlds, steps, n);
  }

  lemma LogGrowsByOne(w: World, s: Step)
    requires Enabled(w, s)
    ensures w.log <= Apply(w, s).log && |Apply(w, s).log| <= |w.log| + 1
  {
  }

  lemma {:induction false} LogGrows(worlds: seq<World>, steps: seq<Step>, i: nat, n: nat)
    requires IsRun(worlds, steps) && i <= n < |worlds|
    ensures worlds[i].log <= worlds[n].log
  {
    hide Enabled, Apply;
    if i < n {
      LogGrows(worlds, steps, i, n - 1);
      LogGrowsByOne(worlds[n - 1], steps[n - 1]);
    }
  }

  lemma {:induction false} WhenLogged(worlds: seq<World>, steps: seq<Step>, n: nat, j: nat) returns (m: nat)
    requires IsRun(worlds, steps) && n < |worlds| && j < |worlds[n].log|
    ensures m < n && |worlds[m].log| == j && worlds[m + 1].log == worlds[m].log + [worlds[n].log[j]]
    decreases n
  {
    hide Enabled, Apply;
    if n == 0 {
      assert false;
    } else {
      LogGrowsByOne(worlds[n - 1], steps[n - 1]);
      if j < |worlds[n - 1].log| {
        m := WhenLogged(worlds, steps, n - 1, j);
      } else {
        m := n - 1;
      }
    }
  }

  /** In every run, no bootstrap token is sent any more once an enrollment with one was completed. */
  lemma {:induction false} BootstrapIsUsedOnce(worlds: seq<World>, steps: seq<Step>, n: nat, i: nat, j: nat)
    requires IsRun(worlds, steps) && n < |worlds| && i < j < |worlds[n].log|
    requires worlds[n].log[i].Finalized? && worlds[n].log[i].via == Bootstrap && worlds[n].log[j].Sent?
    ensures worlds[n].log[j].via != Bootstrap
  {
    var m := WhenLogged(worlds, steps, n, j);
    LogGrows(worlds, steps, m, n);
    RunsAreConsistent(worlds, steps, m);
    assert worlds[m].log[i] == worlds[n].log[i];
    assert Spent(worlds[m].log);
    assert worlds[m + 1].log[j] == worlds[n].log[j];
  }

  /** In every run, a request is on disk, unanswered, at the moment it is sent. */
  lemma {:induction false} RequestsAreWrittenAhead(
    worlds: seq<World>, steps: seq<Step>, n: nat, j: nat)
    returns (m: nat)
    requires IsRun(worlds, steps) && n < |worlds| && j < |worlds[n].log| && worlds[n].log[j].Sent?
    ensures m < n && |worlds[m].log| == j
    ensures var e := worlds[n].log[j];
            && worlds[m].pending.Some?
            && worlds[m].pending.value == Pending(e.id, e.csr, e.via, worlds[m].pending.value.key, None)
            && e.token != ""
  {
    m := WhenLogged(worlds, steps, n, j);
    assert worlds[m + 1].log[j] == worlds[n].log[j];
  }

  // ---------------------------------------------------------------------------------------------
  // What ends a transaction.
  // ---------------------------------------------------------------------------------------------

  /** A reply at hand was received since the last event. */
  lemma {:induction false} ReceivedBefore(worlds: seq<World>, steps: seq<Step>, n: nat) returns (m: nat)
    requires IsRun(worlds, steps) && n < |worlds| && worlds[n].pc.Got?
    ensures m < n && steps[m] == Receive(worlds[n].pc.reply) && worlds[m].log == worlds[n].log
    decreases n
  {
    if n == 0 {
      assert false;
    } else if steps[n - 1].Receive? {
      m := n - 1;
    } else {
      m := ReceivedBefore(worlds, steps, n - 1);
    }
  }

  /** In every run, a transaction is dropped only after the server answered its last request with a 401 or
      an HTTP-reported incompatibility. */
  lemma {:induction false} DroppedOnlyAfterRefusal(
    worlds: seq<World>, steps: seq<Step>, n: nat, j: nat)
    returns (m: nat)
    requires IsRun(worlds, steps) && n < |worlds| && j < |worlds[n].log| && worlds[n].log[j].Dropped?
    ensures worlds[n].log[j].cause in {Http401, HttpIncompatible}
    ensures m < n && steps[m] == Receive(worlds[n].log[j].cause) && worlds[m].log == worlds[n].log[..j]
    ensures j > 0 && worlds[n].log[j - 1].Sent? && worlds[n].log[j - 1].id == worlds[n].log[j].id
  {
    var k := WhenLogged(worlds, steps, n, j);
    assert worlds[k + 1].log[j] == worlds[n].log[j];
    RunsAreConsistent(worlds, steps, k);
    LogGrows(worlds, steps, k, n);
    assert worlds[k].log == worlds[n].log[..j];
    m := ReceivedBefore(worlds, steps, k);
  }

  // ---------------------------------------------------------------------------------------------
  // Responses that block enrollment.
  // ---------------------------------------------------------------------------------------------

  predicate ClockHolds(worlds: seq<World>, from: int) {
    forall i :: 0 <= i < |worlds| ==> from <= worlds[i].clock
  }

  lemma {:induction false} UnacceptableResponseBlocks(worlds: seq<World>, steps: seq<Step>, n: nat)
    requires IsPath(worlds, steps) && n < |worlds| && ClockHolds(worlds, worlds[0].clock)
    requires Answered(worlds[0]) && worlds[0].pc in {Idle, Down}
    requires !Acceptable(worlds[0].tls, worlds[0].pending.value, worlds[0].clock)
    ensures worlds[n].pending == worlds[0].pending && worlds[n].log == worlds[0].log
    ensures worlds[n].pc in {Idle, Down} && worlds[n].tls == worlds[0].tls
  {
    if n > 0 {
      UnacceptableResponseBlocks(worlds, steps, n - 1);
      AcceptableIffSomeday(worlds[0].tls, worlds[0].pending.value, worlds[0].clock);
    }
  }

  /** The certificate files keep a stored response from ever being finalized: no recovery can do anything
      with them, or they are empty and the process is not running. */
  predicate PairBlocks(w: World) {
    PairStuck(w.tls, w.pair) || (w.pc == Down && PairEmpty(w.tls, w.pair))
  }

  lemma {:induction false} BlockingPairStays(w: World, s: Step)
    requires PairBlocks(w) && Answered(w) && w.pc in {Idle, Down} && Enabled(w, s)
    ensures var w' := Apply(w, s);
            && PairBlocks(w') && w'.pc in {Idle, Down} && w'.pending == w.pending && w'.log == w.log
  {
    hide CertPair.Outcome, CertPair.Shaped;
  }

  lemma {:induction false} StuckPairBlocks(worlds: seq<World>, steps: seq<Step>, n: nat)
    requires IsPath(worlds, steps) && n < |worlds|
    requires Answered(worlds[0]) && worlds[0].pc in {Idle, Down} && PairBlocks(worlds[0])
    ensures worlds[n].pending == worlds[0].pending && worlds[n].log == worlds[0].log
    ensures worlds[n].pc in {Idle, Down} && PairBlocks(worlds[n])
  {
    hide Enabled, Apply, PairBlocks;
    if n > 0 {
      StuckPairBlocks(worlds, steps, n - 1);
      BlockingPairStays(worlds[n - 1], steps[n - 1]);
    }
  }

  /** A stored response is stuck for good exactly if it is not acceptable or the certificate files are in
      the way: no way on, with a clock that does not go back, then ever changes the pending file or sends
      anything. */
  lemma {:induction false} BlockedIffUnacceptableOrStuck(w: World)
    requires Answered(w) && w.pc in {Idle, Down}
    ensures Acceptable(w.tls, w.pending.value, w.clock) && !PairBlocks(w) <==>
            exists worlds: seq<World>, steps: seq<Step> :: LeavesBehind(w, worlds, steps)
  {
    hide Acceptable, PairBlocks, IsPath;
    if Acceptable(w.tls, w.pending.value, w.clock) && !PairBlocks(w) {
      var worlds, steps := WayOut(w);
    }
    forall worlds: seq<World>, steps: seq<Step> | LeavesBehind(w, worlds, steps)
      ensures Acceptable(w.tls, w.pending.value, w.clock) && !PairBlocks(w)
    {
      PathLengths(worlds, steps);
      if !Acceptable(w.tls, w.pending.value, w.clock) {
        UnacceptableResponseBlocks(worlds, steps, |worlds| - 1);
      } else if PairBlocks(w) {
        StuckPairBlocks(worlds, steps, |worlds| - 1);
      }
    }
  }

  lemma PathLengths(worlds: seq<World>, steps: seq<Step>)
    requires IsPath(worlds, steps)
    ensures |worlds| == |steps| + 1
  {
  }

  /** A way on from `w` after which its pending file is gone or something was sent. */
  ghost predicate LeavesBehind(w: World, worlds: seq<World>, steps: seq<Step>) {
    && IsPath(worlds, steps) && worlds[0] == w && ClockHolds(worlds, w.clock)
    && (worlds[|worlds| - 1].pending != w.pending || worlds[|worlds| - 1].log != w.log)
  }

  /** Otherwise, finalizing the response at the first chance is a way on. */
  lemma {:induction false} WayOut(w: World) returns (worlds: seq<World>, steps: seq<Step>)
    requires Answered(w) && w.pc in {Idle, Down} && Acceptable(w.tls, w.pending.value, w.clock) && !PairBlocks(w)
    ensures LeavesBehind(w, worlds, steps) && worlds[|worlds| - 1].pending.None?
  {
    AcceptableIffSomeday(w.tls, w.pending.value, w.clock);
    var t := FirstChance(w.pending.value, w.clock);
    var w1, w2, w3, w4, w5, w6, first := FinalizeAt(w, t);
    hide *;
    var reached := [w1, w2, w3, w4, w5, w6];
    steps := [first, Tick(t), Place, Save, Adopt, Clear];
    JustOneWorld(w);
    FollowSteps([w], [], steps, reached);
    worlds := [w] + reached;
    assert [] + steps == steps;
    Cleared(w, worlds, steps);
  }

  lemma Cleared(w: World, worlds: seq<World>, steps: seq<Step>)
    requires IsPath(worlds, steps) && worlds[0] == w && (forall i :: 0 <= i < |worlds| ==> w.clock <= worlds[i].clock)
    requires w.pending.Some? && worlds[|worlds| - 1].pending.None?
    ensures LeavesBehind(w, worlds, steps)
  {
  }

  lemma JustOneWorld(w: World)
    ensures IsPath([w], [])
  {
  }

  lemma {:induction false} FinalizeAt(w: World, t: int)
    returns (w1: World, w2: World, w3: World, w4: World, w5: World, w6: World, first: Step)
    requires Answered(w) && w.pc in {Idle, Down} && FinalizableAt(w.tls, w.pending.value, t) && w.clock <= t
    requires !PairBlocks(w)
    ensures CanFollow(w, first, w1) && CanFollow(w1, Tick(t), w2) && CanFollow(w2, Place, w3)
    ensures CanFollow(w3, Save, w4) && CanFollow(w4, Adopt, w5) && CanFollow(w5, Clear, w6) && w6.pending.None?
    ensures w.clock == w1.clock && w2.clock == w3.clock == w4.clock == w5.clock == w6.clock == t
  {
    hide PairStuck, PairEmpty, FinalizableAt, RecoveredFiles;
    first := if w.pc == Down then Boot else Tick(w.clock);
    RecoveredIsNotStuck(w.tls, w.pair);
    w1 := Apply(w, first);
    w2 := Apply(w1, Tick(t));
    w3, w4, w5, w6 := FinalizeNow(w2);
  }

  lemma {:induction false} FinalizeNow(w: World) returns (w1: World, w2: World, w3: World, w4: World)
    requires Enabled(w, Place)
    ensures CanFollow(w, Place, w1) && CanFollow(w1, Save, w2) && CanFollow(w2, Adopt, w3) && CanFollow(w3, Clear, w4)
    ensures w4.pending.None? && w.clock == w1.clock == w2.clock == w3.clock == w4.clock
  {
    hide PairStuck, FinalizableAt, NewPair, Updated;
    w1 := Apply(w, Place);
    w2 := Apply(w1, Save);
    w3 := Apply(w2, Adopt);
    w4 := Apply(w3, Clear);
  }

  lemma InstalledPairLoads(p: CertPair.Pair)
    requires CertPair.Matches(p)
    ensures CertPair.Outcome(CertPair.Installed(p)) == CertPair.Installs(p)
  {
  }

  lemma RecoveredIsNotStuck(tls: Tls, pair: CertPair.Disk)
    requires !PairStuck(tls, pair)
    ensures !PairStuck(tls, RecoveredFiles(tls, pair))
  {
    hide CertPair.Outcome;
    CertPair.OutcomeMatches(pair);
    if CertPair.Outcome(pair).Installs? {
      InstalledPairLoads(CertPair.Outcome(pair).pair);
    }
  }

  /** A pair that is installed, or will be once recovered, is never lost again: only a first installation
      that is interrupted can leave the certificate files stuck. */
  lemma {:induction false} InstalledPairNeverBlocks(worlds: seq<World>, steps: seq<Step>, n: nat)
    requires IsPath(worlds, steps) && n < |worlds| && CertPair.Outcome(worlds[0].pair).Installs?
    ensures CertPair.Outcome(worlds[n].pair).Installs? && !PairBlocks(worlds[n])
  {
    hide Enabled, Apply, CertPair.Outcome;
    if n > 0 {
      InstalledPairNeverBlocks(worlds, steps, n - 1);
      InstalledPairStays(worlds[n - 1], steps[n - 1]);
    }
  }

  lemma {:induction false} InstalledPairStays(w: World, s: Step)
    requires Enabled(w, s) && CertPair.Outcome(w.pair).Installs?
    ensures CertPair.Outcome(Apply(w, s).pair).Installs?
  {
    hide CertPair.Outcome, CertPair.Shaped, CertPair.RecoveryReaches;
    CertPair.OutcomeMatches(w.pair);
    match s
    case Place =>
      if w.tls.Tls? {
        WellMadePairMatches(w.tls, w.pending.value);
        InstalledPairLoads(NewPair(w.pending.value));
      }
    case Persist(n, left) => CertPair.TransactionKeepsPair(w.pair, n, left);
    case Recover(left) => CertPair.RecoveryKeepsPair(w.pair, left);
    case Boot => InstalledPairLoads(CertPair.Outcome(w.pair).pair);
    case _ =>
  }

  /** In every run, a credential is saved only after the certificate of its own response was installed. */
  lemma {:induction false} CertificateComesFirst(worlds: seq<World>, steps: seq<Step>, n: nat) returns (m: nat)
    requires IsRun(worlds, steps) && n < |worlds| && worlds[n].pc == Placed
    ensures m < n && steps[m] == Place && Answered(worlds[n]) && worlds[m].pending == worlds[n].pending
    ensures FinalizableAt(worlds[m].tls, worlds[n].pending.value, worlds[m].clock)
    ensures worlds[m].tls.Tls? ==> worlds[m + 1].pair == CertPair.Installed(NewPair(worlds[n].pending.value))
    decreases n
  {
    if n == 0 {
      assert false;
    } else if steps[n - 1].Place? {
      m := n - 1;
    } else {
      m := CertificateComesFirst(worlds, steps, n - 1);
    }
  }

  const PROVISIONED := Identity("", "", None, "", None, false)

  /** A run that ends with the given response to a bootstrap enrollment stored. */
  lemma {:induction false} StoredResponse(
    tls: Tls, key: Option<int>, r: Response)
    returns (worlds: seq<World>, steps: seq<Step>)
    requires r.compatible
    ensures IsRun(worlds, steps) && |worlds| == 6
    ensures worlds[5] == World(tls, Some(Pending("e", "csr", Bootstrap, key, Some(r))), PROVISIONED, PROVISIONED, map[],
                               Idle, 0, [Sent("e", "csr", Bootstrap, "token")])
  {
    var w0, w1, w2, w3, w4, w5 := StoringSteps(tls, key, r);
    hide Enabled, Apply;
    hide CanFollow;
    assert IsPath([w0], []);
    steps := [Boot, Open("e", "csr", Bootstrap, key), Send("token"), Receive(Answer(r)), Store];
    FollowSteps([w0], [], steps, [w1, w2, w3, w4, w5]);
    worlds := [w0] + [w1, w2, w3, w4, w5];
    assert [] + steps == steps;
  }

  lemma {:induction false} StoringSteps(tls: Tls, key: Option<int>, r: Response)
    returns (w0: World, w1: World, w2: World, w3: World, w4: World, w5: World)
    requires r.compatible
    ensures Started(w0) && CanFollow(w0, Boot, w1) && CanFollow(w1, Open("e", "csr", Bootstrap, key), w2)
    ensures CanFollow(w2, Send("token"), w3) && CanFollow(w3, Receive(Answer(r)), w4) && CanFollow(w4, Store, w5)
    ensures w5 == World(tls, Some(Pending("e", "csr", Bootstrap, key, Some(r))), PROVISIONED, PROVISIONED, map[],
                        Idle, 0, [Sent("e", "csr", Bootstrap, "token")])
  {
    NothingInstalled(tls);
    hide PairStuck, PairEmpty, RecoveredFiles, FinalizableAt, NewPair, Updated;
    w0 := World(tls, None, PROVISIONED, PROVISIONED, map[], Down, 0, []);
    w1 := w0.(pc := Idle);
    w2 := w1.(pending := Some(Pending("e", "csr", Bootstrap, key, None)));
    w3 := w2.(pc := Awaiting, log := [Sent("e", "csr", Bootstrap, "token")]);
    w4 := w3.(pc := Got(Answer(r)));
    w5 := w4.(pending := Some(Pending("e", "csr", Bootstrap, key, Some(r))), pc := Idle);
  }

  lemma NothingInstalled(tls: Tls)
    ensures !PairStuck(tls, map[]) && !PairEmpty(tls, map[]) && RecoveredFiles(tls, map[]) == map[]
  {
    CertPair.OutcomeByCases(map[]);
  }

  /** Each of these responses names the right agent and a credential, is stored, and blocks enrollment for
      good: one without a certificate where one is configured, one whose certificate does not fit the
      stored key, one with an unusable CA bundle, and one whose certificate has expired. */
  lemma {:induction false} StoredAndStuck(r: Response) returns (worlds: seq<World>, steps: seq<Step>)
    requires var u := Update("credential", "", None);
             r in {
               Response(true, true, u, None),
               Response(true, true, u, Some(Issued(Certificate(2, 1, true, 0, 100), true))),
               Response(true, true, u, Some(Issued(Certificate(1, 1, true, 0, 100), false))),
               Response(true, true, u, Some(Issued(Certificate(1, 1, true, -100, 0), true)))}
    ensures IsRun(worlds, steps) && |worlds| == 6
    ensures Answered(worlds[5]) && worlds[5].pending.value.response.value == r && worlds[5].pc == Idle
    ensures !Acceptable(worlds[5].tls, worlds[5].pending.value, worlds[5].clock)
  {
    worlds, steps := StoredResponse(Tls(true), Some(1), r);
  }

  /** A good response can be stuck, too: a first installation interrupted when only the new key is on disk
      leaves certificate files that no recovery accepts. */
  lemma {:induction false} InterruptedInstallationBlocks() returns (worlds: seq<World>, steps: seq<Step>)
    ensures IsRun(worlds, steps) && |worlds| == 8 && steps[6] == Crash
    ensures Answered(worlds[7]) && worlds[7].pc == Down
    ensures worlds[7].pair == map[CertPair.KeyNext := CertPair.PrivateKey(1)]
    ensures Acceptable(worlds[7].tls, worlds[7].pending.value, worlds[7].clock) && PairBlocks(worlds[7])
  {
    var r := Response(true, true, Update("credential", "", None), Some(Issued(Certificate(1, 1, true, 0, 100), true)));
    worlds, steps := StoredResponse(Tls(true), Some(1), r);
    var n, left := HalfInstalled();
    var w6, w7 := InterruptedSteps(worlds[5], n, left);
    hide Enabled, Apply, CanFollow, IsPath, CertPair.Outcome;
    FollowSteps(worlds, steps, [Persist(n, left), Crash], [w6, w7]);
    worlds, steps := worlds + [w6, w7], steps + [Persist(n, left), Crash];
  }

  lemma InterruptedSteps(w: World, n: CertPair.Pair, left: CertPair.Disk) returns (w1: World, w2: World)
    requires w.pc == Idle && w.tls == Tls(true) && CertPair.Matches(n) && CertPair.TransactionReaches(w.pair, n, left)
    ensures CanFollow(w, Persist(n, left), w1) && CanFollow(w1, Crash, w2)
    ensures w2 == w.(pair := left, pc := Down)
  {
    hide CertPair.TransactionReaches, CertPair.Matches;
    w1 := w.(pair := left);
    w2 := w1.(pc := Down);
  }

  lemma HalfInstalled() returns (n: CertPair.Pair, left: CertPair.Disk)
    ensures CertPair.Matches(n) && left == map[CertPair.KeyNext := CertPair.PrivateKey(1)]
    ensures CertPair.TransactionReaches(map[], n, left) && CertPair.Outcome(left) == CertPair.Stuck
  {
    n := CertPair.Pair(CertPair.Certificate(1, 1), CertPair.PrivateKey(1));
    left := map[CertPair.KeyNext := CertPair.PrivateKey(1)];
    CertPair.OutcomeByCases(map[]);
    CertPair.OutcomeByCases(left);
    assert CertPair.KeyNext in left;
  }

  // ---------------------------------------------------------------------------------------------
  // Finalizing twice.
  // ---------------------------------------------------------------------------------------------

  predicate Rotates(s: Step) { s.Rotate? || s.RotateOnDisk? }

  predicate Writes(s: Step) { s.Save? || Rotates(s) }

  /** In every run, finalizing a response puts in the identity file what the server issued with it, and a
      rotation what it was rotated to; nothing else changes the file. */
  lemma {:induction false} IdentityFileTakesOver(worlds: seq<World>, steps: seq<Step>, n: nat)
    requires IsRun(worlds, steps) && n < |steps|
    ensures steps[n].Save? ==>
              && Answered(worlds[n])
              && TakesOver(worlds[n].mem, worlds[n + 1].disk, worlds[n].pending.value.response.value.update,
                           worlds[n].pending.value.via)
    ensures Rotates(steps[n]) ==> TakesOver(worlds[n].mem, worlds[n + 1].disk, steps[n].update, Rotation)
    ensures !Writes(steps[n]) ==> worlds[n + 1].disk == worlds[n].disk
  {
  }

  /** The stored response stays put until it is cleared. */
  lemma {:induction false} StoredUntilCleared(worlds: seq<World>, steps: seq<Step>, i: nat, k: nat)
    requires IsRun(worlds, steps) && i < k < |worlds| && steps[i].Save?
    requires forall m :: i < m < k ==> !steps[m].Clear?
    ensures Answered(worlds[k]) && worlds[k].pending == worlds[i].pending
    decreases k
  {
    if k > i + 1 {
      StoredUntilCleared(worlds, steps, i, k - 1);
      RunsAreConsistent(worlds, steps, k - 1);
      StoredStep(worlds[k - 1], steps[k - 1]);
    }
  }

  lemma StoredStep(w: World, s: Step)
    requires TransactionsOk(w) && Answered(w) && Enabled(w, s) && !s.Clear?
    ensures Apply(w, s).pending == w.pending
  {
  }

  /** In every run, finalizing the same stored response again leaves the identity file as the first time,
      across failures and restarts, as long as no rotation came between. */
  lemma {:induction false} RefinalizationKeepsIdentity(worlds: seq<World>, steps: seq<Step>, i: nat, k: nat)
    requires IsRun(worlds, steps) && i < k < |worlds| && steps[i].Save?
    requires forall m :: i < m < k ==> !steps[m].Clear? && !Rotates(steps[m])
    ensures worlds[k].disk == worlds[i + 1].disk
    ensures worlds[k].pc != Down ==> worlds[k].mem in {worlds[i].mem, worlds[i + 1].disk}
    decreases k
  {
    if k > i + 1 {
      hide Enabled, Apply;
      RefinalizationKeepsIdentity(worlds, steps, i, k - 1);
      StoredUntilCleared(worlds, steps, i, k - 1);
      RunsAreConsistent(worlds, steps, k - 1);
      SaveWrites(worlds[i], steps[i]);
      IdentityStep(worlds[k - 1], steps[k - 1], worlds[i].mem);
    } else {
      SaveWrites(worlds[i], steps[i]);
    }
  }

  function Finalization(w: World, mem: Identity): Identity
    requires Answered(w)
  {
    Updated(mem, w.pending.value.response.value.update, w.pending.value.via)
  }

  lemma SaveWrites(w: World, s: Step)
    requires Enabled(w, s) && s.Save?
    ensures Answered(w) && Apply(w, s).disk == Finalization(w, w.mem) && Apply(w, s).mem == w.mem
    ensures Apply(w, s).pending == w.pending
  {
  }

  lemma IdentityStep(w: World, s: Step, mem: Identity)
    requires Answered(w) && Enabled(w, s) && !s.Clear? && !Rotates(s) && w.pc != Awaiting && !w.pc.Got?
    requires w.disk == Finalization(w, mem) && (w.pc != Down ==> w.mem in {mem, w.disk})
    ensures var w' := Apply(w, s);
            w'.disk == w.disk && (w'.pc != Down ==> w'.mem in {mem, w.disk})
  {
    UpdateIsIdempotent(mem, w.pending.value.response.value.update, w.pending.value.via);
  }

  /** The last write of the identity file at or after step `i` and before step `j`. */
  function LastWrite(steps: seq<Step>, i: nat, j: nat): (k: nat)
    requires i < j <= |steps| && Writes(steps[i])
    ensures i <= k < j && Writes(steps[k]) && forall m :: k < m < j ==> !Writes(steps[m])
    decreases j
  {
    if Writes(steps[j - 1]) then j - 1 else LastWrite(steps, i, j - 1)
  }

  lemma {:induction false} DiskIsLastWritten(worlds: seq<World>, steps: seq<Step>, k: nat, j: nat)
    requires IsRun(worlds, steps) && k < j < |worlds| && forall m :: k < m < j ==> !Writes(steps[m])
    ensures worlds[j].disk == worlds[k + 1].disk
    decreases j
  {
    if j > k + 1 {
      DiskIsLastWritten(worlds, steps, k, j - 1);
    }
  }

  /** In every run, finalizing a stored response again leaves the credential on disk alone exactly if the
      last write since was a finalization, or a rotation to that very credential: otherwise it brings a
      superseded credential back. */
  lemma {:induction false} RefinalizationKeepsCredential(worlds: seq<World>, steps: seq<Step>, i: nat, j: nat)
    requires IsRun(worlds, steps) && i < j < |steps| && steps[i].Save? && steps[j].Save?
    requires forall m :: i < m < j ==> !steps[m].Clear?
    ensures Answered(worlds[i])
    ensures var u := worlds[i].pending.value.response.value.update;
            var last := steps[LastWrite(steps, i, j)];
            && worlds[j + 1].disk.credential == u.credential
            && (worlds[j + 1].disk.credential == worlds[j].disk.credential <==>
                last.Save? || last.update.credential == u.credential)
  {
    StoredUntilCleared(worlds, steps, i, j);
    var k := LastWrite(steps, i, j);
    DiskIsLastWritten(worlds, steps, k, j);
    if k > i {
      StoredUntilCleared(worlds, steps, i, k);
    }
  }

  /** Such a run exists: the pending file could not be cleared, the credential was rotated, and the next
      recovery finalizes the old response again. */
  lemma {:induction false} SupersededCredentialReturns() returns (worlds: seq<World>, steps: seq<Step>)
    ensures IsRun(worlds, steps) && |steps| == 12 && steps[6] == Save && steps[11] == Save
    ensures steps[9] == Rotate(Update("second", "", None))
    ensures worlds[10].disk.credential == "second" && worlds[12].disk.credential == "first"
    ensures forall m :: 6 < m < 11 ==> !steps[m].Clear?
  {
    var r := Response(true, true, Update("first", "", None), None);
    var before, done := StoredResponse(NoTls, None, r);
    var w6, w7, w8, w9 := FirstFinalization(before[5], r);
    var w10, w11, w12 := SecondFinalization(w9, r);
    hide Enabled, Apply, CanFollow, IsPath;
    var rest := [Place, Save, Adopt, Fail, Rotate(Update("second", "", None)), Place, Save];
    var reached := [w6, w7, w8, w9, w10, w11, w12];
    FollowSteps(before, done, rest, reached);
    worlds, steps := before + reached, done + rest;
  }

  lemma {:induction false} FirstFinalization(w5: World, r: Response)
    returns (w6: World, w7: World, w8: World, w9: World)
    requires r == Response(true, true, Update("first", "", None), None)
    requires w5 == World(NoTls, Some(Pending("e", "csr", Bootstrap, None, Some(r))), PROVISIONED, PROVISIONED, map[],
                         Idle, 0, [Sent("e", "csr", Bootstrap, "token")])
    ensures CanFollow(w5, Place, w6) && CanFollow(w6, Save, w7) && CanFollow(w7, Adopt, w8) && CanFollow(w8, Fail, w9)
    ensures w9.pc == Idle && w9.tls == NoTls && w9.pending == w5.pending
  {
    w6 := Apply(w5, Place);
    w7 := Apply(w6, Save);
    w8 := Apply(w7, Adopt);
    w9 := Apply(w8, Fail);
  }

  lemma {:induction false} SecondFinalization(w9: World, r: Response)
    returns (w10: World, w11: World, w12: World)
    requires r == Response(true, true, Update("first", "", None), None)
    requires w9.pc == Idle && w9.tls == NoTls && w9.pending == Some(Pending("e", "csr", Bootstrap, None, Some(r)))
    ensures CanFollow(w9, Rotate(Update("second", "", None)), w10) && CanFollow(w10, Place, w11)
    ensures CanFollow(w11, Save, w12)
    ensures w10.disk.credential == "second" && w12.disk.credential == "first"
  {
    w10 := Apply(w9, Rotate(Update("second", "", None)));
    w11 := Apply(w10, Place);
    w12 := Apply(w11, Save);
  }
}
