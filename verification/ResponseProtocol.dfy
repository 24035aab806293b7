/** The managed-response protocol as a transition system: what the executor of
    internal/runtime/controlplane.go does to the journal, one durable step at a time, with a crash
    allowed between any two steps. */
module ResponseProtocol {
  import opened Optional
  import opened ResponseAction
  import opened Journal

  /** Where the executor is between two steps. Everything but the journal is lost in a crash. */
  datatype Pc =
    | Idle
    | Announced(id: int)
    | MayExecute(id: int)
    | Holds(id: int, result: Result)
    | MayDelete(id: int)
    | Down

  /** What an observer of the action, the journal and the server sees. `Executed` is the call of
      `Execute` at time `at`, and says whether it got past its checks to the action proper; a crash may
      follow it at any time. `permitted` stands for the checks of profile, agent and kind, and `outcome` is
      what it returns. */
  datatype Event =
    | Begun(id: int, action: Action, at: int)
    | RunningReported(id: int)
    | Marked(id: int)
    | Executed(id: int, permitted: bool, effect: bool, at: int, outcome: Result)
    | Completed(id: int, result: Result)
    | Confirmed(id: int, result: Result)
    | Deleted(id: int)

  datatype World = World(journal: Entries, pc: Pc, log: seq<Event>)

  datatype Step =
    | Begin(action: Action, at: int)
    | ReportRunning(id: int)
    | MarkExecuting(id: int, at: int)
    | Execute(id: int, outcome: Result, permitted: bool, at: int)
    | Complete(id: int, at: int)
    | ReportTerminal(id: int)
    | Delete(id: int)
    | Crash
    | Recover(id: int, at: int)
    | Boot

  const RESTARTED := "agent restarted while action execution outcome was indeterminate"

  function NewRecord(a: Action, at: int): Record {
    Record(a, Accepted, None, at, at)
  }

  function ExecutingRecord(r: Record, at: int): Record {
    r.(phase := Executing, updatedAt := at)
  }

  function TerminalRecord(r: Record, result: Result, at: int): Record {
    r.(phase := Terminal, result := Some(result), updatedAt := at)
  }

  /** The result `Complete` stores for what the action returned. */
  function StoredResult(r: Record, outcome: Result): Result {
    Bounded(outcome.(id := r.action.id, agent := r.action.agent))
  }

  function RecoveredResult(r: Record): Result {
    Result(r.action.id, r.action.agent, Failed, None, RESTARTED)
  }

  /** The checks of `Execute`: expiry is judged at the journaled start time, not at the time of the call. */
  predicate TakesEffect(r: Record, permitted: bool) {
    permitted && !Expired(r.action, r.startedAt)
  }

  /** What `Execute` returns when it does not get to the action. */
  predicate IsRefusal(outcome: Result) {
    outcome.status == Failed && outcome.payload.None?
  }

  ghost predicate Enabled(l: Limits, w: World, s: Step) {
    match s
    case Begin(a, at) =>
      && w.pc == Idle && WellFormed(a) && a.id !in w.journal
      && Loadable(l, w.journal) && HasCapacity(l, w.journal, NewRecord(a, at))
    case ReportRunning(id) =>
      w.pc == Idle && id in w.journal && w.journal[id].phase == Accepted
    case MarkExecuting(id, at) =>
      && w.pc == Announced(id) && id in w.journal && w.journal[id].phase == Accepted
      && l.size(ExecutingRecord(w.journal[id], at)) <= MAX_RECORD_SIZE
    case Execute(id, outcome, permitted, at) =>
      && w.pc == MayExecute(id) && id in w.journal
      && (!TakesEffect(w.journal[id], permitted) ==> IsRefusal(outcome))
    case Complete(id, at) =>
      && w.pc.Holds? && w.pc.id == id && id in w.journal && w.journal[id].phase == Executing
      && w.pc.result.status != Other
      && l.size(TerminalRecord(w.journal[id], StoredResult(w.journal[id], w.pc.result), at)) <= MAX_RECORD_SIZE
    case ReportTerminal(id) =>
      w.pc == Idle && id in w.journal && w.journal[id].phase == Terminal && w.journal[id].result.Some?
    case Delete(id) =>
      w.pc == MayDelete(id)
    case Crash => true
    case Recover(id, at) =>
      && w.pc == Down && id in w.journal && w.journal[id].phase == Executing
      && FileSize(l, w.journal[id]) <= MAX_RECORD_SIZE
      && l.size(TerminalRecord(w.journal[id], RecoveredResult(w.journal[id]), at)) <= MAX_RECORD_SIZE
    case Boot =>
      w.pc == Down && Loadable(l, w.journal) && forall id :: id in w.journal ==> w.journal[id].phase != Executing
  }

  ghost function Apply(l: Limits, w: World, s: Step): World
    requires Enabled(l, w, s)
  {
    match s
    case Begin(a, at) =>
      World(w.journal[a.id := NewRecord(a, at)], Idle, w.log + [Begun(a.id, a, at)])
    case ReportRunning(id) =>
      World(w.journal, Announced(id), w.log + [RunningReported(id)])
    case MarkExecuting(id, at) =>
      World(w.journal[id := ExecutingRecord(w.journal[id], at)], MayExecute(id), w.log + [Marked(id)])
    case Execute(id, outcome, permitted, at) =>
      World(w.journal, Holds(id, outcome),
            w.log + [Executed(id, permitted, TakesEffect(w.journal[id], permitted), at, outcome)])
    case Complete(id, at) =>
      var result := StoredResult(w.journal[id], w.pc.result);
      World(w.journal[id := TerminalRecord(w.journal[id], result, at)], Idle, w.log + [Completed(id, result)])
    case ReportTerminal(id) =>
      World(w.journal, MayDelete(id), w.log + [Confirmed(id, w.journal[id].result.value)])
    case Delete(id) =>
      World(w.journal - {id}, Idle, w.log + [Deleted(id)])
    case Crash =>
      World(w.journal, Down, w.log)
    case Recover(id, at) =>
      var result := RecoveredResult(w.journal[id]);
      World(w.journal[id := TerminalRecord(w.journal[id], result, at)], Down, w.log + [Completed(id, result)])
    case Boot =>
      World(w.journal, Idle, w.log)
  }

  ghost predicate CanFollow(l: Limits, w: World, s: Step, w': World) {
    Enabled(l, w, s) && w' == Apply(l, w, s)
  }

  const START := World(map[], Down, [])

  /** A run: the worlds it goes through and the steps between them. */
  ghost predicate IsRun(l: Limits, worlds: seq<World>, steps: seq<Step>) {
    && |worlds| == |steps| + 1
    && worlds[0] == START
    && forall i :: 0 <= i < |steps| ==>
         Enabled(l, worlds[i], steps[i]) && worlds[i + 1] == Apply(l, worlds[i], steps[i])
  }

  // ---------------------------------------------------------------------------------------------
  // The life of one action, read off the log alone.
  // ---------------------------------------------------------------------------------------------

  datatype Life =
    | Absent
    | Waiting(action: Action, at: int)
    | Reported(action: Action, at: int)
    | Armed(action: Action, at: int)
    | Ran(action: Action, outcome: Result)
    | Done(result: Result)
    | Settled(result: Result)
    | Broken

  /** The result recorded for an action that was interrupted. */
  predicate Interrupted(a: Action, r: Result) {
    r == Result(a.id, a.agent, Failed, None, RESTARTED)
  }

  /** The only order of events the protocol promises for one action. A call takes effect exactly if it is
      permitted and the action was accepted before it expired, and fails if it has none; the result recorded
      is what the call returned, or that it was interrupted. */
  function Advance(life: Life, e: Event): Life {
    match e
    case Begun(_, a, t) => if life == Absent then Waiting(a, t) else Broken
    case RunningReported(_) => if life.Waiting? || life.Reported? then Reported(life.action, life.at) else Broken
    case Marked(_) => if life.Reported? then Armed(life.action, life.at) else Broken
    case Executed(_, permitted, effect, _, outcome) =>
      if life.Armed? && (effect <==> permitted && !Expired(life.action, life.at)) && (!effect ==> IsRefusal(outcome))
      then Ran(life.action, outcome) else Broken
    case Completed(_, r) =>
      if (life.Ran? && Reports(life.action, life.outcome, r))
         || ((life.Ran? || life.Armed?) && Interrupted(life.action, r))
      then Done(r) else Broken
    case Confirmed(_, r) => if life == Done(r) || life == Settled(r) then Settled(r) else Broken
    case Deleted(_) => if life.Settled? then Absent else Broken
  }

  function LifeOf(log: seq<Event>, id: int): Life {
    if log == [] then Absent
    else
      var before := LifeOf(log[..|log| - 1], id);
      var e := log[|log| - 1];
      if e.id == id then Advance(before, e) else before
  }

  lemma LifeStep(log: seq<Event>, e: Event, id: int)
    ensures LifeOf(log + [e], id) == if e.id == id then Advance(LifeOf(log, id), e) else LifeOf(log, id)
  {
    assert (log + [e])[..|log|] == log;
  }

  /** The journal entry and the life of an action say the same thing. */
  ghost predicate Agrees(j: Entries, id: int, life: Life) {
    match life
    case Absent => id !in j
    case Waiting(a, t) => id in j && j[id].phase == Accepted && j[id].action == a && j[id].startedAt == t
    case Reported(a, t) => id in j && j[id].phase == Accepted && j[id].action == a && j[id].startedAt == t
    case Armed(a, t) => id in j && j[id].phase == Executing && j[id].action == a && j[id].startedAt == t
    case Ran(a, _) => id in j && j[id].phase == Executing && j[id].action == a
    case Done(r) => id in j && j[id].phase == Terminal && j[id].result == Some(r)
    case Settled(r) => id in j && j[id].phase == Terminal && j[id].result == Some(r)
    case Broken => false
  }

  predicate Running(j: Entries, id: int) {
    id in j && j[id].phase == Executing
  }

  /** One action at a time: while the agent is up, a record is executing only if the executor is
      between marking and completing it. */
  ghost predicate OneAtATime(w: World) {
    && (forall a, b :: Running(w.journal, a) && Running(w.journal, b) ==> a == b)
    && (forall a :: Running(w.journal, a) ==>
          w.pc == Down || ((w.pc.MayExecute? || w.pc.Holds?) && w.pc.id == a))
  }

  ghost predicate Consistent(w: World) {
    && OneAtATime(w)
    && (forall id :: id in w.journal ==> ValidRecord(w.journal[id]) && w.journal[id].action.id == id)
    && (forall id :: Agrees(w.journal, id, LifeOf(w.log, id)))
    && (w.pc.Announced? ==> LifeOf(w.log, w.pc.id).Reported?)
    && (w.pc.MayExecute? ==> LifeOf(w.log, w.pc.id).Armed?)
    && (w.pc.Holds? ==> LifeOf(w.log, w.pc.id).Ran? && LifeOf(w.log, w.pc.id).outcome == w.pc.result)
    && (w.pc.MayDelete? ==> LifeOf(w.log, w.pc.id).Settled?)
  }

  lemma LogGrowsByOne(l: Limits, w: World, s: Step)
    requires Enabled(l, w, s)
    ensures w.log <= Apply(l, w, s).log && |Apply(l, w, s).log| <= |w.log| + 1
  {
  }

  lemma StepKeepsRecords(l: Limits, w: World, s: Step)
    requires Consistent(w) && Enabled(l, w, s)
    ensures var j := Apply(l, w, s).journal;
            forall id :: id in j ==> ValidRecord(j[id]) && j[id].action.id == id
  {
    if s.Complete? {
      BoundedIsDurable(w.pc.result.(id := s.id, agent := w.journal[s.id].action.agent));
    }
  }

  lemma StepKeepsAgreement(l: Limits, w: World, s: Step, id: int)
    requires Consistent(w) && Enabled(l, w, s)
    ensures Agrees(Apply(l, w, s).journal, id, LifeOf(Apply(l, w, s).log, id))
  {
    var w' := Apply(l, w, s);
    assert Agrees(w.journal, id, LifeOf(w.log, id));
    if |w'.log| > |w.log| {
      var e := w'.log[|w.log|];
      assert w'.log == w.log + [e];
      LifeStep(w.log, e, id);
      if s.Complete? && id == s.id {
        BoundedReports(w.journal[id].action, w.pc.result);
      }
    }
  }

  lemma StepKeepsPc(l: Limits, w: World, s: Step)
    requires Consistent(w) && Enabled(l, w, s)
    ensures var w' := Apply(l, w, s);
            && (w'.pc.Announced? ==> LifeOf(w'.log, w'.pc.id).Reported?)
            && (w'.pc.MayExecute? ==> LifeOf(w'.log, w'.pc.id).Armed?)
            && (w'.pc.Holds? ==> LifeOf(w'.log, w'.pc.id).Ran? && LifeOf(w'.log, w'.pc.id).outcome == w'.pc.result)
            && (w'.pc.MayDelete? ==> LifeOf(w'.log, w'.pc.id).Settled?)
  {
    var w' := Apply(l, w, s);
    if |w'.log| > |w.log| {
      var e := w'.log[|w.log|];
      assert w'.log == w.log + [e];
      assert Agrees(w.journal, e.id, LifeOf(w.log, e.id));
      LifeStep(w.log, e, e.id);
    } else {
      assert w'.log == w.log;
    }
  }

  lemma StepKeepsOneAtATime(l: Limits, w: World, s: Step)
    requires Consistent(w) && Enabled(l, w, s)
    ensures OneAtATime(Apply(l, w, s))
  {
    var w' := Apply(l, w, s);
    forall a | Running(w'.journal, a)
      ensures Running(w.journal, a) || (s.MarkExecuting? && a == s.id)
    {
    }
    if s.Execute? {
      assert Agrees(w.journal, s.id, LifeOf(w.log, s.id));
    }
    if s.Boot? {
      assert forall a :: !Running(w.journal, a);
    }
  }

  lemma StepKeepsConsistent(l: Limits, w: World, s: Step)
    requires Consistent(w) && Enabled(l, w, s)
    ensures Consistent(Apply(l, w, s))
  {
    StepKeepsRecords(l, w, s);
    StepKeepsPc(l, w, s);
    StepKeepsOneAtATime(l, w, s);
    forall id { StepKeepsAgreement(l, w, s, id); }
  }

  /** Every world of every run is consistent: whatever was offered, whichever reports failed,
      wherever it crashed. */
  lemma {:induction false} RunsAreConsistent(l: Limits, worlds: seq<World>, steps: seq<Step>, i: nat)
    requires IsRun(l, worlds, steps) && i < |worlds|
    ensures Consistent(worlds[i])
  {
    if i > 0 {
      RunsAreConsistent(l, worlds, steps, i - 1);
      StepKeepsConsistent(l, worlds[i - 1], steps[i - 1]);
    }
  }

  // ---------------------------------------------------------------------------------------------
  // What an unbroken life means, event by event.
  // ---------------------------------------------------------------------------------------------

  lemma {:induction false} UnbrokenPrefix(log: seq<Event>, id: int, n: nat)
    requires n <= |log| && LifeOf(log, id) != Broken
    ensures LifeOf(log[..n], id) != Broken
    decreases |log| - n
  {
    if n == |log| {
      assert log[..n] == log;
    } else {
      UnbrokenPrefix(log, id, n + 1);
      assert log[..n + 1] == log[..n] + [log[n]];
      LifeStep(log[..n], log[n], id);
    }
  }

  lemma PrefixStep(log: seq<Event>, id: int, n: nat)
    requires n < |log| && LifeOf(log, id) != Broken
    ensures LifeOf(log[..n], id) != Broken && LifeOf(log[..n + 1], id) != Broken
    ensures LifeOf(log[..n + 1], id) ==
            if log[n].id == id then Advance(LifeOf(log[..n], id), log[n]) else LifeOf(log[..n], id)
  {
    UnbrokenPrefix(log, id, n);
    UnbrokenPrefix(log, id, n + 1);
    assert log[..n + 1] == log[..n] + [log[n]];
    LifeStep(log[..n], log[n], id);
  }

  predicate Begins(e: Event, id: int) { e.Begun? && e.id == id }

  predicate Executes(e: Event, id: int) { e.Executed? && e.id == id }

  predicate PastExecution(life: Life) {
    life.Ran? || life.Done? || life.Settled?
  }

  lemma {:induction false} OnlyDeletionResets(log: seq<Event>, id: int, a: nat, b: nat) returns (k: nat)
    requires a <= b <= |log| && LifeOf(log, id) != Broken
    requires PastExecution(LifeOf(log[..a], id)) && !PastExecution(LifeOf(log[..b], id))
    ensures a <= k < b && log[k] == Deleted(id)
    decreases b
  {
    PrefixStep(log, id, b - 1);
    if PastExecution(LifeOf(log[..b - 1], id)) {
      k := b - 1;
    } else {
      k := OnlyDeletionResets(log, id, a, b - 1);
    }
  }

  lemma {:induction false} OnlyBeginStarts(log: seq<Event>, id: int, a: nat, b: nat) returns (k: nat)
    requires a <= b <= |log| && LifeOf(log, id) != Broken
    requires LifeOf(log[..a], id) == Absent && LifeOf(log[..b], id) != Absent
    ensures a <= k < b && Begins(log[k], id)
    decreases b
  {
    PrefixStep(log, id, b - 1);
    if LifeOf(log[..b - 1], id) == Absent {
      k := b - 1;
    } else {
      k := OnlyBeginStarts(log, id, a, b - 1);
    }
  }

  /** Two executions of one action are separated by the deletion of its entry and a new one. */
  lemma ExecutedOncePerEntry(log: seq<Event>, id: int, i: nat, j: nat) returns (k: nat, m: nat)
    requires LifeOf(log, id) != Broken
    requires i < j < |log| && Executes(log[i], id) && Executes(log[j], id)
    ensures i < k < m < j && log[k] == Deleted(id) && Begins(log[m], id)
  {
    PrefixStep(log, id, i);
    PrefixStep(log, id, j);
    k := OnlyDeletionResets(log, id, i + 1, j);
    PrefixStep(log, id, k);
    m := OnlyBeginStarts(log, id, k + 1, j);
  }

  /** Once a result is recorded, nothing but confirmations of that very result happens to the
      action; in particular it is not executed and its result does not change. */
  lemma {:induction false} RecordedResultIsFinal(log: seq<Event>, id: int, r: Result) returns (h: nat)
    requires LifeOf(log, id) == Done(r) || LifeOf(log, id) == Settled(r)
    ensures h < |log| && log[h] == Completed(id, r)
    ensures forall k :: h < k < |log| && log[k].id == id ==> log[k] == Confirmed(id, r)
    ensures LifeOf(log, id) == Settled(r) ==> exists k :: h < k < |log| && log[k] == Confirmed(id, r)
  {
    var n := |log| - 1;
    assert log[..n + 1] == log;
    PrefixStep(log, id, n);
    if log[n] == Completed(id, r) {
      h := n;
    } else {
      h := RecordedResultIsFinal(log[..n], id, r);
      assert forall k :: 0 <= k < n ==> log[..n][k] == log[k];
      if log[n].id == id {
        assert log[n] == Confirmed(id, r);
      }
    }
  }

  /** A deletion follows a confirmation by the server of exactly the recorded result. */
  lemma DeletedOnlyAfterConfirmation(log: seq<Event>, id: int, j: nat) returns (h: nat, c: nat, r: Result)
    requires LifeOf(log, id) != Broken && j < |log| && log[j] == Deleted(id)
    ensures h < c < j && log[h] == Completed(id, r) && log[c] == Confirmed(id, r)
    ensures forall k :: h < k < j && log[k].id == id ==> log[k] == Confirmed(id, r)
  {
    PrefixStep(log, id, j);
    r := LifeOf(log[..j], id).result;
    h := RecordedResultIsFinal(log[..j], id, r);
    c :| h < c < j && log[..j][c] == Confirmed(id, r);
  }

  /** Execution starts only when the last thing that happened to the action is that it was durably
      marked, after the server had accepted the running report. */
  lemma {:induction false} LastEventOf(log: seq<Event>, id: int) returns (k: nat)
    requires LifeOf(log, id).Armed?
    ensures k < |log| && log[k] == Marked(id) && forall m :: k < m < |log| ==> log[m].id != id
  {
    var n := |log| - 1;
    assert log[..n + 1] == log;
    PrefixStep(log, id, n);
    if log[n].id == id {
      k := n;
    } else {
      k := LastEventOf(log[..n], id);
      assert forall m :: 0 <= m < n ==> log[..n][m] == log[m];
    }
  }

  lemma ExecutionIsWrittenAhead(log: seq<Event>, id: int, j: nat) returns (k: nat)
    requires LifeOf(log, id) != Broken && j < |log| && Executes(log[j], id)
    ensures k < j && log[k] == Marked(id) && forall m :: k < m < j ==> log[m].id != id
  {
    PrefixStep(log, id, j);
    k := LastEventOf(log[..j], id);
    assert forall m :: 0 <= m < j ==> log[..j][m] == log[m];
  }

  /** Until it is executed, an action is the one that was begun, at the time it was begun. */
  lemma {:induction false} LastBeginOf(log: seq<Event>, id: int) returns (b: nat)
    requires LifeOf(log, id).Waiting? || LifeOf(log, id).Reported? || LifeOf(log, id).Armed?
    ensures b < |log| && log[b] == Begun(id, LifeOf(log, id).action, LifeOf(log, id).at)
    ensures forall k :: b < k < |log| && log[k].id == id ==> log[k].RunningReported? || log[k].Marked?
  {
    var n := |log| - 1;
    assert log[..n + 1] == log;
    PrefixStep(log, id, n);
    if Begins(log[n], id) {
      b := n;
    } else {
      b := LastBeginOf(log[..n], id);
      assert forall k :: 0 <= k < n ==> log[..n][k] == log[k];
    }
  }

  // ---------------------------------------------------------------------------------------------
  // Theorems over runs.
  // ---------------------------------------------------------------------------------------------

  /** In every run, an action is executed at most once between Begin and Delete. */
  lemma AtMostOnce(l: Limits, worlds: seq<World>, steps: seq<Step>, n: nat, id: int, i: nat, j: nat)
    requires IsRun(l, worlds, steps) && n < |worlds|
    requires i < j < |worlds[n].log| && Executes(worlds[n].log[i], id) && Executes(worlds[n].log[j], id)
    ensures exists k, m :: i < k < m < j && worlds[n].log[k] == Deleted(id) && Begins(worlds[n].log[m], id)
  {
    RunsAreConsistent(l, worlds, steps, n);
    assert Agrees(worlds[n].journal, id, LifeOf(worlds[n].log, id));
    var k, m := ExecutedOncePerEntry(worlds[n].log, id, i, j);
  }

  /** In every run, a call takes effect exactly if it is permitted and the action had not expired when it
      was accepted: whenever the call comes, expiry is judged at the journaled start. */
  lemma {:induction false} EffectIffAcceptedInTime(
    l: Limits, worlds: seq<World>, steps: seq<Step>, n: nat, id: int, j: nat)
    requires IsRun(l, worlds, steps) && n < |worlds|
    requires j < |worlds[n].log| && Executes(worlds[n].log[j], id)
    ensures exists b, a, t ::
              && 0 <= b < j && worlds[n].log[b] == Begun(id, a, t)
              && (forall k :: b < k < j && worlds[n].log[k].id == id ==>
                    worlds[n].log[k].RunningReported? || worlds[n].log[k].Marked?)
              && (worlds[n].log[j].effect <==>
                    worlds[n].log[j].permitted && (a.expiresAt.None? || t < a.expiresAt.value))
  {
    var log := worlds[n].log;
    RunsAreConsistent(l, worlds, steps, n);
    assert Agrees(worlds[n].journal, id, LifeOf(log, id));
    PrefixStep(log, id, j);
    var b := LastBeginOf(log[..j], id);
    var life := LifeOf(log[..j], id);
    assert log[b] == Begun(id, life.action, life.at);
    assert forall k :: b < k < j ==> log[..j][k] == log[k];
  }

  /** In every run, what is recorded for an action is what its last call returned, under its own identity, or
      that it was interrupted after it was marked. */
  lemma {:induction false} ResultIsGenuine(
    l: Limits, worlds: seq<World>, steps: seq<Step>, n: nat, id: int, j: nat)
    returns (k: nat, b: nat, a: Action, t: int)
    requires IsRun(l, worlds, steps) && n < |worlds| && j < |worlds[n].log|
    requires worlds[n].log[j].Completed? && worlds[n].log[j].id == id
    ensures b < k < j && worlds[n].log[b] == Begun(id, a, t) && worlds[n].log[k].id == id
    ensures forall m :: k < m < j ==> worlds[n].log[m].id != id
    ensures forall m :: b < m < k && worlds[n].log[m].id == id ==> !worlds[n].log[m].Begun?
    ensures var e, r := worlds[n].log[k], worlds[n].log[j].result;
            || (e.Executed? && Reports(a, e.outcome, r))
            || ((e.Executed? || e.Marked?) && Interrupted(a, r))
  {
    var log := worlds[n].log;
    RunsAreConsistent(l, worlds, steps, n);
    assert Agrees(worlds[n].journal, id, LifeOf(log, id));
    PrefixStep(log, id, j);
    k, b := LastCallOf(log[..j], id);
    a, t := log[b].action, log[b].at;
    assert forall m :: 0 <= m < j ==> log[..j][m] == log[m];
  }

  /** The last event of an action that is being executed, and where it was begun. */
  lemma {:induction false} LastCallOf(log: seq<Event>, id: int) returns (k: nat, b: nat)
    requires LifeOf(log, id).Ran? || LifeOf(log, id).Armed?
    ensures b < k < |log| && Begins(log[b], id) && log[b].action == LifeOf(log, id).action
    ensures log[k].id == id && forall m :: k < m < |log| ==> log[m].id != id
    ensures forall m :: b < m < k && log[m].id == id ==> !log[m].Begun?
    ensures if LifeOf(log, id).Armed? then log[k].Marked?
            else log[k].Executed? && log[k].outcome == LifeOf(log, id).outcome
  {
    var n := |log| - 1;
    assert log[..n + 1] == log;
    PrefixStep(log, id, n);
    if log[n].id == id {
      k := n;
      b := LastBeginOf(log[..n], id);
    } else {
      k, b := LastCallOf(log[..n], id);
    }
    assert forall m :: 0 <= m < n ==> log[..n][m] == log[m];
  }

  /** In every run, the step after a call is a crash, or it records what the call returned. */
  lemma {:induction false} OutcomeIsRecorded(l: Limits, worlds: seq<World>, steps: seq<Step>, i: nat)
    requires IsRun(l, worlds, steps) && i + 1 < |steps| && steps[i].Execute? && steps[i + 1] != Crash
    ensures var id := steps[i].id;
            var r := worlds[i + 2].log[|worlds[i + 2].log| - 1].result;
            && |worlds[i + 2].log| == |worlds[i].log| + 2
            && worlds[i + 1].log[|worlds[i].log|].outcome == steps[i].outcome
            && worlds[i + 2].log == worlds[i + 1].log + [Completed(id, r)]
            && id in worlds[i].journal && Reports(worlds[i].journal[id].action, steps[i].outcome, r)
            && id in worlds[i + 2].journal && worlds[i + 2].journal[id].result == Some(r)
  {
    BoundedReports(worlds[i].journal[steps[i].id].action, steps[i].outcome);
  }

  /** The result recorded for a call without effect, or for one that was interrupted, is a failure. */
  lemma {:induction false} NoEffectIsFailure(
    l: Limits, worlds: seq<World>, steps: seq<Step>, n: nat, id: int, i: nat, j: nat)
    requires IsRun(l, worlds, steps) && n < |worlds| && i < j < |worlds[n].log|
    requires Executes(worlds[n].log[i], id) && !worlds[n].log[i].effect
    requires worlds[n].log[j].Completed? && worlds[n].log[j].id == id
    requires forall k :: i < k < j ==> worlds[n].log[k].id != id
    ensures worlds[n].log[j].result.status == Failed
  {
    var log := worlds[n].log;
    RunsAreConsistent(l, worlds, steps, n);
    assert Agrees(worlds[n].journal, id, LifeOf(log, id));
    PrefixStep(log, id, i);
    Unchanged(log, id, i + 1, j);
    PrefixStep(log, id, j);
  }

  lemma {:induction false} Unchanged(log: seq<Event>, id: int, a: nat, b: nat)
    requires a <= b <= |log| && LifeOf(log, id) != Broken
    requires forall k :: a <= k < b ==> log[k].id != id
    ensures LifeOf(log[..a], id) == LifeOf(log[..b], id)
    decreases b
  {
    if a < b {
      PrefixStep(log, id, b - 1);
      Unchanged(log, id, a, b - 1);
    }
  }

  /** In every run, an entry is deleted only after the server confirmed the result it holds. */
  lemma NoResultIsLost(l: Limits, worlds: seq<World>, steps: seq<Step>, n: nat, id: int, j: nat)
    requires IsRun(l, worlds, steps) && n < |worlds|
    requires j < |worlds[n].log| && worlds[n].log[j] == Deleted(id)
    ensures exists h, c, r ::
              && h < c < j && 0 <= h && worlds[n].log[h] == Completed(id, r) && worlds[n].log[c] == Confirmed(id, r)
              && forall k :: h < k < j && worlds[n].log[k].id == id ==> worlds[n].log[k] == Confirmed(id, r)
  {
    RunsAreConsistent(l, worlds, steps, n);
    assert Agrees(worlds[n].journal, id, LifeOf(worlds[n].log, id));
    var h, c, r := DeletedOnlyAfterConfirmation(worlds[n].log, id, j);
  }

  lemma {:induction false} LiveSince(log: seq<Event>, id: int)
    requires LifeOf(log, id) != Broken
    ensures LifeOf(log, id) != Absent <==>
            exists b :: 0 <= b < |log| && Begins(log[b], id) && forall k :: b < k < |log| ==> log[k] != Deleted(id)
  {
    if log != [] {
      var n := |log| - 1;
      assert log[..n + 1] == log;
      PrefixStep(log, id, n);
      LiveSince(log[..n], id);
      assert forall k :: 0 <= k < n ==> log[..n][k] == log[k];
      if LifeOf(log[..n], id) != Absent && log[n] != Deleted(id) {
        var b :| 0 <= b < n && Begins(log[..n][b], id) && forall k :: b < k < n ==> log[..n][k] != Deleted(id);
        assert Begins(log[b], id);
      }
      if b :| 0 <= b < |log| && Begins(log[b], id) && forall k :: b < k < |log| ==> log[k] != Deleted(id) {
        if b < n {
          assert Begins(log[..n][b], id);
        }
      }
    }
  }

  /** The journal holds a valid entry for exactly the actions that were begun and not deleted. */
  lemma JournalHoldsUnfinishedActions(l: Limits, worlds: seq<World>, steps: seq<Step>, n: nat, id: int)
    requires IsRun(l, worlds, steps) && n < |worlds|
    ensures var w := worlds[n];
            && (id in w.journal <==>
                exists b :: && 0 <= b < |w.log| && Begins(w.log[b], id)
                            && forall k :: b < k < |w.log| ==> w.log[k] != Deleted(id))
            && (id in w.journal ==> ValidRecord(w.journal[id]) && w.journal[id].action.id == id)
  {
    RunsAreConsistent(l, worlds, steps, n);
    assert Agrees(worlds[n].journal, id, LifeOf(worlds[n].log, id));
    LiveSince(worlds[n].log, id);
  }

  /** Nothing has happened to `id` since `start`, and the agent has not come up again. */
  ghost predicate StillDown(start: World, w: World, id: int) {
    && w.pc == Down && id in start.journal && id in w.journal && w.journal[id] == start.journal[id]
    && start.log <= w.log
    && forall m :: |start.log| <= m < |w.log| ==> w.log[m].id != id
  }

  /** The first thing that happened to `id` since `start` is that it was recorded as failed. */
  ghost predicate FailedByRecovery(start: World, w: World, id: int, m: nat) {
    && start.log <= w.log && |start.log| <= m < |w.log|
    && id in start.journal && w.log[m] == Completed(id, RecoveredResult(start.journal[id]))
    && forall k :: |start.log| <= k < m ==> w.log[k].id != id
  }

  /** An action found executing while the agent is down stays put until recovery records it as
      failed; by `RecordedResultIsFinal` it is then never executed again under this entry. */
  lemma {:induction false} InterruptedActionsFail(
    l: Limits, worlds: seq<World>, steps: seq<Step>, i: nat, n: nat, id: int)
    requires IsRun(l, worlds, steps) && i <= n < |worlds|
    requires worlds[i].pc == Down && id in worlds[i].journal && worlds[i].journal[id].phase == Executing
    ensures StillDown(worlds[i], worlds[n], id) || exists m :: FailedByRecovery(worlds[i], worlds[n], id, m)
  {
    if n > i {
      InterruptedActionsFail(l, worlds, steps, i, n - 1, id);
      if StillDown(worlds[i], worlds[n - 1], id) {
        StaysDownOrFails(l, worlds[i], worlds[n - 1], steps[n - 1], id);
      } else {
        var m :| FailedByRecovery(worlds[i], worlds[n - 1], id, m);
        LogGrowsByOne(l, worlds[n - 1], steps[n - 1]);
        assert FailedByRecovery(worlds[i], worlds[n], id, m);
      }
    }
  }

  lemma StaysDownOrFails(l: Limits, start: World, w: World, s: Step, id: int)
    requires StillDown(start, w, id) && start.journal[id].phase == Executing && Enabled(l, w, s)
    ensures StillDown(start, Apply(l, w, s), id) || FailedByRecovery(start, Apply(l, w, s), id, |w.log|)
  {
    LogGrowsByOne(l, w, s);
  }

  /** The journal never outgrows its limits, newline of the last admitted record aside, as long as
      every record's encoding stays within the growth reserve above its action's floor. */
  lemma {:induction false} RunsStayWithinBudget(
    l: Limits, floor: Action -> nat, worlds: seq<World>, steps: seq<Step>, n: nat)
    requires IsRun(l, worlds, steps) && n < |worlds|
    requires forall i :: 0 <= i <= n ==> Windowed(l, floor, worlds[i].journal)
    ensures WithinBudget(l, floor, worlds[n].journal)
    ensures |worlds[n].journal| <= l.maxRecords && TotalBytes(l, worlds[n].journal) <= l.maxBytes + 1
  {
    if n > 0 {
      RunsStayWithinBudget(l, floor, worlds, steps, n - 1);
      RunsAreConsistent(l, worlds, steps, n - 1);
      StepKeepsBudget(l, floor, worlds[n - 1], steps[n - 1]);
    }
    BudgetBoundsDisk(l, floor, worlds[n].journal);
  }

  /** In every run, every record in the journal was within the size limit when it was written. */
  lemma {:induction false} RecordsAreWithinLimit(l: Limits, worlds: seq<World>, steps: seq<Step>, n: nat, id: int)
    requires IsRun(l, worlds, steps) && n < |worlds| && id in worlds[n].journal
    ensures l.size(worlds[n].journal[id]) <= MAX_RECORD_SIZE
  {
    if n > 0 && id in worlds[n - 1].journal {
      RecordsAreWithinLimit(l, worlds, steps, n - 1, id);
    }
  }

  lemma StepKeepsBudget(l: Limits, floor: Action -> nat, w: World, s: Step)
    requires Consistent(w) && Enabled(l, w, s) && WithinBudget(l, floor, w.journal)
    requires Windowed(l, floor, w.journal) && Windowed(l, floor, Apply(l, w, s).journal)
    ensures WithinBudget(l, floor, Apply(l, w, s).journal)
  {
    var j' := Apply(l, w, s).journal;
    match s
    case Begin(a, at) =>
      assert j'[a.id] == NewRecord(a, at);
      AdmissionKeepsBudget(l, floor, w.journal, NewRecord(a, at));
    case MarkExecuting(id, at) =>
      assert j'[id] == ExecutingRecord(w.journal[id], at);
      RewriteKeepsBudget(l, floor, w.journal, id, j'[id]);
    case Complete(id, at) =>
      assert j'[id] == TerminalRecord(w.journal[id], StoredResult(w.journal[id], w.pc.result), at);
      RewriteKeepsBudget(l, floor, w.journal, id, j'[id]);
    case Recover(id, at) =>
      assert j'[id] == TerminalRecord(w.journal[id], RecoveredResult(w.journal[id]), at);
      RewriteKeepsBudget(l, floor, w.journal, id, j'[id]);
    case Delete(id) =>
      assert Agrees(w.journal, id, LifeOf(w.log, id));
      DeleteKeepsBudget(l, floor, w.journal, id);
    case _ =>
  }

  // ---------------------------------------------------------------------------------------------
  // Runs that show what cannot be promised.
  // ---------------------------------------------------------------------------------------------

  /** A journal with room for one small record. */
  function RoomFor(size: nat): Limits {
    Limits(1, size + TERMINAL_GROWTH_RESERVE, (r: Record) => size)
  }

  const EXAMPLE := Action(1, "collect_triage_bundle", "agent", Pending, true, Some(10))

  const EXAMPLE_OUTCOME := Result(1, "agent", Success, None, "")

  lemma BeginExample(size: nat)
    requires size <= MAX_RECORD_SIZE
    ensures var l := RoomFor(size);
            var idle := World(map[], Idle, []);
            var begun := World(map[1 := NewRecord(EXAMPLE, 0)], Idle, [Begun(1, EXAMPLE, 0)]);
            CanFollow(l, START, Boot, idle) && CanFollow(l, idle, Begin(EXAMPLE, 0), begun)
  {
    var l := RoomFor(size);
    var empty: Entries := map[];
    assert Reserved(l, empty) == 0;
    assert HasCapacity(l, empty, NewRecord(EXAMPLE, 0));
  }

  /** An action accepted in time can be executed, with effect, long after it expired. */
  lemma {:induction false} ExecutedAfterExpiry() returns (l: Limits, worlds: seq<World>, steps: seq<Step>)
    ensures IsRun(l, worlds, steps) && |worlds| == 6 && |worlds[5].log| == 4
    ensures worlds[5].log[0] == Begun(1, EXAMPLE, 0) && EXAMPLE.expiresAt == Some(10)
    ensures worlds[5].log[3] == Executed(1, true, true, 100, EXAMPLE_OUTCOME)
  {
    hide Enabled, Apply;
    l := RoomFor(1);
    BeginExample(1);
    var r, outcome := NewRecord(EXAMPLE, 0), EXAMPLE_OUTCOME;
    var x := ExecutingRecord(r, 50);
    var log := [Begun(1, EXAMPLE, 0), RunningReported(1), Marked(1), Executed(1, true, true, 100, outcome)];
    ExampleContinues(l, r, x, outcome, log);
    worlds := [
      START, World(map[], Idle, []), World(map[1 := r], Idle, log[..1]), World(map[1 := r], Announced(1), log[..2]),
      World(map[1 := x], MayExecute(1), log[..3]), World(map[1 := x], Holds(1, outcome), log)];
    steps := [Boot, Begin(EXAMPLE, 0), ReportRunning(1), MarkExecuting(1, 50), Execute(1, outcome, true, 100)];
  }

  lemma {:induction false} ExampleContinues(l: Limits, r: Record, x: Record, outcome: Result, log: seq<Event>)
    requires l == RoomFor(1) && r == NewRecord(EXAMPLE, 0) && x == ExecutingRecord(r, 50)
    requires log == [Begun(1, EXAMPLE, 0), RunningReported(1), Marked(1), Executed(1, true, true, 100, outcome)]
    ensures log[..1] == [Begun(1, EXAMPLE, 0)]
    ensures var w2 := World(map[1 := r], Idle, log[..1]);
            var w3 := World(map[1 := r], Announced(1), log[..2]);
            var w4 := World(map[1 := x], MayExecute(1), log[..3]);
            var w5 := World(map[1 := x], Holds(1, outcome), log);
            && CanFollow(l, w2, ReportRunning(1), w3)
            && CanFollow(l, w3, MarkExecuting(1, 50), w4)
            && CanFollow(l, w4, Execute(1, outcome, true, 100), w5)
  {
    assert map[1 := r][1 := x] == map[1 := x];
    assert log[..2] == log[..1] + [RunningReported(1)] && log[..3] == log[..2] + [Marked(1)];
    assert log == log[..3] + [Executed(1, true, true, 100, outcome)];
  }

  /** A process that goes down while an entry is too large to load never comes up again: the entry stays
      as it is, and start-up is impossible. */
  lemma {:induction false} UnloadableEntryIsFatal(
    l: Limits, worlds: seq<World>, steps: seq<Step>, i: nat, n: nat, id: int)
    requires IsRun(l, worlds, steps) && i <= n < |worlds|
    requires worlds[i].pc == Down && id in worlds[i].journal && FileSize(l, worlds[i].journal[id]) > MAX_RECORD_SIZE
    ensures worlds[n].pc == Down && id in worlds[n].journal && worlds[n].journal[id] == worlds[i].journal[id]
    ensures !Enabled(l, worlds[n], Boot)
  {
    if i < n {
      UnloadableEntryIsFatal(l, worlds, steps, i, n - 1, id);
    }
  }

  /** Such an entry can come about: `Begin` admits a record whose encoding has exactly the maximal size. */
  lemma {:induction false} MaximalRecordIsAdmitted() returns (l: Limits, worlds: seq<World>, steps: seq<Step>)
    ensures IsRun(l, worlds, steps) && |worlds| == 4 && steps[1] == Begin(EXAMPLE, 0)
    ensures l.size(NewRecord(EXAMPLE, 0)) == MAX_RECORD_SIZE
    ensures worlds[3].pc == Down && worlds[3].journal == map[1 := NewRecord(EXAMPLE, 0)]
    ensures !Loadable(l, worlds[3].journal) && !Enabled(l, worlds[3], Boot)
  {
    l := RoomFor(MAX_RECORD_SIZE);
    BeginExample(MAX_RECORD_SIZE);
    var r := NewRecord(EXAMPLE, 0);
    var w1 := World(map[], Idle, []);
    var w2 := World(map[1 := r], Idle, [Begun(1, EXAMPLE, 0)]);
    var w3 := w2.(pc := Down);
    assert CanFollow(l, w2, Crash, w3);
    worlds := [START, w1, w2, w3];
    steps := [Boot, Begin(EXAMPLE, 0), Crash];
    UnloadableEntryIsFatal(l, worlds, steps, 3, 3, 1);
  }
}
