/** The executor loop of internal/runtime/controlplane.go over the journal and the stage. Every
    method is shown to do nothing but steps of `ResponseProtocol`, so the theorems about runs hold
    of it wherever it is interrupted. */
module Executor {
  import opened Optional
  import opened ResponseAction
  import opened Journal
  import opened ResponseProtocol
  import opened MapSum
  import Stage

  datatype BeginResult = Entered(record: Record) | EntryExists | NoCapacity | WriteError

  /** Oldest first, ties broken by id. */
  predicate Before(r: Record, s: Record) {
    r.startedAt < s.startedAt || (r.startedAt == s.startedAt && r.action.id <= s.action.id)
  }

  /** `ensureCapacityLocked`: sums what is on disk and what unfinished actions may still need. */
  method EnsureCapacity(l: Limits, j: Entries, r: Record) returns (ok: bool)
    ensures ok <==> HasCapacity(l, j, r)
  {
    var total := 0;
    var rest := j;
    while |rest| != 0
      invariant total + Reserved(l, rest) == Reserved(l, j)
      decreases |rest|
    {
      var id := Pick(rest.Keys);
      TotalRemove(rest, r => Reservation(l, r), id);
      Shrinks(rest, id);
      var size := l.size(rest[id]) + 1;
      total := total + size + if rest[id].phase == Terminal then 0 else TERMINAL_GROWTH_RESERVE;
      rest := rest - {id};
    }
    var size := l.size(r);
    ok := |j| < l.maxRecords && size <= MAX_RECORD_SIZE && total + size + TERMINAL_GROWTH_RESERVE <= l.maxBytes;
  }

  /** The ids of the oldest records of one phase, at most `limit` of them, oldest first. */
  ghost predicate OldestFirst(j: Entries, phase: Phase, limit: nat, ids: seq<int>) {
    && (forall i :: 0 <= i < |ids| ==> ids[i] in j && j[ids[i]].phase == phase)
    && (forall i, k :: 0 <= i < k < |ids| ==> ids[i] != ids[k] && Before(j[ids[i]], j[ids[k]]))
    && |ids| <= limit
    && (forall id :: id in j && j[id].phase == phase && id !in ids ==>
          |ids| == limit && forall i :: 0 <= i < |ids| ==> Before(j[ids[i]], j[id]))
  }

  /** `ids` are the oldest records of the phase, and `rest` are the others. */
  ghost predicate Listing(j: Entries, phase: Phase, ids: seq<int>, rest: set<int>) {
    && (forall id :: id in rest ==> id in j && j[id].phase == phase && id !in ids)
    && (forall id :: id in j && j[id].phase == phase ==> id in rest || id in ids)
    && (forall i :: 0 <= i < |ids| ==> ids[i] in j && j[ids[i]].phase == phase)
    && (forall i, k :: 0 <= i < k < |ids| ==> ids[i] != ids[k] && Before(j[ids[i]], j[ids[k]]))
    && (forall i, id :: 0 <= i < |ids| && id in rest ==> Before(j[ids[i]], j[id]))
  }

  lemma ListingStep(j: Entries, phase: Phase, ids: seq<int>, rest: set<int>, least: int)
    requires Listing(j, phase, ids, rest) && least in rest
    requires forall id :: id in rest ==> id in j && Before(j[least], j[id])
    ensures Listing(j, phase, ids + [least], rest - {least})
  {
    hide Before;
  }

  lemma ListingDone(j: Entries, phase: Phase, limit: nat, ids: seq<int>, rest: set<int>)
    requires Listing(j, phase, ids, rest) && |ids| <= limit && (|ids| == limit || rest == {})
    ensures OldestFirst(j, phase, limit, ids)
  {
    hide Before;
  }

  lemma ListingRest(j: Entries, phase: Phase, ids: seq<int>, rest: set<int>)
    requires Listing(j, phase, ids, rest)
    ensures forall id :: id in rest ==> id in j
  {
  }

  lemma ListingStarts(j: Entries, phase: Phase)
    ensures Listing(j, phase, [], set id | id in j && j[id].phase == phase)
  {
  }

  /** The records are listed by start time, those that started at the same time by id. */
  ghost predicate ByAge(j: Entries, ids: seq<int>) {
    forall i, k :: 0 <= i < k < |ids| ==>
      && ids[i] in j && ids[k] in j
      && (|| j[ids[i]].startedAt < j[ids[k]].startedAt
          || (j[ids[i]].startedAt == j[ids[k]].startedAt && ids[i] < ids[k]))
  }

  /** `records`: sorts by age and cuts. */
  method Oldest(j: Entries, phase: Phase, limit: nat) returns (ids: seq<int>)
    requires forall id :: id in j ==> j[id].action.id == id
    ensures OldestFirst(j, phase, limit, ids)
    ensures ByAge(j, ids)
  {
    hide Listing, Before, OldestFirst, ByAge;
    ids := [];
    var rest := set id | id in j && j[id].phase == phase;
    ListingStarts(j, phase);
    while |ids| < limit && rest != {}
      invariant Listing(j, phase, ids, rest) && |ids| <= limit
      decreases |rest|
    {
      ListingRest(j, phase, ids, rest);
      var least := Earliest(j, rest);
      ListingStep(j, phase, ids, rest, least);
      ids := ids + [least];
      rest := rest - {least};
    }
    ListingDone(j, phase, limit, ids, rest);
    ListedByAge(j, phase, limit, ids);
  }

  lemma ListedByAge(j: Entries, phase: Phase, limit: nat, ids: seq<int>)
    requires OldestFirst(j, phase, limit, ids) && forall id :: id in j ==> j[id].action.id == id
    ensures ByAge(j, ids)
  {
  }

  method Earliest(j: Entries, candidates: set<int>) returns (least: int)
    requires candidates != {} && forall id :: id in candidates ==> id in j
    requires forall id :: id in j ==> j[id].action.id == id
    ensures least in candidates && forall id :: id in candidates ==> Before(j[least], j[id])
  {
    least := Pick(candidates);
    var rest := candidates - {least};
    while rest != {}
      invariant (forall id :: id in rest ==> id in candidates) && least in candidates
      invariant forall id :: id in candidates && id !in rest ==> Before(j[least], j[id])
      decreases |rest|
    {
      var id := Pick(rest);
      var earlier := j[id].startedAt < j[least].startedAt || (j[id].startedAt == j[least].startedAt && id < least);
      if earlier {
        least := id;
      }
      rest := rest - {id};
    }
  }

  ghost predicate OthersUnchanged(before: Entries, after: Entries, id: int) {
    && (forall k :: k in before && k != id ==> k in after && after[k] == before[k])
    && (forall k :: k in after && k != id ==> k in before)
  }

  /** The entry `after` is what it was `before`, or what recovery makes of an interrupted one. */
  ghost predicate RecoveredFrom(before: Record, after: Record) {
    || after == before
    || (before.phase == Phase.Executing && after == TerminalRecord(before, RecoveredResult(before), after.updatedAt))
  }

  /** Recovery of `before` has got to `after`; the entries in `rest` are still executing and untouched. */
  ghost predicate PartlyRecovered(l: Limits, before: Entries, after: Entries, rest: set<int>) {
    && after.Keys == before.Keys
    && (forall id :: id in rest <==> id in after && after[id].phase == Phase.Executing)
    && (forall id :: id in rest ==> after[id] == before[id] && FileSize(l, after[id]) <= MAX_RECORD_SIZE)
    && (forall id :: id in after ==> RecoveredFrom(before[id], after[id]))
  }

  lemma RecoveryStarts(l: Limits, j: Entries)
    requires Loadable(l, j)
    ensures PartlyRecovered(l, j, j, set id | id in j && j[id].phase == Phase.Executing)
  {
  }

  lemma RecoveryGoesOn(l: Limits, before: Entries, after: Entries, rest: set<int>, id: int, at: int)
    requires PartlyRecovered(l, before, after, rest) && id in rest && id in after
    ensures PartlyRecovered(
              l, before, after[id := TerminalRecord(after[id], RecoveredResult(after[id]), at)], rest - {id})
  {
  }

  lemma RecoveryState(l: Limits, before: Entries, after: Entries, rest: set<int>)
    requires PartlyRecovered(l, before, after, rest)
    ensures after.Keys == before.Keys
    ensures forall id :: id in after ==> RecoveredFrom(before[id], after[id])
    ensures forall id :: id in rest <==> id in after && after[id].phase == Phase.Executing
    ensures forall id :: id in rest ==> FileSize(l, after[id]) <= MAX_RECORD_SIZE
  {
  }

  lemma NothingRecovered(j: Entries)
    ensures forall id :: id in j ==> RecoveredFrom(j[id], j[id])
  {
  }

  ghost predicate Subset(after: Entries, before: Entries) {
    forall id :: id in after ==> id in before && after[id] == before[id]
  }

  lemma SubsetAt(after: Entries, before: Entries, id: int)
    requires Subset(after, before) && id in after
    ensures id in before && after[id] == before[id]
  {
  }

  lemma RemoveOne(j: Entries, id: int)
    requires id in j
    ensures |j - {id}| + 1 == |j|
  {
    assert (j - {id}).Keys == j.Keys - {id};
  }

  lemma ExtendRun(l: Limits, worlds: seq<World>, steps: seq<Step>, s: Step)
    requires IsRun(l, worlds, steps) && Enabled(l, worlds[|worlds| - 1], s)
    ensures IsRun(l, worlds + [Apply(l, worlds[|worlds| - 1], s)], steps + [s])
  {
  }

  /** The journal has no room for the new record of an action meant for this agent. */
  ghost predicate Refused(l: Limits, j: Entries, agent: string, r: Record) {
    r == NewRecord(r.action, r.startedAt) && MeantFor(r.action, agent) && r.action.id !in j && !HasCapacity(l, j, r)
  }

  /** Reporting finished actions does not touch accepted ones. */
  lemma AcceptedSurvive(before: Entries, after: Entries, finished: seq<int>)
    requires OldestFirst(before, Phase.Terminal, 8, finished) && Subset(after, before)
    requires forall id :: id in before && id !in finished ==> id in after
    ensures forall id :: id in before && before[id].phase == Phase.Accepted ==> id in after && after[id] == before[id]
  {
  }

  ghost function NoResult(): Result {
    Result(0, "", Other, None, "")
  }

  /** An event of the given kind occurred after `before`. */
  ghost predicate Since(before: seq<Event>, after: seq<Event>, kind: Event -> bool) {
    before <= after && exists k :: |before| <= k < |after| && kind(after[k])
  }

  function Execution(id: int): Event -> bool { (e: Event) => Executes(e, id) }

  function Deletion(id: int): Event -> bool { (e: Event) => e == Deleted(id) }

  lemma DeletedSince(start: seq<Event>, before: seq<Event>, after: seq<Event>, ids: seq<int>)
    requires before <= after && forall i :: 0 <= i < |ids| ==> Since(start, before, Deletion(ids[i]))
    ensures forall i :: 0 <= i < |ids| ==> Since(start, after, Deletion(ids[i]))
  {
    hide Since;
    forall i | 0 <= i < |ids| ensures Since(start, after, Deletion(ids[i])) {
      SinceLater(start, before, after, Deletion(ids[i]));
    }
  }

  lemma ExecutedSince(start: seq<Event>, from: seq<Event>, before: seq<Event>, after: seq<Event>, ids: seq<int>)
    requires start <= from && before <= after && forall i :: 0 <= i < |ids| ==> Since(from, before, Execution(ids[i]))
    ensures forall i :: 0 <= i < |ids| ==> Since(start, after, Execution(ids[i]))
  {
    hide Since;
    forall i | 0 <= i < |ids| ensures Since(start, after, Execution(ids[i])) {
      SinceLater(from, before, after, Execution(ids[i]));
      SinceEarlier(start, from, after, Execution(ids[i]));
    }
  }

  /** Each of the actions was executed after `before`, unless the journal holds it already. */
  ghost predicate AllRun(before: seq<Event>, after: seq<Event>, j: Entries, taken: seq<Pickup>) {
    forall i :: 0 <= i < |taken| ==> taken[i].action.id in j || Since(before, after, Execution(taken[i].action.id))
  }

  lemma RunEarlier(earlier: seq<Event>, before: seq<Event>, after: seq<Event>, j: Entries, taken: seq<Pickup>)
    requires AllRun(before, after, j, taken) && earlier <= before
    ensures AllRun(earlier, after, j, taken)
  {
    hide Since, Execution;
    forall i | 0 <= i < |taken| && taken[i].action.id !in j
      ensures Since(earlier, after, Execution(taken[i].action.id))
    {
      SinceEarlier(earlier, before, after, Execution(taken[i].action.id));
    }
  }

  lemma OneMoreRun(
    before: seq<Event>, after: seq<Event>, later: seq<Event>, j: Entries, taken: seq<Pickup>, p: Pickup)
    requires AllRun(before, after, j, taken) && before <= after <= later
    requires p.action.id in j || Since(after, later, Execution(p.action.id))
    ensures AllRun(before, later, j, taken + [p])
  {
    hide Since, Execution;
    forall i | 0 <= i < |taken| && taken[i].action.id !in j
      ensures Since(before, later, Execution(taken[i].action.id))
    {
      SinceLater(before, after, later, Execution(taken[i].action.id));
    }
    if p.action.id !in j {
      SinceEarlier(before, after, later, Execution(p.action.id));
    }
  }

  /** The events of an action that is run without a fault. */
  ghost function Course(id: int, call: Event, result: Result): seq<Event> {
    [RunningReported(id), Marked(id), call, Completed(id, result), Confirmed(id, result), Deleted(id)]
  }

  lemma CourseExecutes(start: seq<Event>, before: seq<Event>, after: seq<Event>, id: int, call: Event, result: Result)
    requires start <= before && after == before + Course(id, call, result) && Executes(call, id)
    ensures Since(start, after, Execution(id))
  {
    assert Execution(id)(after[|before| + 2]);
  }

  lemma LastIsSince(start: seq<Event>, before: seq<Event>, after: seq<Event>, kind: Event -> bool)
    requires start <= before <= after && |before| < |after| && kind(after[|after| - 1])
    ensures Since(start, after, kind)
  {
  }

  lemma SinceLater(before: seq<Event>, after: seq<Event>, later: seq<Event>, kind: Event -> bool)
    requires Since(before, after, kind) && after <= later
    ensures Since(before, later, kind)
  {
    var k :| |before| <= k < |after| && kind(after[k]);
    assert kind(later[k]);
  }

  lemma SinceEarlier(earlier: seq<Event>, before: seq<Event>, after: seq<Event>, kind: Event -> bool)
    requires Since(before, after, kind) && earlier <= before
    ensures Since(earlier, after, kind)
  {
  }

  // ---------------------------------------------------------------------------------------------
  // What is taken from the stage.
  // ---------------------------------------------------------------------------------------------

  /** An action taken from the stage at time `now`; it is the `at`-th id this process counted as handled. */
  datatype Pickup = Pickup(action: Action, now: int, at: nat)

  /** What was taken had been offered for this agent, was not expired, was not remembered as handled when it
      was taken, and counts as handled since. */
  ghost predicate PickupOk(max: int, agent: string, offered: set<Action>, handled: seq<int>, p: Pickup) {
    && p.action in offered && MeantFor(p.action, agent) && !Expired(p.action, p.now) && p.action.id > 0
    && p.at < |handled| && handled[p.at] == p.action.id
    && p.action.id !in Stage.RememberAll(max, [], handled[..p.at])
  }

  /** Everything staged was offered. */
  ghost predicate FromOffers(items: map<int, Stage.Staged>, offered: set<Action>) {
    forall id :: id in items ==> items[id].action in offered
  }

  lemma FromOffersAt(items: map<int, Stage.Staged>, offered: set<Action>, id: int)
    requires FromOffers(items, offered) && id in items
    ensures items[id].action in offered
  {
  }

  ghost predicate PickupsOk(max: int, agent: string, offered: set<Action>, handled: seq<int>, pickups: seq<Pickup>) {
    && (forall i :: 0 <= i < |pickups| ==> PickupOk(max, agent, offered, handled, pickups[i]))
    && (forall i, j :: 0 <= i < j < |pickups| ==> pickups[i].at < pickups[j].at)
  }

  lemma PickupsStay(
    max: int, agent: string, offered: set<Action>, handled: seq<int>, pickups: seq<Pickup>, offered': set<Action>,
    handled': seq<int>)
    requires PickupsOk(max, agent, offered, handled, pickups)
    requires handled <= handled' && forall a :: a in offered ==> a in offered'
    ensures PickupsOk(max, agent, offered', handled', pickups)
  {
    forall i | 0 <= i < |pickups| ensures PickupOk(max, agent, offered', handled', pickups[i]) {
      assert PickupOk(max, agent, offered, handled, pickups[i]);
      assert handled'[..pickups[i].at] == handled[..pickups[i].at];
    }
  }

  lemma PickupsGrow(
    max: int, agent: string, offered: set<Action>, handled: seq<int>, pickups: seq<Pickup>, a: Action, now: int)
    requires PickupsOk(max, agent, offered, handled, pickups)
    requires a in offered && MeantFor(a, agent) && !Expired(a, now) && a.id > 0
    requires a.id !in Stage.RememberAll(max, [], handled)
    ensures PickupsOk(max, agent, offered, handled + [a.id], pickups + [Pickup(a, now, |handled|)])
  {
    hide PickupOk;
    PickupsStay(max, agent, offered, handled, pickups, offered, handled + [a.id]);
    NewPickup(max, agent, offered, handled, a, now);
    PickupsBefore(max, agent, offered, handled, pickups);
  }

  lemma NewPickup(max: int, agent: string, offered: set<Action>, handled: seq<int>, a: Action, now: int)
    requires a in offered && MeantFor(a, agent) && !Expired(a, now) && a.id > 0
    requires a.id !in Stage.RememberAll(max, [], handled)
    ensures PickupOk(max, agent, offered, handled + [a.id], Pickup(a, now, |handled|))
  {
    assert (handled + [a.id])[..|handled|] == handled;
  }

  lemma PickupsBefore(max: int, agent: string, offered: set<Action>, handled: seq<int>, pickups: seq<Pickup>)
    requires PickupsOk(max, agent, offered, handled, pickups)
    ensures forall i :: 0 <= i < |pickups| ==> pickups[i].at < |handled|
  {
  }

  /** Within one process, an action is taken up a second time only after at least as many ids new to the
      handled queue as it holds have followed the first time. */
  lemma {:induction false} TakenAgainOnlyWhenForgotten(
    max: int, agent: string, offered: set<Action>, handled: seq<int>, pickups: seq<Pickup>, i: nat, j: nat)
    requires 0 < max && PickupsOk(max, agent, offered, handled, pickups)
    requires i < j < |pickups| && pickups[i].action.id == pickups[j].action.id
    ensures var first, again := pickups[i].at, pickups[j].at;
            && first < again < |handled|
            && Stage.Additions(max, Stage.RememberAll(max, [], handled[..first + 1]), handled[first + 1..again]) >= max
  {
    var id, first, again := pickups[i].action.id, pickups[i].at, pickups[j].at;
    assert PickupOk(max, agent, offered, handled, pickups[i]) && PickupOk(max, agent, offered, handled, pickups[j]);
    hide Stage.RememberAll, Stage.Additions, PickupsOk, PickupOk;
    var before, later := handled[..first], handled[first + 1..again];
    assert handled[..first + 1] == before + [id];
    assert handled[..again] == handled[..first + 1] + later;
    Stage.RememberAllAppend(max, [], handled[..first + 1], later);
    Stage.RememberAllStep(max, [], before, id);
    Stage.RememberAllFits(max, [], before);
    Stage.RememberFits(max, Stage.RememberAll(max, [], before), id);
    var start := Stage.RememberAll(max, [], handled[..first + 1]);
    if Stage.Additions(max, start, later) < max {
      Stage.RememberedAfterFew(max, start, id, later);
    }
  }

  /** The accepted records are the same, so the oldest of them are. */
  lemma OldestAccepted(before: Entries, after: Entries, ids: seq<int>)
    requires OldestFirst(after, Phase.Accepted, 8, ids) && Subset(after, before)
    requires forall id :: id in before && before[id].phase == Phase.Accepted ==> id in after && after[id] == before[id]
    ensures OldestFirst(before, Phase.Accepted, 8, ids)
  {
    hide Before;
    forall i | 0 <= i < |ids| ensures ids[i] in before && before[ids[i]] == after[ids[i]] {
      SubsetAt(after, before, ids[i]);
    }
    forall id | id in before && before[id].phase == Phase.Accepted && id !in ids
      ensures |ids| == 8 && forall i :: 0 <= i < |ids| ==> Before(before[ids[i]], before[id])
    {
      assert id in after && after[id] == before[id];
    }
  }

  /** The actions whose calls took effect, in order. */
  ghost function Effects(log: seq<Event>): seq<int> {
    if log == [] then []
    else
      var e := log[|log| - 1];
      Effects(log[..|log| - 1]) + if e.Executed? && e.effect then [e.id] else []
  }

  lemma EffectsStep(log: seq<Event>, e: Event)
    ensures Effects(log + [e]) == Effects(log) + if e.Executed? && e.effect then [e.id] else []
  {
    assert (log + [e])[..|log|] == log;
  }

  lemma EffectsGrow(l: Limits, w: World, s: Step)
    requires Enabled(l, w, s)
    ensures Effects(Apply(l, w, s).log) ==
            Effects(w.log) + if s.Execute? && TakesEffect(w.journal[s.id], s.permitted) then [s.id] else []
  {
    var w' := Apply(l, w, s);
    if |w'.log| > |w.log| {
      EffectsStep(w.log, w'.log[|w.log|]);
      assert w'.log == w.log + [w'.log[|w.log|]];
    }
  }

  class Executor {
    const l: Limits
    const agent: string
    const stageSize: int
    var stage: Stage.Stage
    var journal: Entries
    var pc: Pc
    /** The actions that were really carried out, in order, over all processes. */
    ghost var performed: seq<int>
    /** The run so far. */
    ghost var worlds: seq<World>
    ghost var steps: seq<Step>
    /** How often the server, the disk or an action let the executor down, or something stopped it. */
    ghost var faults: nat
    /** In this process: everything the server offered, the ids that came to count as handled, and the
        actions taken from the stage. */
    ghost var offered: set<Action>
    ghost var handled: seq<int>
    ghost var pickups: seq<Pickup>

    ghost predicate Valid()
      reads this, stage
    {
      InRun() && stage.Valid() && Recalled()
    }

    /** The stage is what offers, handled ids and pickups have made of it. */
    ghost predicate Recalled()
      reads `stage, `offered, `handled, `pickups, stage
    {
      && stage.handledMax > 0
      && stage.handledOrder == Stage.RememberAll(stage.handledMax, [], handled)
      && (forall id :: id in stage.handledSet <==> id in stage.handledOrder)
      && FromOffers(stage.items, offered)
      && PickupsOk(stage.handledMax, agent, offered, handled, pickups)
    }

    /** The fields are where the recorded run has got to. */
    ghost predicate InRun()
      reads `journal, `pc, `worlds, `steps, `performed
    {
      && IsRun(l, worlds, steps)
      && performed == Effects(Now().log)
      && Now().journal == journal && Now().pc == pc
      && Consistent(Now())
    }

    /** Nothing is taken back: neither events nor faults. */
    ghost predicate Grown(log: seq<Event>, count: nat)
      reads `worlds, `faults
    {
      log <= Now().log && count <= faults
    }

    ghost function Now(): World
      reads `worlds
    {
      if |worlds| == 0 then World(map[], Down, []) else worlds[|worlds| - 1]
    }

    /** A fresh agent on an empty journal. */
    constructor (limits: Limits, id: string, size: int)
      ensures Valid() && fresh(stage)
      ensures l == limits && agent == id && pc == Idle && journal == map[]
    {
      l, agent, stageSize := limits, id, size;
      stage := new Stage.Stage(size);
      journal, pc := map[], Idle;
      worlds, steps, faults, performed := [World(map[], Down, [])], [], 0, [];
      offered, handled, pickups := {}, [], [];
      new;
      Take(Boot);
    }

    /** Extends the run by one step. */
    ghost method Take(s: Step)
      requires IsRun(l, worlds, steps) && Consistent(Now()) && Enabled(l, Now(), s)
      modifies this`worlds, this`steps
      ensures IsRun(l, worlds, steps) && Consistent(Now())
      ensures worlds == old(worlds) + [Apply(l, old(Now()), s)] && steps == old(steps) + [s]
      ensures !s.Execute? ==> Effects(Now().log) == old(Effects(Now().log))
      ensures s.Execute? ==>
                Effects(Now().log) ==
                old(Effects(Now().log)) + if TakesEffect(old(Now()).journal[s.id], s.permitted) then [s.id] else []
    {
      EffectsGrow(l, Now(), s);
      ExtendRun(l, worlds, steps, s);
      StepKeepsConsistent(l, Now(), s);
      worlds, steps := worlds + [Apply(l, Now(), s)], steps + [s];
    }

    /** The process stops here; only what is in the journal survives. */
    method Stop()
      requires InRun()
      modifies `journal, `pc, `worlds, `steps
      ensures InRun() && pc == Down && journal == old(journal) && old(worlds) <= worlds
      ensures Now().log == old(Now().log)
    {
      Take(Crash);
      pc := Down;
    }

    /** `writeLocked`: the file of `id` is replaced as step `s` of the run. An error stops the executor whether
        or not the file was replaced. */
    method Write(ghost s: Step, id: int, record: Record, next: Pc) returns (ok: bool)
      requires InRun() && Enabled(l, Now(), s) && !s.Execute?
      requires var w := Apply(l, Now(), s); w.journal == journal[id := record] && w.pc == next
      modifies `journal, `pc, `worlds, `steps, `faults
      ensures InRun() && old(worlds) <= worlds && Grown(old(Now().log), old(faults))
      ensures ok ==>
                && pc == next && journal == old(journal)[id := record] && faults == old(faults)
                && Now().log == Apply(l, old(Now()), s).log
      ensures !ok ==> pc == Down && faults > old(faults)
    {
      hide InRun, Apply, Enabled;
      ok := *;
      var landed: bool := *;
      if ok || landed {
        Land(s, id, record, next);
      }
      if !ok {
        faults := faults + 1;
        Stop();
      }
    }

    method Land(ghost s: Step, id: int, record: Record, next: Pc)
      requires InRun() && Enabled(l, Now(), s) && !s.Execute?
      requires var w := Apply(l, Now(), s); w.journal == journal[id := record] && w.pc == next
      modifies `journal, `pc, `worlds, `steps
      ensures InRun() && old(worlds) <= worlds && old(Now().log) <= Now().log
      ensures pc == next && journal == old(journal)[id := record] && Now().log == Apply(l, old(Now()), s).log
    {
      StepExtendsLog(s);
      hide Effects, IsRun, Consistent, Apply, Enabled;
      Take(s);
      journal, pc := journal[id := record], next;
    }

    lemma StepExtendsLog(s: Step)
      requires Enabled(l, Now(), s)
      ensures Now().log <= Apply(l, Now(), s).log
    {
      LogGrowsByOne(l, Now(), s);
    }

    method Begin(a: Action, at: int) returns (r: BeginResult)
      requires InRun() && pc == Idle
      modifies `journal, `pc, `worlds, `steps, `faults
      ensures InRun() && old(worlds) <= worlds && Grown(old(Now().log), old(faults))
      ensures r.Entered? ==>
                && pc == Idle && r.record == NewRecord(a, at) && a.id !in old(journal)
                && journal == old(journal)[a.id := r.record]
      ensures !(a.id > 0 && a.kind != "" && a.agent != "" && a.status != Unsupported && a.requested) ==> r == WriteError
      ensures r == EntryExists ==> a.id in old(journal)
      ensures a.id in old(journal) ==> r in {EntryExists, WriteError}
      ensures r == EntryExists || r == NoCapacity ==>
                pc == Idle && journal == old(journal) && worlds == old(worlds) && faults == old(faults)
      ensures r.Entered? ==> Now().log == old(Now().log) + [Begun(a.id, a, at)]
      ensures r == NoCapacity ==> a.id !in journal && !HasCapacity(l, journal, NewRecord(a, at))
      ensures r == WriteError ==>
                && pc == Down
                && (|| faults > old(faults) || !WellFormed(a)
                    || (a.id !in old(journal) && !Loadable(l, old(journal))))
    {
      hide Effects, IsRun, Agrees, LifeOf, OneAtATime, ValidRecord, TakesEffect, Loadable, HasCapacity;
      var normal := CheckAction(a);
      if !normal {
        Stop();
        return WriteError;
      }
      if a.id in journal {
        return EntryExists;
      }
      var loadable := Load(l, journal);
      if !loadable {
        Stop();
        return WriteError;
      }
      var record := NewRecord(a, at);
      var fits := EnsureCapacity(l, journal, record);
      if !fits {
        return NoCapacity;
      }
      var ok := Write(ResponseProtocol.Begin(a, at), a.id, record, Idle);
      r := if ok then Entered(record) else WriteError;
    }

    /** Rewrites the entry of `id` as executing. A write error stops the executor whether or not
        the file was replaced. */
    method MarkExecuting(id: int, at: int) returns (ok: bool)
      requires InRun() && pc == Announced(id)
      modifies `journal, `pc, `worlds, `steps, `faults
      ensures InRun() && old(worlds) <= worlds && Grown(old(Now().log), old(faults))
      ensures ok ==> Now().log == old(Now().log) + [Marked(id)]
      ensures ok ==>
                && pc == MayExecute(id) && id in old(journal)
                && journal == old(journal)[id := old(journal)[id].(phase := Executing, updatedAt := at)]
      ensures !ok ==>
                && pc == Down && id in old(journal)
                && (faults > old(faults) || l.size(ExecutingRecord(old(journal)[id], at)) > MAX_RECORD_SIZE)
    {
      assert Agrees(journal, id, LifeOf(Now().log, id));
      hide Effects, IsRun, Agrees, LifeOf, OneAtATime, ValidRecord, Consistent;
      var record := ExecutingRecord(journal[id], at);
      if l.size(record) > MAX_RECORD_SIZE {
        Stop();
        return false;
      }
      ok := Write(ResponseProtocol.MarkExecuting(id, at), id, record, MayExecute(id));
    }

    /** `Execute` at time `at`: an action that had expired when it was accepted, or is not permitted, fails
        without effect; any other takes its opaque effect. */
    method Execute(id: int, permitted: bool, at: int) returns (outcome: Result, ghost call: Event)
      requires InRun() && pc == MayExecute(id)
      modifies `journal, `pc, `worlds, `steps, `performed, `faults
      ensures InRun() && old(worlds) <= worlds && Grown(old(Now().log), old(faults))
      ensures journal == old(journal) && pc == Holds(id, outcome) && id in journal
      ensures call.Executed? && call == Executed(id, permitted, call.effect, at, outcome)
      ensures var r := journal[id];
              call.effect <==> permitted && (r.action.expiresAt.None? || r.startedAt < r.action.expiresAt.value)
      ensures Now().log == old(Now().log) + [call]
      ensures performed == old(performed) + if call.effect then [id] else []
      ensures !call.effect ==> IsRefusal(outcome)
      ensures faults == old(faults)
    {
      assert Agrees(journal, id, LifeOf(Now().log, id));
      var record := journal[id];
      if !permitted {
        outcome := Result(id, record.action.agent, Failed, None, "action is not allowed here");
      } else if record.action.expiresAt.Some? && record.action.expiresAt.value <= record.startedAt {
        outcome := Result(id, record.action.agent, Failed, None, "action expired");
      } else {
        outcome := Perform(id);
      }
      call := Executed(id, permitted, TakesEffect(record, permitted), at, outcome);
      Take(ResponseProtocol.Execute(id, outcome, permitted, at));
      pc := Holds(id, outcome);
    }

    /** The action itself, whatever it does. */
    method Perform(id: int) returns (outcome: Result)
      modifies `performed
      ensures performed == old(performed) + [id]
    {
      performed := performed + [id];
      outcome := *;
    }

    method Complete(id: int, outcome: Result, at: int) returns (ok: bool)
      requires InRun() && pc == Holds(id, outcome)
      modifies `journal, `pc, `worlds, `steps, `faults
      ensures InRun() && old(worlds) <= worlds && Grown(old(Now().log), old(faults))
      ensures ok ==>
                && pc == Idle && id in old(journal) && id in journal && journal[id].result.Some?
                && Reports(old(journal)[id].action, outcome, journal[id].result.value)
                && journal[id] == old(journal)[id].(phase := Terminal, result := journal[id].result, updatedAt := at)
                && journal == old(journal)[id := journal[id]]
                && Now().log == old(Now().log) + [Completed(id, journal[id].result.value)]
      ensures !ok ==>
                && pc == Down && id in old(journal)
                && (|| faults > old(faults) || outcome.status == Other
                    || l.size(TerminalRecord(old(journal)[id], StoredResult(old(journal)[id], outcome), at)) >
                         MAX_RECORD_SIZE)
    {
      assert Agrees(journal, id, LifeOf(Now().log, id));
      hide Effects, IsRun, Agrees, LifeOf, OneAtATime, ValidRecord, TakesEffect, Reports, StoredResult, Consistent;
      if outcome.status == Other {
        Stop();
        return false;
      }
      BoundedReports(journal[id].action, outcome);
      var record := TerminalRecord(journal[id], StoredResult(journal[id], outcome), at);
      if l.size(record) > MAX_RECORD_SIZE {
        Stop();
        return false;
      }
      ok := Write(ResponseProtocol.Complete(id, at), id, record, Idle);
    }

    method Delete(id: int) returns (ok: bool)
      requires InRun() && pc == MayDelete(id)
      modifies `journal, `pc, `worlds, `steps, `faults
      ensures InRun() && old(worlds) <= worlds && Grown(old(Now().log), old(faults))
      ensures ok ==> pc == Idle && journal == old(journal) - {id} && Now().log == old(Now().log) + [Deleted(id)]
      ensures !ok ==> pc == Down && faults > old(faults)
    {
      hide Effects, IsRun, Agrees, LifeOf, OneAtATime, ValidRecord, TakesEffect;
      ok := *;
      var landed: bool := *;
      if ok || landed {
        Take(ResponseProtocol.Delete(id));
        journal, pc := journal - {id}, Idle;
      }
      if !ok {
        faults := faults + 1;
        Stop();
      }
    }

    /** `reportTerminalResponseAction`: `delivered` says that the server accepted the result and
        the entry is gone; otherwise the entry is untouched. */
    method ReportTerminal(id: int) returns (ok: bool, delivered: bool)
      requires InRun() && pc == Idle && id in journal && journal[id].phase == Phase.Terminal
      modifies `journal, `pc, `worlds, `steps, `faults
      ensures InRun() && old(worlds) <= worlds && Grown(old(Now().log), old(faults))
      ensures ok ==> pc == Idle && journal == if delivered then old(journal) - {id} else old(journal)
      ensures delivered ==>
                && ok && old(journal)[id].result.Some?
                && Now().log == old(Now().log) + [Confirmed(id, old(journal)[id].result.value), Deleted(id)]
      ensures !delivered ==> faults > old(faults)
      ensures !ok ==> pc == Down && faults > old(faults)
    {
      assert ValidRecord(journal[id]);
      hide Effects, IsRun, Consistent;
      var reported: bool := *;
      if !reported {
        faults := faults + 1;
        return true, false;
      }
      Take(ResponseProtocol.ReportTerminal(id));
      pc := MayDelete(id);
      ok := Delete(id);
      delivered := ok;
    }

    /** `executeAcceptedResponseAction`: nothing happens unless the server first accepts the running
        report; then the action is marked, executed, completed and reported. */
    method ExecuteAccepted(id: int) returns (ok: bool, ghost call: Event, ghost result: Result)
      requires InRun() && pc == Idle && id in journal && journal[id].phase == Phase.Accepted
      modifies `journal, `pc, `worlds, `steps, `performed, `faults
      ensures InRun() && old(worlds) <= worlds && Grown(old(Now().log), old(faults))
      ensures ok ==> pc == Idle && OthersUnchanged(old(journal), journal, id)
      ensures ok && faults == old(faults) ==>
                && journal == old(journal) - {id}
                && Now().log == old(Now().log) + Course(id, call, result) && Executes(call, id)
                && Reports(old(journal)[id].action, call.outcome, result)
      ensures !ok ==> pc == Down && faults > old(faults)
    {
      call, result := Deleted(id), NoResult();
      var reported: bool := *;
      if !reported {
        faults := faults + 1;
        return true, call, result;
      }
      Take(ReportRunning(id));
      pc := Announced(id);
      ok, call, result := Run(id);
    }

    /** The part of `executeAcceptedResponseAction` after the running report was accepted. */
    method Run(id: int) returns (ok: bool, ghost call: Event, ghost result: Result)
      requires InRun() && pc == Announced(id)
      modifies `journal, `pc, `worlds, `steps, `performed, `faults
      ensures InRun() && old(worlds) <= worlds && Grown(old(Now().log), old(faults))
      ensures ok ==> pc == Idle && OthersUnchanged(old(journal), journal, id)
      ensures ok && faults == old(faults) ==>
                && journal == old(journal) - {id}
                && Executes(call, id) && id in old(journal) && Reports(old(journal)[id].action, call.outcome, result)
                && Now().log == old(Now().log) +
                     [Marked(id), call, Completed(id, result), Confirmed(id, result), Deleted(id)]
      ensures !ok ==> pc == Down && faults > old(faults)
    {
      hide InRun;
      var at: int := *;
      call, result := Deleted(id), NoResult();
      ok := MarkExecuting(id, at);
      if !ok {
        faults := faults + 1;
        return;
      }
      var permitted: bool := *;
      var now: int := *;
      var outcome;
      outcome, call := Execute(id, permitted, now);
      ok, result := Finish(id, outcome);
    }

    method Finish(id: int, outcome: Result) returns (ok: bool, ghost result: Result)
      requires InRun() && pc == Holds(id, outcome)
      modifies `journal, `pc, `worlds, `steps, `faults
      ensures InRun() && old(worlds) <= worlds && Grown(old(Now().log), old(faults))
      ensures ok ==> pc == Idle && OthersUnchanged(old(journal), journal, id)
      ensures ok && faults == old(faults) ==>
                && journal == old(journal) - {id}
                && id in old(journal) && Reports(old(journal)[id].action, outcome, result)
                && Now().log == old(Now().log) + [Completed(id, result), Confirmed(id, result), Deleted(id)]
      ensures !ok ==> pc == Down && faults > old(faults)
    {
      hide InRun;
      var at: int := *;
      result := NoResult();
      ok := Complete(id, outcome, at);
      if !ok {
        faults := faults + 1;
        return;
      }
      result := journal[id].result.value;
      var delivered;
      ok, delivered := ReportTerminal(id);
    }

    /** The poller stages whatever the server offers, at any time. It shares nothing with the journal,
        so it is interleaved only where the stage is used. */
    method Poll()
      requires Valid()
      modifies `offered, stage
      ensures Valid() && forall a :: a in old(offered) ==> a in offered
      ensures stage.handledSet == old(stage.handledSet)
    {
      hide InRun, Stage.QueueOk, Stage.HandledOk, Stage.Eligible, Stage.RememberAll, PickupsOk;
      var actions: seq<Action> := *;
      var now: int := *;
      var _ := stage.Offer(now, actions, agent);
      ghost var known := offered;
      offered := known + set a | a in actions;
      PickupsStay(stage.handledMax, agent, known, handled, pickups, offered, handled);
    }

    /** One pass of the loop: report what is finished, run what was accepted earlier, then take up to
        eight staged actions. */
    method ProcessResponseActions()
      returns (ok: bool, ghost finished: seq<int>, ghost resumed: seq<int>, ghost taken: seq<Pickup>,
               ghost refused: Option<Record>)
      requires Valid() && pc == Idle
      modifies `journal, `pc, `worlds, `steps, `performed, `faults, `offered, `handled, `pickups, stage
      ensures Valid() && old(worlds) <= worlds && Grown(old(Now().log), old(faults))
      ensures ok ==> OldestFirst(old(journal), Phase.Terminal, 8, finished)
      ensures ok && faults == old(faults) ==>
                && (forall i :: 0 <= i < |finished| ==> Since(old(Now().log), Now().log, Deletion(finished[i])))
                && (forall i :: 0 <= i < |resumed| ==> Since(old(Now().log), Now().log, Execution(resumed[i])))
                && OldestFirst(old(journal), Phase.Accepted, 8, resumed)
                && AllRun(old(Now().log), Now().log, journal, taken)
                && (|| |taken| == 8
                    || (refused.None? && stage.items == map[])
                    || (refused.Some? && Refused(l, journal, agent, refused.value)))
      ensures ok ==> pc == Idle && pickups == old(pickups) + taken
      ensures !ok ==> pc == Down && faults > old(faults)
    {
      hide InRun, Recalled, Loadable, Since, Refused, OldestFirst, AllRun, Stage.QueueOk, Stage.HandledOk;
      finished, resumed, taken, refused := [], [], [], None;
      var readable: bool := *;
      var loadable := Load(l, journal);
      if !readable || !loadable {
        faults := faults + 1;
        Stop();
        return false, finished, resumed, taken, refused;
      }
      var pending: bool;
      ok, pending, finished := ReportFinished();
      if !ok || pending { return; }
      ghost var reported, left := Now().log, journal;
      AcceptedSurvive(old(journal), journal, finished);
      ok, resumed, taken, refused := RunPending();
      if ok && faults == old(faults) {
        OldestAccepted(old(journal), left, resumed);
        RunEarlier(old(Now().log), reported, Now().log, journal, taken);
        DeletedSince(old(Now().log), reported, Now().log, finished);
        ExecutedSince(old(Now().log), reported, Now().log, Now().log, resumed);
      }
    }

    /** The second and third part of a pass. */
    method RunPending()
      returns (ok: bool, ghost resumed: seq<int>, ghost taken: seq<Pickup>, ghost refused: Option<Record>)
      requires Valid() && pc == Idle
      modifies `journal, `pc, `worlds, `steps, `performed, `faults, `offered, `handled, `pickups, stage
      ensures Valid() && old(worlds) <= worlds && Grown(old(Now().log), old(faults))
      ensures ok ==> OldestFirst(old(journal), Phase.Accepted, 8, resumed)
      ensures ok && faults == old(faults) ==>
                && (forall i :: 0 <= i < |resumed| ==> Since(old(Now().log), Now().log, Execution(resumed[i])))
                && AllRun(old(Now().log), Now().log, journal, taken)
                && (|| |taken| == 8
                    || (refused.None? && stage.items == map[])
                    || (refused.Some? && Refused(l, journal, agent, refused.value)))
      ensures ok ==> pc == Idle && pickups == old(pickups) + taken
      ensures !ok ==> pc == Down && faults > old(faults)
    {
      hide InRun, Recalled, Loadable, Since, Refused, OldestFirst, AllRun, Stage.QueueOk, Stage.HandledOk;
      resumed, taken, refused := [], [], None;
      var readable: bool := *;
      var loadable := Load(l, journal);
      if !readable || !loadable {
        faults := faults + 1;
        Stop();
        return false, resumed, taken, refused;
      }
      ok, resumed := ResumeAccepted();
      if !ok { return; }
      ghost var executed := Now().log;
      ok, taken, refused := TakeStaged();
      if ok && faults == old(faults) {
        RunEarlier(old(Now().log), executed, Now().log, journal, taken);
        ExecutedSince(old(Now().log), old(Now().log), executed, Now().log, resumed);
      }
    }

    /** Reports terminal records, oldest first, until one cannot be delivered. A delivered record is
        gone and nothing else changes. */
    method ReportFinished() returns (ok: bool, pending: bool, ghost ids: seq<int>)
      requires InRun() && pc == Idle
      modifies `journal, `pc, `worlds, `steps, `faults
      ensures InRun() && old(worlds) <= worlds && Grown(old(Now().log), old(faults))
      ensures ok ==> pc == Idle && Subset(journal, old(journal))
      ensures ok && !pending ==>
                || |journal| + 8 == |old(journal)|
                || (forall id :: id in journal ==> journal[id].phase != Phase.Terminal)
      ensures OldestFirst(old(journal), Phase.Terminal, 8, ids)
      ensures ok && !pending ==> forall i :: 0 <= i < |ids| ==> Since(old(Now().log), Now().log, Deletion(ids[i]))
      ensures forall id :: id in old(journal) && ok && id !in ids ==> id in journal
      ensures pending ==> faults > old(faults)
      ensures !ok ==> pc == Down && faults > old(faults)
    {
      var terminal := Oldest(journal, Phase.Terminal, 8);
      ids := terminal;
      ok, pending := ReportAll(terminal);
    }

    method ReportAll(ids: seq<int>) returns (ok: bool, pending: bool)
      requires InRun() && pc == Idle
      requires forall i, k :: 0 <= i < k < |ids| ==> ids[i] != ids[k]
      requires forall i :: 0 <= i < |ids| ==> ids[i] in journal && journal[ids[i]].phase == Phase.Terminal
      modifies `journal, `pc, `worlds, `steps, `faults
      ensures InRun() && old(worlds) <= worlds && Grown(old(Now().log), old(faults))
      ensures ok ==> pc == Idle && Subset(journal, old(journal))
      ensures ok && !pending ==>
                |journal| + |ids| == |old(journal)| && forall i :: 0 <= i < |ids| ==> ids[i] !in journal
      ensures ok && !pending ==> forall i :: 0 <= i < |ids| ==> Since(old(Now().log), Now().log, Deletion(ids[i]))
      ensures forall id :: id in old(journal) && ok && id !in ids ==> id in journal
      ensures pending ==> faults > old(faults)
      ensures !ok ==> pc == Down && faults > old(faults)
    {
      hide InRun, Since;
      for i := 0 to |ids|
        invariant InRun() && old(worlds) <= worlds && Grown(old(Now().log), old(faults)) && pc == Idle
        invariant Subset(journal, old(journal)) && |journal| + i == |old(journal)|
        invariant forall k :: i <= k < |ids| ==> ids[k] in journal
        invariant forall k :: 0 <= k < i ==> ids[k] !in journal
        invariant forall id :: id in old(journal) && id !in ids ==> id in journal
        invariant forall k :: 0 <= k < i ==> Since(old(Now().log), Now().log, Deletion(ids[k]))
      {
        RemoveOne(journal, ids[i]);
        ghost var before := Now().log;
        var delivered;
        ok, delivered := ReportTerminal(ids[i]);
        if !ok || !delivered {
          pending := true;
          return;
        }
        LastIsSince(old(Now().log), before, Now().log, Deletion(ids[i]));
        forall k | 0 <= k < i ensures Since(old(Now().log), Now().log, Deletion(ids[k])) {
          SinceLater(old(Now().log), before, Now().log, Deletion(ids[k]));
        }
      }
      return true, false;
    }

    /** Runs the actions whose acceptance was journaled earlier. */
    method ResumeAccepted() returns (ok: bool, ghost ids: seq<int>)
      requires InRun() && pc == Idle
      modifies `journal, `pc, `worlds, `steps, `performed, `faults
      ensures InRun() && old(worlds) <= worlds && Grown(old(Now().log), old(faults))
      ensures ok ==> pc == Idle
      ensures OldestFirst(old(journal), Phase.Accepted, 8, ids)
      ensures ok && faults == old(faults) ==>
                forall i :: 0 <= i < |ids| ==> Since(old(Now().log), Now().log, Execution(ids[i]))
      ensures !ok ==> pc == Down && faults > old(faults)
    {
      var accepted := Oldest(journal, Phase.Accepted, 8);
      ids := accepted;
      hide InRun, Since;
      ok := RunAll(accepted);
    }

    method RunAll(ids: seq<int>) returns (ok: bool)
      requires InRun() && pc == Idle
      requires forall i, k :: 0 <= i < k < |ids| ==> ids[i] != ids[k]
      requires forall i :: 0 <= i < |ids| ==> ids[i] in journal && journal[ids[i]].phase == Phase.Accepted
      modifies `journal, `pc, `worlds, `steps, `performed, `faults
      ensures InRun() && old(worlds) <= worlds && Grown(old(Now().log), old(faults))
      ensures ok ==> pc == Idle
      ensures ok && faults == old(faults) ==>
                forall i :: 0 <= i < |ids| ==> Since(old(Now().log), Now().log, Execution(ids[i]))
      ensures !ok ==> pc == Down && faults > old(faults)
    {
      hide InRun, Since, Course;
      for i := 0 to |ids|
        invariant InRun() && old(worlds) <= worlds && Grown(old(Now().log), old(faults)) && pc == Idle
        invariant forall k :: i <= k < |ids| ==> ids[k] in journal && journal[ids[k]].phase == Phase.Accepted
        invariant faults == old(faults) ==>
                    forall k :: 0 <= k < i ==> Since(old(Now().log), Now().log, Execution(ids[k]))
      {
        ghost var before := Now().log;
        ghost var call, result;
        ok, call, result := ExecuteAccepted(ids[i]);
        if !ok { return; }
        if faults == old(faults) {
          CourseExecutes(old(Now().log), before, Now().log, ids[i], call, result);
          forall k | 0 <= k < i ensures Since(old(Now().log), Now().log, Execution(ids[k])) {
            SinceLater(old(Now().log), before, Now().log, Execution(ids[k]));
          }
        }
      }
      ok := true;
    }

    /** Journals and runs staged actions; a full journal leaves the rest for the next pass. */
    method TakeStaged() returns (ok: bool, ghost taken: seq<Pickup>, ghost refused: Option<Record>)
      requires Valid() && pc == Idle
      modifies `journal, `pc, `worlds, `steps, `performed, `faults, `offered, `handled, `pickups, stage
      ensures Valid() && old(worlds) <= worlds && Grown(old(Now().log), old(faults))
      ensures ok ==>
                || |taken| == 8
                || (refused.None? && stage.items == map[])
                || (refused.Some? && Refused(l, journal, agent, refused.value))
      ensures ok ==> pc == Idle && pickups == old(pickups) + taken
      ensures ok && faults == old(faults) ==>
                journal == old(journal) && AllRun(old(Now().log), Now().log, journal, taken)
      ensures !ok ==> pc == Down && faults > old(faults)
    {
      hide InRun, Recalled, HasCapacity, AllRun, Since;
      taken, refused := [], None;
      NothingRun(Now().log, journal);
      for i := 0 to 8
        invariant |taken| == i && pickups == old(pickups) + taken
        invariant Valid() && old(worlds) <= worlds && Grown(old(Now().log), old(faults)) && pc == Idle
        invariant faults == old(faults) ==>
                    journal == old(journal) && AllRun(old(Now().log), Now().log, journal, taken)
      {
        var more;
        ghost var one;
        ghost var before := Now().log;
        ok, more, one, refused := TakeOne();
        if !ok || !more { return; }
        if faults == old(faults) {
          OneMoreRun(old(Now().log), before, Now().log, journal, taken, one);
        }
        taken := taken + [one];
      }
      ok := true;
    }

    lemma NothingRun(log: seq<Event>, j: Entries)
      ensures AllRun(log, log, j, [])
    {
    }

    /** One staged action; `more` is false when there is nothing to take or no room for it. The
        action taken is handled from now on, and no other entry of the journal changes. */
    method TakeOne() returns (ok: bool, more: bool, ghost taken: Pickup, ghost refused: Option<Record>)
      requires Valid() && pc == Idle
      modifies `journal, `pc, `worlds, `steps, `performed, `faults, `offered, `handled, `pickups, stage
      ensures Valid() && old(worlds) <= worlds && Grown(old(Now().log), old(faults))
      ensures ok && !more ==>
                && pickups == old(pickups) && journal == old(journal) && Now().log == old(Now().log)
                && (refused.None? ==> stage.items == map[])
                && (refused.Some? ==> Refused(l, journal, agent, refused.value))
      ensures ok && more ==>
                && pickups == old(pickups) + [taken] && taken.action.id in stage.handledSet
                && OthersUnchanged(old(journal), journal, taken.action.id)
      ensures ok && more && faults == old(faults) ==>
                && journal == old(journal)
                && (taken.action.id in journal || Since(old(Now().log), Now().log, Execution(taken.action.id)))
      ensures ok ==> pc == Idle
      ensures !ok ==> pc == Down && faults > old(faults)
    {
      hide InRun, Since, HasCapacity, OthersUnchanged, PickupsOk;
      Poll();
      var now: int := *;
      var staged := NextStaged(now);
      taken := Pickup(Action(0, "", "", Unsupported, false, None), 0, 0);
      if staged.None? {
        return true, false, taken, None;
      }
      Poll();
      ok, more, refused := JournalAndRun(staged.value.action, now);
      if ok && more {
        taken := pickups[|pickups| - 1];
      }
    }

    /** Takes the next action from the stage. */
    method NextStaged(now: int) returns (r: Option<Stage.Staged>)
      requires Valid()
      modifies `handled, stage
      ensures Valid()
      ensures r.None? ==> stage.items == map[]
      ensures r.Some? ==>
                && r.value.action.id > 0 && r.value.action.id !in stage.handledSet && r.value.action in offered
                && MeantFor(r.value.action, agent) && !Expired(r.value.action, now)
    {
      hide InRun, Stage.QueueOk, Stage.LiveIds, Stage.RememberAll, PickupsOk, Stage.Ids;
      ghost var taken;
      ghost var q, m := stage.order, stage.items;
      r, taken := stage.Next(now, agent);
      if r.Some? {
        FromOffersAt(m, offered, q[taken - 1]);
      }
      ghost var ids := Stage.LiveIds(m, q, if r.Some? then taken - 1 else taken);
      Stage.RememberAllAppend(stage.handledMax, [], handled, ids);
      PickupsStay(stage.handledMax, agent, offered, handled, pickups, offered, handled + ids);
      handled := handled + ids;
    }

    /** An action that was taken counts as handled. */
    method MarkTaken(a: Action, now: int)
      requires Valid() && a.id > 0 && a.id !in stage.handledSet && a in offered
      requires MeantFor(a, agent) && !Expired(a, now)
      modifies `handled, `pickups, stage
      ensures Valid() && a.id in stage.handledSet
      ensures pickups == old(pickups) + [Pickup(a, now, |old(handled)|)] && handled == old(handled) + [a.id]
    {
      hide InRun, Stage.QueueOk, Stage.RememberAll, PickupsOk, Stage.Remember;
      stage.MarkHandled(a.id);
      Stage.RememberAllStep(stage.handledMax, [], handled, a.id);
      PickupsGrow(stage.handledMax, agent, offered, handled, pickups, a, now);
      pickups := pickups + [Pickup(a, now, |handled|)];
      handled := handled + [a.id];
    }

    method JournalAndRun(a: Action, taken: int) returns (ok: bool, more: bool, ghost refused: Option<Record>)
      requires Valid() && pc == Idle && a.id > 0 && a.id !in stage.handledSet && a in offered
      requires MeantFor(a, agent) && !Expired(a, taken)
      modifies `journal, `pc, `worlds, `steps, `performed, `faults, `handled, `pickups, stage
      ensures Valid() && old(worlds) <= worlds && Grown(old(Now().log), old(faults))
      ensures ok && !more ==>
                && journal == old(journal) && refused.Some? && refused.value.action == a && Now().log == old(Now().log)
                && Refused(l, journal, agent, refused.value) && pickups == old(pickups)
      ensures ok && more ==>
                && pickups == old(pickups) + [Pickup(a, taken, |old(handled)|)]
                && a.id in stage.handledSet && OthersUnchanged(old(journal), journal, a.id)
      ensures ok && more && faults == old(faults) ==>
                journal == old(journal) && (a.id in journal || Since(old(Now().log), Now().log, Execution(a.id)))
      ensures ok ==> pc == Idle
      ensures !ok ==> pc == Down && faults > old(faults)
    {
      hide InRun, Recalled, Since, Course, HasCapacity;
      var now: int := *;
      var r := Begin(a, now);
      match r
      case EntryExists =>
        MarkTaken(a, taken);
        return true, true, None;
      case NoCapacity =>
        return true, false, Some(NewRecord(a, now));
      case WriteError =>
        faults := faults + 1;
        return false, false, None;
      case Entered(_) =>
        ok := RunEntered(a, taken, old(Now().log));
        more, refused := true, None;
        assert old(journal)[a.id := NewRecord(a, now)] - {a.id} == old(journal);
    }

    /** Runs an action that was just journaled; the server may offer it again, so it is handled now. */
    method RunEntered(a: Action, taken: int, ghost start: seq<Event>) returns (ok: bool)
      requires Valid() && pc == Idle && start <= Now().log
      requires a.id > 0 && a.id !in stage.handledSet && a in offered && MeantFor(a, agent) && !Expired(a, taken)
      requires a.id in journal && journal[a.id].phase == Phase.Accepted
      modifies `journal, `pc, `worlds, `steps, `performed, `faults, `handled, `pickups, stage
      ensures Valid() && old(worlds) <= worlds && Grown(old(Now().log), old(faults))
      ensures ok ==> pc == Idle && a.id in stage.handledSet && OthersUnchanged(old(journal), journal, a.id)
      ensures pickups == old(pickups) + [Pickup(a, taken, |old(handled)|)]
      ensures ok && faults == old(faults) ==>
                journal == old(journal) - {a.id} && Since(start, Now().log, Execution(a.id))
      ensures !ok ==> pc == Down && faults > old(faults)
    {
      hide InRun, Since, Course, OthersUnchanged, Stage.RememberAll, PickupsOk;
      MarkTaken(a, taken);
      ghost var before := Now().log;
      ghost var call, result;
      ok, call, result := ExecuteAccepted(a.id);
      if ok && faults == old(faults) {
        CourseExecutes(start, before, Now().log, a.id, call, result);
      }
    }

    /** A new process, with an empty stage, on the surviving journal: every record found executing
        becomes failed, then all known ids count as handled. It may itself stop at any write. */
    method Restart() returns (ok: bool)
      requires Valid() && pc == Down
      modifies this
      ensures Valid() && fresh(stage) && old(worlds) <= worlds && Grown(old(Now().log), old(faults))
      ensures journal.Keys == old(journal).Keys
      ensures forall id :: id in journal ==> RecoveredFrom(old(journal)[id], journal[id])
      ensures ok ==> pc == Idle && forall id :: id in journal ==> journal[id].phase != Phase.Executing
      ensures ok && |journal| <= stage.handledMax ==> forall id :: id in journal ==> id in stage.handledSet
      ensures !ok ==> pc == Down && (faults > old(faults) || !Loadable(l, journal))
    {
      hide InRun, Recalled, Loadable, RecoveredFrom, Stage.QueueOk, Stage.HandledOk;
      NewStage();
      NothingRecovered(journal);
      ok := RecoverJournal();
      if !ok {
        return;
      }
      BootUp();
      RecordsArePositive();
      MarkAllHandled();
    }

    method NewStage()
      modifies `stage, `offered, `handled, `pickups
      ensures fresh(stage) && stage.Valid() && Recalled() && stage.handledOrder == [] && pickups == []
    {
      stage := new Stage.Stage(stageSize);
      offered, handled, pickups := {}, [], [];
    }

    lemma RecordsArePositive()
      requires InRun()
      ensures forall id :: id in journal ==> id > 0
    {
    }

    method BootUp()
      requires InRun() && pc == Down && Loadable(l, journal)
      requires forall id :: id in journal ==> journal[id].phase != Phase.Executing
      modifies `pc, `worlds, `steps
      ensures InRun() && pc == Idle && old(worlds) <= worlds && Now().log == old(Now().log)
    {
      Take(Boot);
      pc := Idle;
    }

    /** Opening the journal: it must load, and again after every interrupted record was rewritten. */
    method RecoverJournal() returns (ok: bool)
      requires InRun() && pc == Down
      modifies `journal, `worlds, `steps, `faults
      ensures InRun() && old(worlds) <= worlds && Grown(old(Now().log), old(faults))
      ensures journal.Keys == old(journal).Keys
      ensures forall id :: id in journal ==> RecoveredFrom(old(journal)[id], journal[id])
      ensures ok ==> Loadable(l, journal) && forall id :: id in journal ==> journal[id].phase != Phase.Executing
      ensures !ok ==> faults > old(faults) || !Loadable(l, journal)
    {
      hide InRun, Loadable, RecoveredFrom;
      NothingRecovered(journal);
      ok := Load(l, journal);
      if !ok {
        return;
      }
      ok := RecoverInterrupted();
      if !ok {
        return;
      }
      ok := Load(l, journal);
    }

    method RecoverInterrupted() returns (ok: bool)
      requires InRun() && pc == Down && Loadable(l, journal)
      modifies `journal, `worlds, `steps, `faults
      ensures InRun() && old(worlds) <= worlds && Grown(old(Now().log), old(faults))
      ensures journal.Keys == old(journal).Keys
      ensures forall id :: id in journal ==> RecoveredFrom(old(journal)[id], journal[id])
      ensures ok ==> forall id :: id in journal ==> journal[id].phase != Phase.Executing
      ensures !ok ==> faults > old(faults)
    {
      hide InRun, PartlyRecovered;
      var at: int := *;
      var rest := set id | id in journal && journal[id].phase == Phase.Executing;
      RecoveryStarts(l, journal);
      while rest != {}
        invariant InRun() && pc == Down && old(worlds) <= worlds && Grown(old(Now().log), old(faults))
        invariant PartlyRecovered(l, old(journal), journal, rest)
        decreases |rest|
      {
        var id := Pick(rest);
        RecoveryState(l, old(journal), journal, rest);
        ghost var before := journal;
        ok := RecoverOne(id, at);
        RecoveryGoesOn(l, old(journal), before, rest, id, at);
        if !ok {
          faults := faults + 1;
          RecoveryState(l, old(journal), journal, if journal == before then rest else rest - {id});
          return;
        }
        rest := rest - {id};
      }
      RecoveryState(l, old(journal), journal, rest);
      ok := true;
    }

    method RecoverOne(id: int, at: int) returns (ok: bool)
      requires InRun() && pc == Down && id in journal && journal[id].phase == Phase.Executing
      requires FileSize(l, journal[id]) <= MAX_RECORD_SIZE
      modifies `journal, `worlds, `steps, `faults
      ensures InRun() && old(worlds) <= worlds && Grown(old(Now().log), old(faults))
      ensures var r := old(journal)[id];
              journal in {old(journal), old(journal)[id := TerminalRecord(r, RecoveredResult(r), at)]}
      ensures ok ==> journal != old(journal)
      ensures !ok ==>
                || faults > old(faults)
                || l.size(TerminalRecord(old(journal)[id], RecoveredResult(old(journal)[id]), at)) > MAX_RECORD_SIZE
    {
      hide Effects, IsRun, Consistent, ValidRecord;
      var record := TerminalRecord(journal[id], RecoveredResult(journal[id]), at);
      if l.size(record) > MAX_RECORD_SIZE {
        return false;
      }
      ok := *;
      var landed: bool := *;
      if ok || landed {
        Take(Recover(id, at));
        journal := journal[id := record];
      }
      faults := faults + if ok then 0 else 1;
    }

    /** Everything in the journal counts as handled, as far as the handled queue reaches. */
    method MarkAllHandled()
      requires Valid() && stage.handledOrder == [] && forall id :: id in journal ==> id > 0
      modifies `handled, stage
      ensures Valid() && stage.handledMax == old(stage.handledMax)
      ensures |journal| <= stage.handledMax ==> forall id :: id in journal ==> id in stage.handledSet
    {
      hide InRun, Stage.QueueOk, Stage.HandledOk, Stage.Remember, Stage.RememberAll, PickupsOk;
      var rest := journal.Keys;
      ghost var fits := |journal| <= stage.handledMax;
      while rest != {}
        invariant Valid() && rest <= journal.Keys && stage.handledMax == old(stage.handledMax)
        invariant fits ==> |stage.handledOrder| + |rest| <= |journal|
        invariant fits ==> forall id :: id in journal && id !in rest ==> id in stage.handledOrder
        decreases |rest|
      {
        var id := Pick(rest);
        ghost var before := stage.handledOrder;
        stage.MarkHandled(id);
        Stage.HandledMembers(stage.handledMax, stage.handledOrder, stage.handledSet);
        Stage.RememberAllStep(stage.handledMax, [], handled, id);
        PickupsStay(stage.handledMax, agent, offered, handled, pickups, offered, handled + [id]);
        handled := handled + [id];
        Stage.RememberWithRoom(stage.handledMax, before, id);
        rest := rest - {id};
      }
      Stage.HandledMembers(stage.handledMax, stage.handledOrder, stage.handledSet);
    }
  }
}
