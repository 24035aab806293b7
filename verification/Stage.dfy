/** Response actions as the server offers them, and the in-memory stage of
    internal/responseactions/stage.go that holds them until the executor takes them. */
module ResponseAction {
  import opened Optional

  datatype Status = Pending | Delivered | Unsupported

  /** Text fields are modelled after trimming and lower-casing. */
  datatype Action = Action(
    id: int, kind: string, agent: string, status: Status, requested: bool, expiresAt: Option<int>)

  /** `Normalize` accepts the action. */
  predicate WellFormed(a: Action) {
    a.id > 0 && a.kind != "" && a.agent != "" && a.status != Unsupported && a.requested
  }

  predicate Expired(a: Action, now: int) {
    a.expiresAt.Some? && a.expiresAt.value <= now
  }

  predicate MeantFor(a: Action, agent: string) {
    agent == "" || a.agent == agent
  }
}

module Stage {
  import opened Optional
  import opened ResponseAction

  datatype Staged = Staged(action: Action, stagedAt: int)

  datatype Tally = Tally(added: nat, ignored: nat, dropped: nat, pending: nat)

  predicate Distinct(s: seq<int>) {
    forall i, j :: 0 <= i < j < |s| ==> s[i] != s[j]
  }

  predicate Eligible(a: Action, now: int, agent: string) {
    a.id > 0 && a.kind != "" && MeantFor(a, agent) && !Expired(a, now)
  }

  /** The ids that occur in a queue. */
  ghost function Ids(s: seq<int>): set<int> {
    if s == [] then {} else {s[0]} + Ids(s[1..])
  }

  lemma {:induction false} IdsAppend(s: seq<int>, id: int)
    ensures Ids(s + [id]) == Ids(s) + {id}
  {
    if s != [] {
      IdsAppend(s[1..], id);
      assert (s + [id])[1..] == s[1..] + [id];
    } else {
      assert [id][1..] == [];
    }
  }

  lemma {:induction false} IdsMembers(s: seq<int>)
    ensures forall id :: id in Ids(s) <==> id in s
  {
    if s != [] {
      IdsMembers(s[1..]);
      assert s == [s[0]] + s[1..];
    }
  }

  /** What is left of the stage once the queue entries `popped` have been taken off. */
  ghost function After(items: map<int, Staged>, popped: seq<int>): map<int, Staged> {
    items - Ids(popped)
  }

  lemma AfterOneMore(items: map<int, Staged>, order: seq<int>, n: nat)
    requires n < |order|
    ensures After(items, order[..n + 1]) == After(items, order[..n]) - {order[n]}
  {
    assert order[..n + 1] == order[..n] + [order[n]];
    IdsAppend(order[..n], order[n]);
  }

  /** An entry of the queue that `Next` passes over. */
  predicate Skipped(id: int, now: int, agent: string, items: map<int, Staged>) {
    id in items ==> !MeantFor(items[id].action, agent) || Expired(items[id].action, now)
  }

  /** Every staged action can still be reached through the queue, and there are not too many. */
  ghost predicate QueueOk(max: int, order: seq<int>, items: map<int, Staged>) {
    && |items| <= max
    && items.Keys <= Ids(order)
    && forall id :: id in items ==> id > 0 && items[id].action.id == id
  }

  /** The remembered ids: a duplicate-free bounded queue, and the set of its members. */
  ghost predicate HandledOk(max: int, order: seq<int>, members: set<int>) {
    && |order| <= max
    && Distinct(order)
    && forall id :: id in members <==> id in order
  }

  lemma PopKeepsQueue(max: int, order: seq<int>, items: map<int, Staged>)
    requires QueueOk(max, order, items) && order != []
    ensures QueueOk(max, order[1..], items - {order[0]})
  {
    var rest := items - {order[0]};
    if order[0] in items {
      assert rest.Keys == items.Keys - {order[0]};
    } else {
      assert rest == items;
    }
  }

  /** The queue `q` and stage `m` after `n` entries have been taken off the front. */
  ghost predicate Taken(max: int, q: seq<int>, m: map<int, Staged>, n: nat, order: seq<int>, items: map<int, Staged>) {
    && n <= |q| && order == q[n..]
    && items == After(m, q[..n])
    && QueueOk(max, order, items)
  }

  lemma TakenNone(max: int, q: seq<int>, m: map<int, Staged>)
    requires QueueOk(max, q, m)
    ensures Taken(max, q, m, 0, q, m)
  {
    assert After(m, q[..0]) == m;
  }

  lemma TakenOneMore(max: int, q: seq<int>, m: map<int, Staged>, n: nat, order: seq<int>, items: map<int, Staged>)
    requires Taken(max, q, m, n, order, items) && order != []
    ensures order[0] == q[n] && Taken(max, q, m, n + 1, order[1..], items - {order[0]})
    ensures |items - {order[0]}| == if order[0] in items then |items| - 1 else |items|
    ensures order[0] in items ==> order[0] in m && items[order[0]] == m[order[0]]
    ensures order[0] !in items ==> items - {order[0]} == items
  {
    AfterOneMore(m, q, n);
    PopKeepsQueue(max, order, items);
    PopSize(items, order[0]);
    assert q[n..][1..] == q[n + 1..];
  }

  lemma SkippedAgain(q: seq<int>, m: map<int, Staged>, n: nat, id: int, now: int, agent: string)
    requires n <= |q| && id !in After(m, q[..n])
    requires forall i :: 0 <= i < n ==> Skipped(q[i], now, agent, m)
    ensures Skipped(id, now, agent, m)
  {
    if id in m {
      IdsMembers(q[..n]);
    }
  }

  lemma PopSize(items: map<int, Staged>, id: int)
    ensures |items - {id}| == if id in items then |items| - 1 else |items|
  {
    if id in items {
      assert (items - {id}).Keys == items.Keys - {id};
    } else {
      assert items - {id} == items;
    }
  }

  lemma AdmitKeepsQueue(max: int, order: seq<int>, items: map<int, Staged>, a: Action, now: int)
    requires QueueOk(max, order, items) && |items| < max && a.id > 0 && a.id !in items
    ensures QueueOk(max, order + [a.id], items[a.id := Staged(a, now)])
  {
    IdsAppend(order, a.id);
  }

  lemma QueueSize(max: int, order: seq<int>, items: map<int, Staged>)
    requires QueueOk(max, order, items)
    ensures |items| <= max
  {
  }

  lemma EmptyQueue(max: int, items: map<int, Staged>)
    requires QueueOk(max, [], items)
    ensures items == map[]
  {
    assert items.Keys == {};
  }

  lemma RemoveKeepsQueue(max: int, order: seq<int>, items: map<int, Staged>, id: int)
    requires QueueOk(max, order, items)
    ensures QueueOk(max, order, items - {id})
  {
    if id in items {
      assert (items - {id}).Keys == items.Keys - {id};
    } else {
      assert items - {id} == items;
    }
  }

  // ---------------------------------------------------------------------------------------------
  // The handled queue.
  // ---------------------------------------------------------------------------------------------

  /** `markHandledLocked` on the queue: a new id goes to the end, and the oldest makes room for it. */
  function Remember(max: int, order: seq<int>, id: int): seq<int> {
    if id <= 0 || id in order then order
    else if |order| >= max && |order| > 0 then order[1..] + [id]
    else order + [id]
  }

  function RememberAll(max: int, order: seq<int>, ids: seq<int>): seq<int> {
    if ids == [] then order else Remember(max, RememberAll(max, order, ids[..|ids| - 1]), ids[|ids| - 1])
  }

  lemma RememberAllStep(max: int, order: seq<int>, ids: seq<int>, id: int)
    ensures RememberAll(max, order, ids + [id]) == Remember(max, RememberAll(max, order, ids), id)
  {
    assert (ids + [id])[..|ids|] == ids;
  }

  lemma {:induction false} RememberAllAppend(max: int, order: seq<int>, ids: seq<int>, more: seq<int>)
    ensures RememberAll(max, order, ids + more) == RememberAll(max, RememberAll(max, order, ids), more)
  {
    if more == [] {
      assert ids + more == ids;
    } else {
      var before := more[..|more| - 1];
      RememberAllAppend(max, order, ids, before);
      assert (ids + more)[..|ids + more| - 1] == ids + before;
    }
  }

  lemma RememberWithRoom(max: int, order: seq<int>, id: int)
    ensures |Remember(max, order, id)| <= |order| + 1
    ensures |order| < max ==> forall x :: x in order ==> x in Remember(max, order, id)
    ensures id > 0 ==> id in Remember(max, order, id)
  {
    var next := Remember(max, order, id);
    if id > 0 && id !in order {
      assert next[|next| - 1] == id;
    }
  }

  lemma HandledMembers(max: int, order: seq<int>, members: set<int>)
    requires HandledOk(max, order, members)
    ensures forall id :: id in members <==> id in order
  {
  }

  ghost predicate QueueFits(max: int, order: seq<int>) {
    0 < max && |order| <= max && Distinct(order)
  }

  lemma {:induction false} RememberFits(max: int, order: seq<int>, id: int)
    requires QueueFits(max, order)
    ensures QueueFits(max, Remember(max, order, id)) && (id > 0 ==> id in Remember(max, order, id))
  {
    var next := Remember(max, order, id);
    if id > 0 && id !in order {
      assert next[|next| - 1] == id;
    }
  }

  lemma {:induction false} RememberAllFits(max: int, order: seq<int>, ids: seq<int>)
    requires QueueFits(max, order)
    ensures QueueFits(max, RememberAll(max, order, ids))
  {
    if ids != [] {
      RememberAllFits(max, order, ids[..|ids| - 1]);
      RememberFits(max, RememberAll(max, order, ids[..|ids| - 1]), ids[|ids| - 1]);
    }
  }

  /** How many of the ids were new to the queue when their turn came. */
  function Additions(max: int, order: seq<int>, ids: seq<int>): nat {
    if ids == [] then 0
    else
      var before, id := ids[..|ids| - 1], ids[|ids| - 1];
      Additions(max, order, before) + if id <= 0 || id in RememberAll(max, order, before) then 0 else 1
  }

  /** `id` has `n` younger entries. */
  ghost predicate YoungerThan(order: seq<int>, id: int, n: nat) {
    n < |order| && order[|order| - 1 - n] == id
  }

  lemma {:induction false} OneMoreYounger(max: int, order: seq<int>, id: int, n: nat, other: int)
    requires QueueFits(max, order) && YoungerThan(order, id, n) && other > 0 && other !in order
    ensures n + 1 < max ==> YoungerThan(Remember(max, order, other), id, n + 1)
    ensures n + 1 == max ==> id !in Remember(max, order, other)
  {
    var next := Remember(max, order, other);
    if n + 1 == max {
      assert order[0] == id && next == order[1..] + [other];
    }
  }

  lemma {:induction false} StaysForgotten(max: int, order: seq<int>, id: int, other: int)
    requires id !in order && id != other
    ensures id !in Remember(max, order, other)
  {
  }

  /** A handled id is remembered exactly until as many new ids as the queue holds have followed it. */
  lemma {:induction false} ForgottenAfterMaxLaterIds(max: int, order: seq<int>, id: int, later: seq<int>)
    requires QueueFits(max, order) && id > 0 && id !in order && id !in later
    ensures var start := Remember(max, order, id);
            id in RememberAll(max, start, later) <==> Additions(max, start, later) < max
  {
    var start := Remember(max, order, id);
    RememberFits(max, order, id);
    assert YoungerThan(start, id, 0);
    YoungerAfter(max, start, id, later);
  }

  /** As long as fewer new ids than the queue holds have followed, a handled id is remembered, whether or
      not it turns up again meanwhile. */
  lemma {:induction false} RememberedAfterFew(max: int, start: seq<int>, id: int, later: seq<int>)
    requires QueueFits(max, start) && YoungerThan(start, id, 0) && Additions(max, start, later) < max
    ensures YoungerThan(RememberAll(max, start, later), id, Additions(max, start, later))
    ensures id in RememberAll(max, start, later)
  {
    if later != [] {
      var before, other := later[..|later| - 1], later[|later| - 1];
      RememberedAfterFew(max, start, id, before);
      RememberAllFits(max, start, before);
      var order := RememberAll(max, start, before);
      if other > 0 && other !in order {
        OneMoreYounger(max, order, id, Additions(max, start, before), other);
      }
    }
  }

  lemma {:induction false} YoungerAfter(max: int, start: seq<int>, id: int, later: seq<int>)
    requires QueueFits(max, start) && YoungerThan(start, id, 0) && id !in later
    ensures var n := Additions(max, start, later);
            if n < max then YoungerThan(RememberAll(max, start, later), id, n) && id in RememberAll(max, start, later)
            else id !in RememberAll(max, start, later)
  {
    if later != [] {
      var before, other := later[..|later| - 1], later[|later| - 1];
      YoungerAfter(max, start, id, before);
      RememberAllFits(max, start, before);
      var order, n := RememberAll(max, start, before), Additions(max, start, before);
      if n < max && other > 0 && other !in order {
        OneMoreYounger(max, order, id, n, other);
      } else if n >= max {
        StaysForgotten(max, order, id, other);
      }
    }
  }

  lemma {:induction false} RememberKeepsHandled(max: int, order: seq<int>, members: set<int>, id: int)
    requires max > 0 && HandledOk(max, order, members) && id > 0 && id !in members
    ensures HandledOk(max, Remember(max, order, id),
                      members + {id} - (if |order| == max then {order[0]} else {}))
  {
    if |order| == max {
      assert order == [order[0]] + order[1..];
      var next := order[1..] + [id];
      assert forall x :: x in next <==> x in order[1..] || x == id;
    } else {
      assert forall x :: x in order + [id] <==> x in order || x == id;
    }
  }

  /** `markHandledLocked`. */
  method RememberOne(
    max: int, order: seq<int>, members: set<int>, id: int)
    returns (order': seq<int>, members': set<int>)
    requires 0 < max && HandledOk(max, order, members)
    ensures HandledOk(max, order', members') && order' == Remember(max, order, id)
    ensures members' <= members + {id} && (id > 0 ==> id in members')
  {
    order', members' := order, members;
    if id <= 0 || id in members {
      return;
    }
    RememberKeepsHandled(max, order, members, id);
    members' := members + {id};
    order' := order + [id];
    while |order'| > max && |order'| > 0
      invariant |order'| > max ==> order' == order + [id] && members' == members + {id} && |order'| == max + 1
      invariant |order'| <= max ==>
                  && order' == Remember(max, order, id) && HandledOk(max, order', members')
                  && members' <= members + {id}
      decreases |order'|
    {
      var oldest := order'[0];
      order' := order'[1..];
      members' := members' - {oldest};
    }
    assert order'[|order'| - 1] == id;
  }

  /** Makes room for one more action: a full stage loses exactly its oldest live action, and the
      stale queue entries in front of it. */
  method MakeRoom(max: int, q: seq<int>, m: map<int, Staged>)
    returns (order: seq<int>, items: map<int, Staged>, dropped: nat, popped: nat)
    requires 0 < max && QueueOk(max, q, m)
    ensures QueueOk(max, order, items) && |items| < max
    ensures popped <= |q| && order == q[popped..]
    ensures |m| < max ==> popped == 0 && dropped == 0 && items == m
    ensures |m| >= max ==>
              && dropped == 1 && popped > 0 && q[popped - 1] in m && items == m - {q[popped - 1]}
              && (forall i :: 0 <= i < popped - 1 ==> q[i] !in m)
    ensures |items| + dropped == |m|
  {
    order, items, dropped, popped := q, m, 0, 0;
    while |items| >= max && |order| > 0
      invariant QueueOk(max, order, items)
      invariant popped <= |q| && order == q[popped..]
      invariant dropped == 0 ==> items == m && (forall i :: 0 <= i < popped ==> q[i] !in m)
      invariant dropped != 0 ==>
                  && dropped == 1 && |items| == |m| - 1
                  && popped > 0 && q[popped - 1] in m && items == m - {q[popped - 1]}
                  && (forall i :: 0 <= i < popped - 1 ==> q[i] !in m)
      invariant popped > 0 ==> |m| >= max
      decreases |order|
    {
      var oldest := order[0];
      PopKeepsQueue(max, order, items);
      PopSize(items, oldest);
      order, popped := order[1..], popped + 1;
      if oldest in items {
        items, dropped := items - {oldest}, dropped + 1;
      } else {
        assert items - {oldest} == items;
      }
    }
    if order == [] {
      EmptyQueue(max, items);
    }
  }

  // ---------------------------------------------------------------------------------------------
  // Offers.
  // ---------------------------------------------------------------------------------------------

  /** Where a staged action came from: it was there before, or it is one of the eligible offers. */
  ghost predicate Traced(
    before: map<int, Staged>, items: map<int, Staged>, now: int, actions: seq<Action>, agent: string)
  {
    forall id :: id in items ==>
      (id in before && items[id] == before[id])
      || (items[id].stagedAt == now && items[id].action in actions && Eligible(items[id].action, now, agent))
  }

  /** An offer for this agent that is neither expired nor already handled. */
  ghost predicate Acceptable(a: Action, handled: set<int>, now: int, agent: string) {
    Eligible(a, now, agent) && a.id !in handled
  }

  function AtMost(max: int, n: int): int { if n < max then n else max }

  /** What `i` offers have made of the stage. */
  ghost predicate Offered(
    max: int, before: map<int, Staged>, handled: set<int>, now: int, actions: seq<Action>, agent: string,
    i: nat, items: map<int, Staged>, r: Tally)
  {
    && i <= |actions|
    && r.added + r.ignored == i
    && |items| + r.dropped == |before| + r.added
    && |items| == AtMost(max, |before| + r.added)
    && Traced(before, items, now, actions, agent)
    && (i > 0 && Acceptable(actions[i - 1], handled, now, agent) ==> actions[i - 1].id in items)
    && (r.dropped == 0 ==>
          && before.Keys <= items.Keys
          && forall j :: 0 <= j < i && Acceptable(actions[j], handled, now, agent) ==> actions[j].id in items)
  }

  lemma NothingOffered(
    max: int, items: map<int, Staged>, handled: set<int>, now: int, actions: seq<Action>, agent: string)
    requires |items| <= max
    ensures Offered(max, items, handled, now, actions, agent, 0, items, Tally(0, 0, 0, 0))
  {
  }

  /** The checks at the beginning of the loop of `Stage`. */
  method Wanted(a: Action, now: int, agent: string) returns (ok: bool)
    ensures ok <==> Eligible(a, now, agent)
    ensures ok <==> && a.id > 0 && a.kind != "" && (agent != "" ==> a.agent == agent)
                    && (a.expiresAt.Some? ==> now < a.expiresAt.value)
  {
    if a.id <= 0 || a.kind == "" {
      return false;
    }
    if agent != "" && a.agent != agent {
      return false;
    }
    ok := a.expiresAt.None? || a.expiresAt.value > now;
  }

  lemma {:induction false} OfferIgnored(
    max: int, before: map<int, Staged>, handled: set<int>, now: int, actions: seq<Action>, agent: string,
    i: nat, items: map<int, Staged>, r: Tally)
    requires i < |actions| && Offered(max, before, handled, now, actions, agent, i, items, r)
    requires !Eligible(actions[i], now, agent) || actions[i].id in items || actions[i].id in handled
    ensures Offered(max, before, handled, now, actions, agent, i + 1, items, r.(ignored := r.ignored + 1))
  {
    hide Eligible;
  }

  lemma {:induction false} OfferAdded(
    max: int, before: map<int, Staged>, handled: set<int>, now: int, actions: seq<Action>, agent: string,
    i: nat, items: map<int, Staged>, items': map<int, Staged>, dropped: nat, r: Tally)
    requires i < |actions| && Offered(max, before, handled, now, actions, agent, i, items, r)
    requires Eligible(actions[i], now, agent)
    requires actions[i].id in items' && items'[actions[i].id] == Staged(actions[i], now)
    requires forall id :: id in items' && id != actions[i].id ==> id in items && items'[id] == items[id]
    requires |items'| + dropped == |items| + 1 && (dropped == 0 ==> items.Keys <= items'.Keys)
    requires dropped == if |items| < max then 0 else 1
    ensures Offered(max, before, handled, now, actions, agent, i + 1, items',
                    r.(added := r.added + 1, dropped := r.dropped + dropped))
  {
    hide Eligible;
  }

  /** The live ids among the first `n` queue entries, each where it first occurs. */
  ghost function LiveIds(m: map<int, Staged>, q: seq<int>, n: nat): seq<int>
    requires n <= |q|
  {
    if n == 0 then []
    else LiveIds(m, q, n - 1) + if q[n - 1] in After(m, q[..n - 1]) then [q[n - 1]] else []
  }

  /** Where the search of `Next` has got to after `n` entries, none of which it could return. */
  ghost predicate Searched(
    max: int, handledMax: int, q: seq<int>, m: map<int, Staged>, h: seq<int>, now: int, agent: string,
    n: nat, order: seq<int>, items: map<int, Staged>, handled: seq<int>, members: set<int>)
  {
    && Taken(max, q, m, n, order, items)
    && 0 < handledMax && HandledOk(handledMax, handled, members) && items.Keys !! members
    && handled == RememberAll(handledMax, h, LiveIds(m, q, n))
    && forall i :: 0 <= i < n ==> Skipped(q[i], now, agent, m)
  }

  lemma {:induction false} SearchStarts(
    max: int, handledMax: int, q: seq<int>, m: map<int, Staged>, h: seq<int>, members: set<int>,
    now: int, agent: string)
    requires QueueOk(max, q, m) && 0 < handledMax && HandledOk(handledMax, h, members) && m.Keys !! members
    ensures Searched(max, handledMax, q, m, h, now, agent, 0, q, m, h, members)
  {
    TakenNone(max, q, m);
  }

  /** A stale entry is passed over without a trace. */
  lemma {:induction false} SearchSkipsStale(
    max: int, handledMax: int, q: seq<int>, m: map<int, Staged>, h: seq<int>, now: int, agent: string,
    n: nat, order: seq<int>, items: map<int, Staged>, handled: seq<int>, members: set<int>)
    requires Searched(max, handledMax, q, m, h, now, agent, n, order, items, handled, members)
    requires order != [] && order[0] !in items
    ensures Searched(max, handledMax, q, m, h, now, agent, n + 1, order[1..], items, handled, members)
  {
    hide QueueOk, HandledOk, Ids, RememberAll, Skipped, After;
    TakenOneMore(max, q, m, n, order, items);
    SkippedAgain(q, m, n, order[0], now, agent);
    assert LiveIds(m, q, n + 1) == LiveIds(m, q, n);
  }

  /** A live entry that is not wanted is gone and remembered. */
  lemma {:induction false} SearchSkipsLive(
    max: int, handledMax: int, q: seq<int>, m: map<int, Staged>, h: seq<int>, now: int, agent: string,
    n: nat, order: seq<int>, items: map<int, Staged>, handled: seq<int>, members: set<int>,
    handled': seq<int>, members': set<int>)
    requires Searched(max, handledMax, q, m, h, now, agent, n, order, items, handled, members)
    requires order != [] && order[0] in items && Skipped(order[0], now, agent, items)
    requires HandledOk(handledMax, handled', members') && handled' == Remember(handledMax, handled, order[0])
    requires members' <= members + {order[0]}
    ensures Searched(max, handledMax, q, m, h, now, agent, n + 1, order[1..], items - {order[0]}, handled', members')
  {
    hide QueueOk, HandledOk, Ids, RememberAll, After;
    TakenOneMore(max, q, m, n, order, items);
    assert LiveIds(m, q, n + 1) == LiveIds(m, q, n) + [order[0]];
    RememberAllStep(handledMax, h, LiveIds(m, q, n), order[0]);
  }

  /** What the search knows when it finds a live entry. */
  lemma {:induction false} SearchFinds(
    max: int, handledMax: int, q: seq<int>, m: map<int, Staged>, h: seq<int>, now: int, agent: string,
    n: nat, order: seq<int>, items: map<int, Staged>, handled: seq<int>, members: set<int>)
    requires Searched(max, handledMax, q, m, h, now, agent, n, order, items, handled, members)
    requires order != [] && order[0] in items
    ensures order[0] == q[n] && Taken(max, q, m, n + 1, order[1..], items - {order[0]})
    ensures order[0] in m && items[order[0]] == m[order[0]] && order[0] > 0 && items[order[0]].action.id == order[0]
  {
    TakenOneMore(max, q, m, n, order, items);
  }

  lemma SearchState(
    max: int, handledMax: int, q: seq<int>, m: map<int, Staged>, h: seq<int>, now: int, agent: string,
    n: nat, order: seq<int>, items: map<int, Staged>, handled: seq<int>, members: set<int>)
    requires Searched(max, handledMax, q, m, h, now, agent, n, order, items, handled, members)
    ensures 0 < handledMax && HandledOk(handledMax, handled, members) && items.Keys !! members
    ensures QueueOk(max, order, items) && n <= |q| && order == q[n..] && items == After(m, q[..n])
    ensures forall i :: 0 <= i < n ==> Skipped(q[i], now, agent, m)
    ensures handled == RememberAll(handledMax, h, LiveIds(m, q, n))
  {
  }

  /** The loop of `Next`. */
  method TakeNext(
    max: int, handledMax: int, q: seq<int>, m: map<int, Staged>, h: seq<int>, hs: set<int>, now: int, agent: string)
    returns (r: Option<Staged>, order: seq<int>, items: map<int, Staged>, handled: seq<int>, members: set<int>, n: nat,
             ghost skipped: nat)
    requires QueueOk(max, q, m) && 0 < handledMax && HandledOk(handledMax, h, hs) && m.Keys !! hs
    ensures QueueOk(max, order, items) && HandledOk(handledMax, handled, members) && items.Keys !! members
    ensures skipped <= n <= |q| && order == q[n..] && items == After(m, q[..n])
    ensures r.None? ==> items == map[] && n == |q| == skipped
    ensures r.Some? ==>
              && n == skipped + 1 && q[skipped] in m && r.value == m[q[skipped]]
              && r.value.action.id > 0 && r.value.action.id !in items && r.value.action.id !in members
              && (agent != "" ==> r.value.action.agent == agent)
              && (r.value.action.expiresAt.Some? ==> now < r.value.action.expiresAt.value)
    ensures forall i :: 0 <= i < skipped ==> Skipped(q[i], now, agent, m)
    ensures handled == RememberAll(handledMax, h, LiveIds(m, q, skipped))
  {
    hide QueueOk, HandledOk, Taken, Searched, RememberAll, LiveIds, After;
    r, order, items, handled, members, n, skipped := None, q, m, h, hs, 0, 0;
    SearchStarts(max, handledMax, q, m, h, hs, now, agent);
    while |order| > 0
      invariant Searched(max, handledMax, q, m, h, now, agent, n, order, items, handled, members)
      invariant skipped == n && r.None?
      decreases |order|
    {
      var id := order[0];
      SearchState(max, handledMax, q, m, h, now, agent, n, order, items, handled, members);
      if id !in items {
        SearchSkipsStale(max, handledMax, q, m, h, now, agent, n, order, items, handled, members);
        order, n, skipped := order[1..], n + 1, n + 1;
        continue;
      }
      var item := items[id];
      var foreign := agent != "" && item.action.agent != agent;
      if foreign || (item.action.expiresAt.Some? && item.action.expiresAt.value <= now) {
        var handled', members' := RememberOne(handledMax, handled, members, id);
        SearchSkipsLive(max, handledMax, q, m, h, now, agent, n, order, items, handled, members, handled', members');
        order, items, handled, members, n, skipped := order[1..], items - {id}, handled', members', n + 1, n + 1;
      } else {
        SearchFinds(max, handledMax, q, m, h, now, agent, n, order, items, handled, members);
        TakenState(max, q, m, n + 1, order[1..], items - {id});
        r, order, items, n := Some(item), order[1..], items - {id}, n + 1;
        return;
      }
    }
    SearchState(max, handledMax, q, m, h, now, agent, n, order, items, handled, members);
    EmptyQueue(max, items);
  }

  lemma TakenState(max: int, q: seq<int>, m: map<int, Staged>, n: nat, order: seq<int>, items: map<int, Staged>)
    requires Taken(max, q, m, n, order, items)
    ensures QueueOk(max, order, items) && n <= |q| && order == q[n..] && items == After(m, q[..n])
  {
  }

  class Stage {
    const max: int
    const handledMax: int
    var order: seq<int>
    var items: map<int, Staged>
    var handledOrder: seq<int>
    var handledSet: set<int>

    ghost predicate Valid()
      reads this
    {
      && 0 < max && 512 <= handledMax
      && QueueOk(max, order, items)
      && HandledOk(handledMax, handledOrder, handledSet)
      && items.Keys !! handledSet
    }

    constructor (size: int)
      ensures Valid() && fresh(this)
      ensures max == (if size <= 0 then 256 else size) && handledMax == (if max * 8 < 512 then 512 else max * 8)
      ensures order == [] && items == map[] && handledOrder == [] && handledSet == {}
    {
      max := if size <= 0 then 256 else size;
      var m := if size <= 0 then 256 else size;
      handledMax := if m * 8 < 512 then 512 else m * 8;
      order, items, handledOrder, handledSet := [], map[], [], {};
    }

    /** Takes in what the server offered. Every offer is either added or ignored; nothing
        disappears except the counted evictions, which only a full stage makes; nothing handled, foreign or
        expired gets in. */
    method Offer(now: int, actions: seq<Action>, agent: string) returns (r: Tally)
      requires Valid()
      modifies this`order, this`items
      ensures Valid()
      ensures r.added + r.ignored == |actions|
      ensures |items| + r.dropped == |old(items)| + r.added
      ensures |items| == AtMost(max, |old(items)| + r.added)
      ensures actions != [] ==> r.pending == |items|
      ensures Traced(old(items), items, now, actions, agent)
      ensures forall id :: id in handledSet ==> id !in items
      ensures actions != [] && Acceptable(actions[|actions| - 1], handledSet, now, agent) ==>
                actions[|actions| - 1].id in items
      ensures |old(items)| + |actions| <= max ==> r.dropped == 0
      ensures r.dropped == 0 ==>
                && old(items.Keys) <= items.Keys
                && forall i :: 0 <= i < |actions| && Acceptable(actions[i], handledSet, now, agent) ==>
                     actions[i].id in items
    {
      QueueSize(max, order, items);
      hide QueueOk, HandledOk, Eligible;
      r := Tally(0, 0, 0, 0);
      if actions == [] { return; }
      r := OfferAll(now, actions, agent);
      r := r.(pending := |items|);
    }

    /** The loop of `Offer`. */
    method OfferAll(now: int, actions: seq<Action>, agent: string) returns (r: Tally)
      requires Valid()
      modifies this`order, this`items
      ensures Valid() && Offered(max, old(items), handledSet, now, actions, agent, |actions|, items, r)
    {
      QueueSize(max, order, items);
      hide QueueOk, HandledOk, Offered, Eligible;
      r := Tally(0, 0, 0, 0);
      NothingOffered(max, items, handledSet, now, actions, agent);
      for i := 0 to |actions|
        invariant Valid() && Offered(max, old(items), handledSet, now, actions, agent, i, items, r)
      {
        r := OfferOne(now, actions, agent, i, r, old(items));
      }
    }

    /** One offer. */
    method OfferOne(
      now: int, actions: seq<Action>, agent: string, i: nat, r: Tally, ghost before: map<int, Staged>)
      returns (r': Tally)
      requires Valid() && i < |actions| && Offered(max, before, handledSet, now, actions, agent, i, items, r)
      modifies this`order, this`items
      ensures Valid() && Offered(max, before, handledSet, now, actions, agent, i + 1, items, r')
    {
      var a := actions[i];
      var wanted := Wanted(a, now, agent);
      hide QueueOk, HandledOk, Offered, Eligible;
      if !wanted || a.id in items || a.id in handledSet {
        OfferIgnored(max, before, handledSet, now, actions, agent, i, items, r);
        r' := r.(ignored := r.ignored + 1);
      } else {
        ghost var earlier := items;
        var dropped, popped := Admit(a, now);
        OfferAdded(max, before, handledSet, now, actions, agent, i, earlier, items, dropped, r);
        r' := r.(added := r.added + 1, dropped := r.dropped + dropped);
      }
    }

    /** Evicts the oldest live action if the stage is full, and appends `a`. */
    method Admit(a: Action, now: int) returns (dropped: nat, ghost popped: nat)
      requires Valid() && a.id > 0 && a.id !in items && a.id !in handledSet
      modifies this`order, this`items
      ensures Valid()
      ensures popped <= |old(order)| && order == old(order)[popped..] + [a.id]
      ensures a.id in items && items[a.id] == Staged(a, now)
      ensures |old(items)| < max ==> popped == 0 && items == old(items)[a.id := Staged(a, now)]
      ensures |old(items)| >= max ==>
                && popped > 0 && old(order)[popped - 1] in old(items)
                && items == (old(items) - {old(order)[popped - 1]})[a.id := Staged(a, now)]
                && (forall i :: 0 <= i < popped - 1 ==> old(order)[i] !in old(items))
      ensures forall id :: id in items && id != a.id ==> id in old(items) && items[id] == old(items)[id]
      ensures |items| + dropped == |old(items)| + 1
      ensures dropped == if |old(items)| < max then 0 else 1
    {
      var n: nat;
      order, items, dropped, n := MakeRoom(max, order, items);
      popped := n;
      AdmitKeepsQueue(max, order, items, a, now);
      items := items[a.id := Staged(a, now)];
      order := order + [a.id];
    }

    method MarkHandledLocked(id: int)
      requires Valid() && id !in items
      modifies this`handledOrder, this`handledSet
      ensures Valid()
      ensures id > 0 ==> id in handledSet
      ensures handledOrder == Remember(handledMax, old(handledOrder), id)
    {
      handledOrder, handledSet := RememberOne(handledMax, handledOrder, handledSet, id);
    }

    /** The first live entry of the queue that is for this agent and not expired. The live entries passed
        over are gone from the stage and remembered as handled, in their order; nothing else changes. */
    method Next(now: int, agent: string) returns (r: Option<Staged>, ghost taken: nat)
      requires Valid()
      modifies this
      ensures Valid()
      ensures taken <= |old(order)| && order == old(order)[taken..]
      ensures items == After(old(items), old(order)[..taken])
      ensures r.None? ==> items == map[] && taken == |old(order)|
      ensures r.Some? ==>
                && taken > 0 && old(order)[taken - 1] in old(items) && r.value == old(items)[old(order)[taken - 1]]
                && r.value.action.id > 0 && r.value.action.id !in items && r.value.action.id !in handledSet
                && (agent != "" ==> r.value.action.agent == agent)
                && (r.value.action.expiresAt.Some? ==> now < r.value.action.expiresAt.value)
      ensures var skipped := if r.Some? then taken - 1 else taken;
              && (forall i :: 0 <= i < skipped ==> Skipped(old(order)[i], now, agent, old(items)))
              && handledOrder == RememberAll(handledMax, old(handledOrder), LiveIds(old(items), old(order), skipped))
    {
      hide QueueOk, HandledOk, After, RememberAll, LiveIds, Skipped, MeantFor, Expired;
      var n;
      ghost var skipped;
      r, order, items, handledOrder, handledSet, n, skipped :=
        TakeNext(max, handledMax, order, items, handledOrder, handledSet, now, agent);
      taken := n;
    }

    method MarkHandled(id: int)
      requires Valid()
      modifies this`items, this`handledOrder, this`handledSet
      ensures Valid()
      ensures items == if id <= 0 then old(items) else old(items) - {id}
      ensures id > 0 ==> id in handledSet
      ensures handledOrder == Remember(handledMax, old(handledOrder), id)
    {
      if id <= 0 { return; }
      RemoveKeepsQueue(max, order, items, id);
      items := items - {id};
      MarkHandledLocked(id);
    }
  }
}
