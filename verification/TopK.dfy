/** The bounded counters of internal/collectors/ddos/topk.go: a Space-Saving summary of a weighted
    stream, which keeps at most `k` keys and replaces a least one when a new key arrives. */
module TopK {
  import opened MapSum

  /** An address or a port, by its place in the order of keys; the empty address and negative ports
      come before all others and are ignored. */
  datatype Key = Key(rank: int)

  datatype Hit = Hit(key: Key, weight: int)

  datatype Item = Item(key: Key, count: int)

  type Items = map<Key, int>

  predicate Ignored(h: Hit) {
    h.key.rank < 0 || h.weight <= 0
  }

  // ---------------------------------------------------------------------------------------------
  // The truth: what was counted, key by key.
  // ---------------------------------------------------------------------------------------------

  function Credit(h: Hit): nat {
    if Ignored(h) then 0 else h.weight
  }

  /** The weight of one key in the stream. */
  function Weight(stream: seq<Hit>, key: Key): nat {
    if stream == [] then 0
    else
      var h := stream[|stream| - 1];
      Weight(stream[..|stream| - 1], key) + if h.key == key then Credit(h) else 0
  }

  /** The weight of the whole stream. */
  function Volume(stream: seq<Hit>): nat {
    if stream == [] then 0 else Volume(stream[..|stream| - 1]) + Credit(stream[|stream| - 1])
  }

  lemma {:induction false} WeightStep(stream: seq<Hit>, h: Hit, key: Key)
    ensures Weight(stream + [h], key) == Weight(stream, key) + if h.key == key then Credit(h) else 0
  {
    assert (stream + [h])[..|stream|] == stream;
  }

  lemma {:induction false} VolumeStep(stream: seq<Hit>, h: Hit)
    ensures Volume(stream + [h]) == Volume(stream) + Credit(h)
  {
    assert (stream + [h])[..|stream|] == stream;
  }

  ghost function Counts(items: Items): int {
    Total(items, (v: int) => v)
  }

  // ---------------------------------------------------------------------------------------------
  // The guarantee.
  // ---------------------------------------------------------------------------------------------

  ghost predicate Least(items: Items, key: Key) {
    key in items && forall x :: x in items ==> items[key] <= items[x]
  }

  ghost function LeastOf(items: Items): (least: Key)
    requires |items| > 0
    ensures Least(items, least)
    decreases |items|
  {
    var x := Any(items.Keys);
    Shrinks(items, x);
    if |items| == 1 then
      assert items.Keys == {x} + (items - {x}).Keys;
      x
    else
      var y := LeastOf(items - {x});
      if items[x] < items[y] then x else y
  }

  /** The least counter, or zero while there is room. */
  ghost function Floor(k: nat, items: Items): int {
    if |items| < k || |items| == 0 then 0 else items[LeastOf(items)]
  }

  /** A counter never understates its key and overstates it by at most `floor`; a key that is not
      monitored weighs at most `floor`. */
  ghost predicate Bounds(items: Items, truth: Key -> int, floor: int) {
    && (forall x :: x in items ==> floor <= items[x] && 0 < items[x] && truth(x) <= items[x] <= truth(x) + floor)
    && (forall x :: x !in items ==> truth(x) <= floor)
  }

  function Truth(stream: seq<Hit>): Key -> int {
    x => Weight(stream, x)
  }

  ghost predicate Guarantee(k: nat, items: Items, stream: seq<Hit>) {
    && 0 < k && |items| <= k
    && Counts(items) == Volume(stream)
    && Bounds(items, Truth(stream), Floor(k, items))
  }

  /** The counters after one hit. Which of several least keys goes is left open. */
  ghost predicate Added(k: nat, items: Items, h: Hit, items': Items) {
    if Ignored(h) then items' == items
    else if h.key in items || |items| < k then items' == Raised(items, h)
    else exists least :: Least(items, least) && items' == Replaced(items, least, h)
  }

  function Replaced(items: Items, least: Key, h: Hit): Items
    requires least in items
  {
    (items - {least})[h.key := items[least] + h.weight]
  }

  lemma {:induction false} IgnoredKeepsGuarantee(k: nat, items: Items, stream: seq<Hit>, h: Hit)
    requires Guarantee(k, items, stream) && Ignored(h)
    ensures Guarantee(k, items, stream + [h])
  {
    VolumeStep(stream, h);
    forall x ensures Truth(stream + [h])(x) == Truth(stream)(x) { WeightStep(stream, h, x); }
  }

  /** Adding to a key that is monitored, or for which there is room. */
  function Raised(items: Items, h: Hit): Items {
    items[h.key := (if h.key in items then items[h.key] else 0) + h.weight]
  }

  lemma {:induction false} RaiseKeepsSize(items: Items, h: Hit)
    ensures |Raised(items, h)| == |items| + if h.key in items then 0 else 1
    ensures Counts(Raised(items, h)) == Counts(items) + h.weight
  {
    TotalUpdate(items, (v: int) => v, h.key, Raised(items, h)[h.key]);
    assert Raised(items, h).Keys == items.Keys + {h.key};
    assert h.key in items ==> items.Keys + {h.key} == items.Keys;
  }

  ghost predicate Heavier(truth: Key -> int, truth': Key -> int, h: Hit) {
    forall x :: truth'(x) == truth(x) + if x == h.key then h.weight else 0
  }

  lemma {:induction false} HitMakesHeavier(stream: seq<Hit>, h: Hit)
    requires !Ignored(h)
    ensures Heavier(Truth(stream), Truth(stream + [h]), h)
    ensures Volume(stream + [h]) == Volume(stream) + h.weight
  {
    VolumeStep(stream, h);
    forall x ensures Weight(stream + [h], x) == Weight(stream, x) + if x == h.key then h.weight else 0 {
      WeightStep(stream, h, x);
    }
  }

  lemma {:induction false} RaiseKeepsBounds(items: Items, truth: Key -> int, truth': Key -> int, floor: int, h: Hit)
    requires Bounds(items, truth, floor) && Heavier(truth, truth', h) && h.weight > 0
    requires 0 <= truth(h.key) && (h.key !in items ==> floor == 0)
    ensures Bounds(Raised(items, h), truth', floor)
  {
    assert truth'(h.key) == truth(h.key) + h.weight;
  }

  lemma {:induction false} ReplaceKeepsBounds(items: Items, truth: Key -> int, truth': Key -> int, h: Hit, least: Key)
    requires Least(items, least) && Bounds(items, truth, items[least]) && Heavier(truth, truth', h) && h.weight > 0
    requires 0 <= truth(h.key) && h.key !in items
    ensures Bounds(Replaced(items, least, h), truth', items[least])
  {
    assert truth'(h.key) == truth(h.key) + h.weight;
    assert truth'(least) == truth(least) <= items[least];
  }

  /** The bounds only get weaker as the floor rises to the least counter. */
  lemma {:induction false} FloorMayRise(k: nat, items: Items, truth: Key -> int, floor: int)
    requires Bounds(items, truth, floor) && (|items| < k ==> floor <= 0)
    requires |items| > 0
    ensures Bounds(items, truth, Floor(k, items))
  {
    if |items| >= k {
      assert floor <= items[LeastOf(items)];
    }
  }

  lemma {:induction false} RaiseKeepsGuarantee(k: nat, items: Items, stream: seq<Hit>, h: Hit)
    requires Guarantee(k, items, stream) && !Ignored(h) && (h.key in items || |items| < k)
    ensures Guarantee(k, Raised(items, h), stream + [h])
  {
    HitMakesHeavier(stream, h);
    RaiseKeepsSize(items, h);
    RaiseKeepsBounds(items, Truth(stream), Truth(stream + [h]), Floor(k, items), h);
    FloorMayRise(k, Raised(items, h), Truth(stream + [h]), Floor(k, items));
  }

  lemma {:induction false} ReplaceKeepsSize(items: Items, least: Key, h: Hit)
    requires least in items && h.key !in items
    ensures |Replaced(items, least, h)| == |items|
    ensures Counts(Replaced(items, least, h)) == Counts(items) + h.weight
  {
    var rest := items - {least};
    Shrinks(items, least);
    assert Replaced(items, least, h).Keys == rest.Keys + {h.key};
    TotalRemove(items, (v: int) => v, least);
    TotalUpdate(rest, (v: int) => v, h.key, items[least] + h.weight);
  }

  lemma {:induction false} ReplaceKeepsGuarantee(k: nat, items: Items, stream: seq<Hit>, h: Hit, least: Key)
    requires Guarantee(k, items, stream) && !Ignored(h) && h.key !in items && |items| == k && Least(items, least)
    ensures Guarantee(k, Replaced(items, least, h), stream + [h])
  {
    HitMakesHeavier(stream, h);
    ReplaceKeepsSize(items, least, h);
    assert items[least] == Floor(k, items);
    ReplaceKeepsBounds(items, Truth(stream), Truth(stream + [h]), h, least);
    FloorMayRise(k, Replaced(items, least, h), Truth(stream + [h]), items[least]);
  }

  lemma {:induction false} AddKeepsGuarantee(k: nat, items: Items, stream: seq<Hit>, h: Hit, items': Items)
    requires Guarantee(k, items, stream) && Added(k, items, h, items')
    ensures Guarantee(k, items', stream + [h])
  {
    if Ignored(h) {
      IgnoredKeepsGuarantee(k, items, stream, h);
    } else if h.key in items || |items| < k {
      RaiseKeepsGuarantee(k, items, stream, h);
    } else {
      var least :| Least(items, least) && items' == Replaced(items, least, h);
      ReplaceKeepsGuarantee(k, items, stream, h, least);
    }
  }

  lemma {:induction false} EmptyGuarantee(k: nat)
    requires 0 < k
    ensures Guarantee(k, map[], [])
  {
  }

  /** For every weighted stream and every choice among least keys, the counters are within the
      guarantee. */
  lemma {:induction false} SpaceSaving(k: nat, run: seq<Items>, stream: seq<Hit>)
    requires 0 < k && |run| == |stream| + 1 && run[0] == map[]
    requires forall i :: 0 <= i < |stream| ==> Added(k, run[i], stream[i], run[i + 1])
    ensures Guarantee(k, run[|stream|], stream)
  {
    if stream != [] {
      var n := |stream| - 1;
      SpaceSaving(k, run[..n + 1], stream[..n]);
      assert stream == stream[..n] + [stream[n]];
      AddKeepsGuarantee(k, run[n], stream[..n], stream[n], run[n + 1]);
    } else {
      EmptyGuarantee(k);
    }
  }

  lemma {:induction false} LeastIsAtMostAverage(k: nat, items: Items, low: int)
    requires |items| == k && forall x :: x in items ==> low <= items[x]
    ensures low * k <= Counts(items)
  {
    TotalAtLeast(items, (v: int) => v, low);
  }

  /** Every key that carries more than a k-th of the stream is monitored. */
  lemma {:induction false} HeavyKeysArePresent(k: nat, items: Items, stream: seq<Hit>, key: Key)
    requires Guarantee(k, items, stream) && Weight(stream, key) * k > Volume(stream)
    ensures key in items
  {
    var w := Truth(stream)(key);
    if key !in items && |items| == k {
      LeastIsAtMostAverage(k, items, w);
    }
  }

  /** No counter is off by more than a k-th of the stream. */
  lemma {:induction false} ErrorIsBounded(k: nat, items: Items, stream: seq<Hit>, key: Key)
    requires Guarantee(k, items, stream) && key in items
    ensures Weight(stream, key) <= items[key]
    ensures (items[key] - Weight(stream, key)) * k <= Volume(stream)
  {
    var error := items[key] - Truth(stream)(key);
    if |items| == k {
      LeastIsAtMostAverage(k, items, error);
    } else {
      assert Truth(stream)(key) == items[key];
    }
  }

  // ---------------------------------------------------------------------------------------------
  // The code.
  // ---------------------------------------------------------------------------------------------

  /** The search for a least counter; the order of the scan is arbitrary. */
  method FindLeast(items: Items) returns (least: Key)
    requires |items| > 0
    ensures Least(items, least)
  {
    least := Pick(items.Keys);
    var rest := items.Keys - {least};
    while rest != {}
      invariant rest <= items.Keys && least in items
      invariant forall x :: x in items && x !in rest ==> items[least] <= items[x]
      decreases |rest|
    {
      var x := Pick(rest);
      if items[x] < items[least] {
        least := x;
      }
      rest := rest - {x};
    }
  }

  method AddTo(k: nat, items: Items, h: Hit) returns (items': Items)
    requires 0 < k
    ensures Added(k, items, h, items')
  {
    if h.key.rank < 0 || h.weight <= 0 {
      return items;
    }
    if h.key in items {
      return items[h.key := items[h.key] + h.weight];
    }
    if |items| < k {
      return items[h.key := h.weight];
    }
    var least := FindLeast(items);
    items' := (items - {least})[h.key := items[least] + h.weight];
  }

  /** Larger counts first, ties by key. */
  predicate Above(a: Item, b: Item) {
    a.count > b.count || (a.count == b.count && a.key.rank < b.key.rank)
  }

  ghost predicate Lists(items: Items, out: seq<Item>) {
    && (forall i :: 0 <= i < |out| ==> out[i].key in items && out[i].count == items[out[i].key])
    && (forall x :: x in items ==> Item(x, items[x]) in out)
    && (forall i, j :: 0 <= i < j < |out| ==> Above(out[i], out[j]))
  }

  function SumOf(out: seq<Item>): int {
    if out == [] then 0 else out[0].count + SumOf(out[1..])
  }

  method Topmost(items: Items) returns (top: Item)
    requires |items| > 0
    ensures top.key in items && top.count == items[top.key]
    ensures forall x :: x in items && x != top.key ==> Above(top, Item(x, items[x]))
  {
    var key := Pick(items.Keys);
    var rest := items.Keys - {key};
    while rest != {}
      invariant rest <= items.Keys && key in items
      invariant forall x :: x in items && x !in rest && x != key ==> Above(Item(key, items[key]), Item(x, items[x]))
      invariant key !in rest
      decreases |rest|
    {
      var x := Pick(rest);
      if items[x] > items[key] || (items[x] == items[key] && x.rank < key.rank) {
        key := x;
      }
      rest := rest - {x};
    }
    top := Item(key, items[key]);
  }

  /** `ItemsSorted`: all counters in order; there are never more than `k` to cut off. */
  method ItemsSorted(items: Items) returns (out: seq<Item>)
    ensures Lists(items, out) && |out| == |items| && SumOf(out) == Counts(items)
    decreases |items|
  {
    if |items| == 0 {
      return [];
    }
    var top := Topmost(items);
    TotalRemove(items, (v: int) => v, top.key);
    Shrinks(items, top.key);
    var rest := ItemsSorted(items - {top.key});
    out := [top] + rest;
    PutOnTop(items, top, rest);
  }

  lemma {:induction false} PutOnTop(items: Items, top: Item, rest: seq<Item>)
    requires top.key in items && top.count == items[top.key]
    requires forall x :: x in items && x != top.key ==> Above(top, Item(x, items[x]))
    requires Lists(items - {top.key}, rest)
    ensures Lists(items, [top] + rest) && SumOf([top] + rest) == top.count + SumOf(rest)
  {
    assert ([top] + rest)[1..] == rest;
    forall i | 0 <= i < |rest| ensures Above(top, rest[i]) {
      assert rest[i] == Item(rest[i].key, items[rest[i].key]);
    }
    forall x | x in items ensures Item(x, items[x]) in [top] + rest {
      if x != top.key {
        assert x in items - {top.key};
      }
    }
  }

  class Counter {
    const k: nat
    var items: Items
    /** Everything added since the last reset. */
    ghost var stream: seq<Hit>

    ghost predicate Valid()
      reads this
    {
      Guarantee(k, items, stream)
    }

    constructor (size: int)
      ensures Valid() && stream == [] && k == if size <= 0 then 10 else size
    {
      k := if size <= 0 then 10 else size;
      items, stream := map[], [];
      new;
      EmptyGuarantee(k);
    }

    method Add(h: Hit)
      requires Valid()
      modifies this
      ensures Valid() && stream == old(stream) + [h] && Added(k, old(items), h, items)
    {
      items := AddTo(k, items, h);
      AddKeepsGuarantee(k, old(items), stream, h, items);
      stream := stream + [h];
    }

    method Reset()
      requires Valid()
      modifies this
      ensures Valid() && stream == [] && items == map[]
    {
      items, stream := map[], [];
      EmptyGuarantee(k);
    }
  }
}
