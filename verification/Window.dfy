/** The traffic windows of internal/collectors/ddos: packets are counted per target, sources and
    ports in bounded counters, and each rotation evaluates and clears what was counted. */
module Window {
  import opened Arithmetic
  import opened MapSum
  import opened TopK
  import opened Optional

  datatype Proto = Tcp | Udp | Icmp | Icmp6

  datatype Target = Target(dst: string, proto: Proto, port: int)

  datatype Host = Host(dst: string, proto: Proto)

  /** What `onPacket` takes from a packet that passed the filters. */
  datatype Packet = Packet(
    target: Target, source: Key, length: int, syn: bool, payload: bool, http: bool, tls: bool, amplified: bool)

  datatype Aggregate = Aggregate(
    target: Target,
    pkts: int, bytes: int,
    tcp: int, syn: int, payload: int, http: int, tls: int,
    udp: int, amplified: int, icmp: int,
    sources: Items, lastSeen: int)

  function Fresh(t: Target, now: int): Aggregate {
    Aggregate(t, 0, 0, 0, 0, 0, 0, 0, 0, 0, 0, map[], now)
  }

  function Cleared(a: Aggregate): Aggregate {
    Fresh(a.target, a.lastSeen)
  }

  function When(c: bool, w: int): int { if c then w else 0 }

  /** The counters of an aggregate after one packet of the given weight, the sources apart. */
  function Counted(a: Aggregate, p: Packet, w: int): Aggregate {
    var length := if p.length <= 0 then 1 else p.length;
    var t := p.target.proto;
    a.(pkts := a.pkts + w,
       bytes := a.bytes + length * w,
       tcp := a.tcp + When(t == Tcp, w),
       syn := a.syn + When(t == Tcp && p.syn, w),
       payload := a.payload + When(t == Tcp && p.payload, w),
       http := a.http + When(t == Tcp && p.payload && p.http, w),
       tls := a.tls + When(t == Tcp && p.payload && p.tls, w),
       udp := a.udp + When(t == Udp, w),
       amplified := a.amplified + When(t == Udp && p.amplified, w),
       icmp := a.icmp + When(t == Icmp || t == Icmp6, w))
  }

  /** The partial counts of an aggregate are parts of its packet count. */
  predicate Proportioned(t: Proto, a: Aggregate) {
    && 0 <= a.syn <= a.tcp && 0 <= a.http <= a.payload <= a.tcp && 0 <= a.tls <= a.payload
    && 0 <= a.amplified <= a.udp && 0 <= a.icmp
    && a.pkts == a.tcp + a.udp + a.icmp && a.pkts <= a.bytes && (a.pkts == 0 ==> a.bytes == 0)
    && a.pkts == match t { case Tcp => a.tcp case Udp => a.udp case Icmp => a.icmp case Icmp6 => a.icmp }
  }

  lemma CountedKeepsProportions(a: Aggregate, p: Packet, w: int)
    requires Proportioned(p.target.proto, a) && 0 < w
    ensures Proportioned(p.target.proto, Counted(a, p, w))
  {
    var length := if p.length <= 0 then 1 else p.length;
    assert length * w >= w;
  }

  /** A packet that was drawn, and what it stands for. */
  datatype Sample = Sample(packet: Packet, weight: int)

  datatype Feature =
    | Length | TcpPacket | Syn | TcpPayload | HttpRequest | TlsHello | UdpPacket | Amplification | IcmpPacket

  /** What one sample adds to the counter of a feature. */
  function Contribution(f: Feature, s: Sample): int {
    var p, w := s.packet, s.weight;
    var tcp := p.target.proto == Tcp;
    match f
    case Length => (if p.length <= 0 then 1 else p.length) * w
    case TcpPacket => if tcp then w else 0
    case Syn => if tcp && p.syn then w else 0
    case TcpPayload => if tcp && p.payload then w else 0
    case HttpRequest => if tcp && p.payload && p.http then w else 0
    case TlsHello => if tcp && p.payload && p.tls then w else 0
    case UdpPacket => if p.target.proto == Udp then w else 0
    case Amplification => if p.target.proto == Udp && p.amplified then w else 0
    case IcmpPacket => if p.target.proto in {Icmp, Icmp6} then w else 0
  }

  ghost function Amount(f: Feature, samples: seq<Sample>): int {
    if samples == [] then 0
    else Amount(f, samples[..|samples| - 1]) + Contribution(f, samples[|samples| - 1])
  }

  lemma AmountStep(f: Feature, samples: seq<Sample>, s: Sample)
    ensures Amount(f, samples + [s]) == Amount(f, samples) + Contribution(f, s)
  {
    assert (samples + [s])[..|samples|] == samples;
  }

  ghost function Hits(samples: seq<Sample>): seq<Hit> {
    if samples == [] then []
    else
      var last := samples[|samples| - 1];
      Hits(samples[..|samples| - 1]) + [Hit(last.packet.source, last.weight)]
  }

  lemma HitsStep(samples: seq<Sample>, s: Sample)
    ensures Hits(samples + [s]) == Hits(samples) + [Hit(s.packet.source, s.weight)]
  {
    assert (samples + [s])[..|samples|] == samples;
  }

  /** Every counter is the sum over the samples of what it counts. */
  ghost predicate Tallies(a: Aggregate, samples: seq<Sample>) {
    && a.bytes == Amount(Length, samples) && a.tcp == Amount(TcpPacket, samples) && a.syn == Amount(Syn, samples)
    && a.payload == Amount(TcpPayload, samples) && a.http == Amount(HttpRequest, samples)
    && a.tls == Amount(TlsHello, samples) && a.udp == Amount(UdpPacket, samples)
    && a.amplified == Amount(Amplification, samples) && a.icmp == Amount(IcmpPacket, samples)
  }

  /** Counting a sample keeps all sums. */
  lemma {:induction false} CountedTallies(a: Aggregate, samples: seq<Sample>, s: Sample)
    requires Tallies(a, samples)
    ensures Tallies(Counted(a, s.packet, s.weight), samples + [s])
  {
    hide Amount;
    forall f: Feature ensures Amount(f, samples + [s]) == Amount(f, samples) + Contribution(f, s) {
      AmountStep(f, samples, s);
    }
  }

  /** Source counters, feature counters and packet counter tell the same story about the same packets. */
  ghost predicate AggregateOk(k: nat, t: Target, a: Aggregate, samples: seq<Sample>) {
    && a.target == t && Proportioned(t.proto, a) && Tallies(a, samples)
    && Guarantee(k, a.sources, Hits(samples)) && a.pkts == Volume(Hits(samples))
  }

  lemma {:induction false} PacketKeepsAggregate(
    k: nat, a: Aggregate, samples: seq<Sample>, p: Packet, w: int, sources: Items, now: int)
    requires AggregateOk(k, p.target, a, samples) && 0 < w && 0 <= p.source.rank
    requires Added(k, a.sources, Hit(p.source, w), sources)
    ensures AggregateOk(k, p.target, Counted(a, p, w).(sources := sources, lastSeen := now),
                        samples + [Sample(p, w)])
  {
    CountedTallies(a, samples, Sample(p, w));
    CountedKeepsProportions(a, p, w);
    HitsStep(samples, Sample(p, w));
    hide Amount, Hits;
    AddKeepsGuarantee(k, a.sources, Hits(samples), Hit(p.source, w), sources);
    VolumeStep(Hits(samples), Hit(p.source, w));
  }

  /** A source that sends more than a k-th of what a target receives is among its counters. */
  lemma {:induction false} HeavySourcesAreSeen(k: nat, t: Target, a: Aggregate, samples: seq<Sample>, source: Key)
    requires AggregateOk(k, t, a, samples) && Weight(Hits(samples), source) * k > a.pkts
    ensures source in a.sources && Weight(Hits(samples), source) <= a.sources[source]
    ensures (a.sources[source] - Weight(Hits(samples), source)) * k <= a.pkts
  {
    HeavyKeysArePresent(k, a.sources, Hits(samples), source);
    ErrorIsBounded(k, a.sources, Hits(samples), source);
  }

  lemma FreshIsOk(k: nat, t: Target, now: int)
    requires 0 < k
    ensures AggregateOk(k, t, Fresh(t, now), [])
  {
    EmptyGuarantee(k);
  }

  /** An aggregate without packets holds nothing that a rotation would have to clear. */
  lemma {:induction false} IdleIsClear(k: nat, t: Target, a: Aggregate, samples: seq<Sample>)
    requires AggregateOk(k, t, a, samples) && a.pkts <= 0
    ensures a == Cleared(a)
  {
    if |a.sources| > 0 {
      var x := Any(a.sources.Keys);
      TotalAtLeast(a.sources, (v: int) => v, 1);
    }
    assert a.sources == map[];
  }

  // ---------------------------------------------------------------------------------------------
  // Entropy buckets.
  // ---------------------------------------------------------------------------------------------

  function Sum(counts: seq<int>): int {
    if counts == [] then 0 else Sum(counts[..|counts| - 1]) + counts[|counts| - 1]
  }

  lemma SumAppend(counts: seq<int>, c: int)
    ensures Sum(counts + [c]) == Sum(counts) + c
  {
    assert (counts + [c])[..|counts|] == counts;
  }

  lemma {:induction false} SumOfPrefix(out: seq<Item>, i: nat)
    requires i < |out|
    ensures SumOf(out[..i + 1]) == SumOf(out[..i]) + out[i].count
  {
    if i > 0 {
      SumOfPrefix(out[1..], i - 1);
      assert out[..i + 1][1..] == out[1..][..i] && out[..i][1..] == out[1..][..i - 1];
    }
  }

  datatype Buckets = Buckets(counts: seq<int>, other: int, distinct: nat, top: Key, topCount: int)

  const NO_BUCKETS := Buckets([], 0, 0, Key(0), 0)

  /** The positive counts, in order. */
  function Positive(items: seq<Item>): seq<int> {
    if items == [] then []
    else
      var last := items[|items| - 1];
      Positive(items[..|items| - 1]) + if last.count > 0 then [last.count] else []
  }

  lemma PositiveStart(items: seq<Item>)
    ensures Positive(items[..0]) == [] && Sum([]) == 0
  {
  }

  lemma {:induction false} PositiveStep(items: seq<Item>, i: nat)
    requires i < |items|
    ensures Positive(items[..i + 1]) == Positive(items[..i]) + if items[i].count > 0 then [items[i].count] else []
  {
    assert items[..i + 1][..i] == items[..i];
  }

  /** The bucket loops of `srcEntropyNorm` and `portEntropy`. `other` is what the listed counters leave
      of the total. */
  method FillBuckets(total: int, items: seq<Item>) returns (r: Buckets)
    ensures total <= 0 ==> r == NO_BUCKETS
    ensures total > 0 ==>
              && r.other == total - Sum(Positive(items))
              && r.counts == Positive(items) + (if r.other > 0 then [r.other] else [])
              && r.distinct == |items| + (if r.other > 0 then 1 else 0)
              && 0 <= r.topCount && (forall i :: 0 <= i < |items| ==> items[i].count <= r.topCount)
              && (r.topCount > 0 ==> Item(r.top, r.topCount) in items)
  {
    if total <= 0 {
      return NO_BUCKETS;
    }
    PositiveStart(items);
    hide Sum, Positive;
    var sum, counts, top, topCount := 0, [], Key(0), 0;
    for i := 0 to |items|
      invariant counts == Positive(items[..i]) && sum == Sum(counts)
      invariant 0 <= topCount && (forall j :: 0 <= j < i ==> items[j].count <= topCount)
      invariant topCount > 0 ==> Item(top, topCount) in items
    {
      PositiveStep(items, i);
      var item := items[i];
      if item.count > 0 {
        SumAppend(counts, item.count);
        counts := counts + [item.count];
        sum := sum + item.count;
        if item.count > topCount {
          top, topCount := item.key, item.count;
        }
      }
    }
    assert items[..|items|] == items;
    var other := total - sum;
    var distinct := |items| + if other > 0 then 1 else 0;
    r := Buckets(if other > 0 then counts + [other] else counts, other, distinct, top, topCount);
  }

  lemma {:induction false} AllPositive(items: seq<Item>)
    requires forall i :: 0 <= i < |items| ==> 0 < items[i].count
    ensures Sum(Positive(items)) == SumOf(items) && |Positive(items)| == |items|
  {
    if items != [] {
      var n := |items| - 1;
      AllPositive(items[..n]);
      SumAppend(Positive(items[..n]), items[n].count);
      SumOfPrefix(items, n);
      assert items[..n + 1] == items;
    }
  }

  /** Evaluates a counter against the total it was fed. Because counters are never lost, only
      reassigned, there is no remainder: the `other` bucket stays empty and at most `k` buckets are
      distinguished. */
  method Evaluate(k: nat, total: int, items: Items, ghost stream: seq<Hit>) returns (r: Buckets)
    requires Guarantee(k, items, stream) && total == Volume(stream) && 0 < total
    ensures r.other == 0 && r.distinct == |items| <= k && |r.counts| == |items|
    ensures Sum(r.counts) == total && r.topCount <= total
    ensures r.top in items && items[r.top] == r.topCount && forall x :: x in items ==> items[x] <= r.topCount
  {
    var out := ItemsSorted(items);
    ListedCounts(k, items, stream, out);
    r := FillBuckets(total, out);
    assert r.counts == Positive(out);
    assert 0 < out[0].count <= r.topCount;
    TopIsPart(items, r.top);
  }

  lemma {:induction false} ListedCounts(k: nat, items: Items, stream: seq<Hit>, out: seq<Item>)
    requires Guarantee(k, items, stream) && Volume(stream) > 0
    requires Lists(items, out) && |out| == |items| && SumOf(out) == Counts(items)
    ensures Sum(Positive(out)) == Volume(stream) && |Positive(out)| == |items| <= k && |items| > 0
    ensures forall i :: 0 <= i < |out| ==> 0 < out[i].count == items[out[i].key]
    ensures forall x :: x in items ==> 0 < items[x]
  {
    AllPositive(out);
  }

  lemma {:induction false} TopIsPart(items: Items, top: Key)
    requires top in items && forall x :: x in items ==> 0 < items[x]
    ensures items[top] <= Counts(items)
  {
    TotalRemove(items, (v: int) => v, top);
    TotalAtLeast(items - {top}, (v: int) => v, 0);
  }

  /** The largest counter holds at least a k-th of everything counted. */
  lemma {:induction false} TopCarriesItsShare(k: nat, items: Items, stream: seq<Hit>, top: Key)
    requires Guarantee(k, items, stream) && top in items && forall x :: x in items ==> items[x] <= items[top]
    ensures Volume(stream) <= items[top] * k
  {
    TotalAtMost(items, items[top]);
    Scale(items[top], |items|, k);
  }

  lemma {:induction false} TotalAtMost(items: Items, high: int)
    requires forall x :: x in items ==> items[x] <= high
    ensures Counts(items) <= high * |items|
    decreases |items|
  {
    if |items| != 0 {
      var x := Any(items.Keys);
      Shrinks(items, x);
      TotalRemove(items, (v: int) => v, x);
      TotalAtMost(items - {x}, high);
      Distribute(high, |items - {x}|, |items|);
    }
  }

  // ---------------------------------------------------------------------------------------------
  // Hosts.
  // ---------------------------------------------------------------------------------------------

  function HostOf(t: Target): Host {
    Host(t.dst, t.proto)
  }

  /** The packets of one host in the whole window. */
  ghost function HostTotal(aggs: map<Target, Aggregate>, h: Host): int {
    Total(aggs, (a: Aggregate) => if HostOf(a.target) == h then a.pkts else 0)
  }

  datatype Ports = Ports(total: int, ports: Items)

  /** The packets of one host and port. */
  ghost function PortTotal(aggs: map<Target, Aggregate>, h: Host, port: int): int {
    var t := Target(h.dst, h.proto, port);
    if t in aggs then aggs[t].pkts else 0
  }

  /** The counters of a host hold what a stream left in them that weighs each port as the aggregates do. */
  ghost predicate Fed(n: nat, aggs: map<Target, Aggregate>, h: Host, p: Ports, stream: seq<Hit>) {
    && Guarantee(n, p.ports, stream) && p.total == Volume(stream)
    && forall port :: Weight(stream, Key(port)) == PortTotal(aggs, h, port)
  }

  /** All that the hosts' counters were fed with. */
  ghost predicate AllFed(
    n: nat, aggs: map<Target, Aggregate>, hosts: map<Host, Ports>, streams: map<Host, seq<Hit>>)
  {
    && hosts.Keys == streams.Keys
    && (forall h :: h in hosts ==> Fed(n, aggs, h, hosts[h], streams[h]) && 0 < hosts[h].total)
    && (forall h, port :: h !in hosts ==> PortTotal(aggs, h, port) == 0)
  }

  predicate TargetsOk(aggs: map<Target, Aggregate>) {
    forall t :: t in aggs ==> aggs[t].target == t && 0 <= t.port && 0 <= aggs[t].pkts
  }

  /** The first loop of `rotateIfNeeded`: packets per host, and its ports in a bounded counter. */
  method CountHosts(n: nat, aggs: map<Target, Aggregate>)
    returns (hosts: map<Host, Ports>, ghost streams: map<Host, seq<Hit>>)
    requires 0 < n && TargetsOk(aggs)
    ensures AllFed(n, aggs, hosts, streams)
    ensures forall h :: h in hosts ==> hosts[h].total == HostTotal(aggs, h)
    ensures forall h :: h !in hosts ==> HostTotal(aggs, h) == 0
  {
    hide AllFed, HostTotal, Parts, TargetsOk;
    hosts, streams := map[], map[];
    ghost var counted: map<Target, Aggregate> := map[];
    NothingFed(n);
    NothingMoved(aggs);
    var rest := aggs;
    while |rest| != 0
      invariant TargetsOk(rest) && Parts(aggs, rest, counted)
      invariant AllFed(n, counted, hosts, streams)
      invariant forall h :: h in hosts ==> 0 < hosts[h].total
      invariant forall h :: HostTotal(rest, h) + (if h in hosts then hosts[h].total else 0) == HostTotal(aggs, h)
      decreases |rest|
    {
      var t := Pick(rest.Keys);
      var a := rest[t];
      Shrinks(rest, t);
      MovePart(aggs, rest, counted, t);
      if a.pkts > 0 {
        ghost var stream;
        var ports;
        ports, stream := CountPort(n, counted, hosts, streams, t, a);
        hosts, streams := hosts[HostOf(t) := ports], streams[HostOf(t) := stream];
      } else {
        IdleTarget(n, counted, hosts, streams, t, a);
      }
      counted := counted[t := a];
      rest := rest - {t};
    }
    NoTargets(rest);
    AllCounted(aggs, rest, counted);
  }

  /** Every aggregate is either still to be counted or has been. */
  ghost predicate Parts(aggs: map<Target, Aggregate>, rest: map<Target, Aggregate>, counted: map<Target, Aggregate>) {
    && (forall t :: t in rest ==> t in aggs && rest[t] == aggs[t] && t !in counted)
    && (forall t :: t in counted ==> t in aggs && counted[t] == aggs[t])
    && (forall t :: t in aggs ==> t in rest || t in counted)
  }

  lemma MovePart(aggs: map<Target, Aggregate>, rest: map<Target, Aggregate>, counted: map<Target, Aggregate>, t: Target)
    requires Parts(aggs, rest, counted) && t in rest && TargetsOk(rest)
    ensures t !in counted && Parts(aggs, rest - {t}, counted[t := rest[t]])
    ensures TargetsOk(rest - {t}) && 0 <= t.port && 0 <= rest[t].pkts
    ensures forall h :: HostTotal(rest, h) == HostTotal(rest - {t}, h) + if h == HostOf(t) then rest[t].pkts else 0
  {
    RemoveTarget(rest, t);
  }

  lemma NothingMoved(aggs: map<Target, Aggregate>)
    ensures Parts(aggs, aggs, map[])
  {
  }

  lemma AllCounted(aggs: map<Target, Aggregate>, rest: map<Target, Aggregate>, counted: map<Target, Aggregate>)
    requires Parts(aggs, rest, counted) && |rest| == 0
    ensures counted == aggs
  {
    SameMembers(counted.Keys, aggs.Keys);
  }

  lemma NothingFed(n: nat)
    ensures AllFed(n, map[], map[], map[])
  {
  }

  lemma {:induction false} IdleTarget(
    n: nat, aggs: map<Target, Aggregate>, hosts: map<Host, Ports>, streams: map<Host, seq<Hit>>, t: Target,
    a: Aggregate)
    requires AllFed(n, aggs, hosts, streams) && t !in aggs && a.pkts == 0
    ensures AllFed(n, aggs[t := a], hosts, streams)
  {
    hide Guarantee, Weight, Volume, Fed;
    var aggs' := aggs[t := a];
    forall h, port ensures PortTotal(aggs', h, port) == PortTotal(aggs, h, port) {
    }
    hide PortTotal;
    forall h | h in hosts ensures Fed(n, aggs', h, hosts[h], streams[h]) && 0 < hosts[h].total {
      FedAlike(n, aggs, aggs', h, hosts[h], streams[h]);
    }
    forall h, port | h !in hosts ensures PortTotal(aggs', h, port) == 0 {
      assert PortTotal(aggs, h, port) == 0;
    }
  }

  lemma FedAlike(
    n: nat, aggs: map<Target, Aggregate>, aggs': map<Target, Aggregate>, h: Host, p: Ports, stream: seq<Hit>)
    requires Fed(n, aggs, h, p, stream) && forall port :: PortTotal(aggs', h, port) == PortTotal(aggs, h, port)
    ensures Fed(n, aggs', h, p, stream)
  {
    hide PortTotal, Guarantee, Weight, Volume;
  }

  lemma {:induction false} NoTargets(aggs: map<Target, Aggregate>)
    requires |aggs| == 0
    ensures forall h :: HostTotal(aggs, h) == 0
  {
  }

  lemma {:induction false} RemoveTarget(aggs: map<Target, Aggregate>, t: Target)
    requires t in aggs && aggs[t].target == t
    ensures forall h :: HostTotal(aggs, h) == HostTotal(aggs - {t}, h) + if h == HostOf(t) then aggs[t].pkts else 0
  {
    forall h ensures HostTotal(aggs, h) == HostTotal(aggs - {t}, h) + if h == HostOf(t) then aggs[t].pkts else 0 {
      TotalRemove(aggs, (a: Aggregate) => if HostOf(a.target) == h then a.pkts else 0, t);
    }
  }

  method CountPort(
    n: nat, ghost counted: map<Target, Aggregate>, hosts: map<Host, Ports>, ghost streams: map<Host, seq<Hit>>,
    t: Target, a: Aggregate)
    returns (p: Ports, ghost stream: seq<Hit>)
    requires 0 < n && 0 <= t.port && 0 < a.pkts && t !in counted
    requires AllFed(n, counted, hosts, streams)
    ensures p.total == (if HostOf(t) in hosts then hosts[HostOf(t)].total else 0) + a.pkts
    ensures AllFed(n, counted[t := a], hosts[HostOf(t) := p], streams[HostOf(t) := stream])
  {
    var h := HostOf(t);
    BeforePort(n, counted, hosts, streams, h);
    hide AllFed, Guarantee, Volume, Added, Fed;
    var before := if h in hosts then hosts[h] else Ports(0, map[]);
    ghost var earlier := if h in hosts then streams[h] else [];
    var hit := Hit(Key(t.port), a.pkts);
    var ports := AddTo(n, before.ports, hit);
    p, stream := Ports(before.total + a.pkts, ports), earlier + [hit];
    PortFed(n, counted, before, earlier, t, a, ports);
    HostFed(n, counted, hosts, streams, t, a, p, stream);
  }

  lemma BeforePort(
    n: nat, counted: map<Target, Aggregate>, hosts: map<Host, Ports>, streams: map<Host, seq<Hit>>, h: Host)
    requires 0 < n && AllFed(n, counted, hosts, streams)
    ensures if h in hosts then h in streams && Fed(n, counted, h, hosts[h], streams[h])
            else Fed(n, counted, h, Ports(0, map[]), [])
  {
    EmptyGuarantee(n);
  }

  lemma {:induction false} PortFed(
    n: nat, counted: map<Target, Aggregate>, before: Ports, earlier: seq<Hit>, t: Target, a: Aggregate, ports: Items)
    requires 0 < n && 0 <= t.port && 0 < a.pkts && t !in counted && Fed(n, counted, HostOf(t), before, earlier)
    requires Added(n, before.ports, Hit(Key(t.port), a.pkts), ports)
    ensures Fed(n, counted[t := a], HostOf(t), Ports(before.total + a.pkts, ports),
                earlier + [Hit(Key(t.port), a.pkts)])
  {
    var hit := Hit(Key(t.port), a.pkts);
    AddKeepsGuarantee(n, before.ports, earlier, hit, ports);
    VolumeStep(earlier, hit);
    hide Guarantee, Volume, Added, Weight;
    forall port ensures Weight(earlier + [hit], Key(port)) == PortTotal(counted[t := a], HostOf(t), port) {
      WeightStep(earlier, hit, Key(port));
      assert Weight(earlier, Key(port)) == PortTotal(counted, HostOf(t), port);
    }
  }

  lemma {:induction false} HostFed(
    n: nat, counted: map<Target, Aggregate>, hosts: map<Host, Ports>, streams: map<Host, seq<Hit>>, t: Target,
    a: Aggregate, p: Ports, stream: seq<Hit>)
    requires AllFed(n, counted, hosts, streams) && 0 < p.total && t !in counted
    requires Fed(n, counted[t := a], HostOf(t), p, stream)
    ensures AllFed(n, counted[t := a], hosts[HostOf(t) := p], streams[HostOf(t) := stream])
  {
    hide Guarantee, Volume, Weight, Fed;
    var counted' := counted[t := a];
    forall h, port | h != HostOf(t) ensures PortTotal(counted', h, port) == PortTotal(counted, h, port) {
    }
    hide PortTotal;
    forall h | h in hosts && h != HostOf(t) ensures Fed(n, counted', h, hosts[h], streams[h]) {
      FedAlike(n, counted, counted', h, hosts[h], streams[h]);
    }
  }

  /** What every evaluation must look like: nothing is unaccounted for, there are no more buckets than the
      counter has room for, and the top entry is a true one: it holds at least its k-th of the total,
      overstates its key by at most a k-th, and no key that weighs more than a k-th weighs more than it. */
  ghost predicate Complete(r: Buckets, k: nat, stream: seq<Hit>) {
    && r.other == 0 && r.distinct == |r.counts| <= k && Sum(r.counts) == Volume(stream)
    && r.topCount <= Volume(stream) <= r.topCount * k
    && Weight(stream, r.top) <= r.topCount && (r.topCount - Weight(stream, r.top)) * k <= Volume(stream)
    && forall x :: Weight(stream, x) * k > Volume(stream) ==> Weight(stream, x) <= r.topCount
  }

  method EvaluateFed(k: nat, items: Items, total: int, ghost stream: seq<Hit>) returns (r: Buckets)
    requires Guarantee(k, items, stream) && total == Volume(stream) && 0 < total
    ensures Complete(r, k, stream)
  {
    r := Evaluate(k, total, items, stream);
    TopCarriesItsShare(k, items, stream, r.top);
    ErrorIsBounded(k, items, stream, r.top);
    TopIsBounded(items, stream, k, r.top);
    forall x | Weight(stream, x) * k > Volume(stream) ensures Weight(stream, x) <= r.topCount {
      HeavyKeysArePresent(k, items, stream, x);
    }
  }

  lemma TopIsBounded(items: Items, stream: seq<Hit>, k: nat, top: Key)
    requires Guarantee(k, items, stream) && top in items
    ensures Weight(stream, top) <= items[top]
  {
    assert Truth(stream)(top) <= items[top];
  }

  method EvaluateHosts(
    n: nat, ghost aggs: map<Target, Aggregate>, hosts: map<Host, Ports>, ghost streams: map<Host, seq<Hit>>)
    returns (metrics: map<Host, Buckets>)
    requires AllFed(n, aggs, hosts, streams)
    ensures forall h :: h in metrics <==> h in hosts
    ensures forall h :: h in metrics ==> h in streams && Complete(metrics[h], n, streams[h])
  {
    hide AllFed, Complete;
    metrics := map[];
    var rest := hosts.Keys;
    while rest != {}
      invariant rest <= hosts.Keys
      invariant forall h :: h in metrics <==> h in hosts && h !in rest
      invariant forall h :: h in metrics ==> h in streams && Complete(metrics[h], n, streams[h])
      decreases |rest|
    {
      var h := Pick(rest);
      HostIsFed(n, aggs, hosts, streams, h);
      var r := EvaluateFed(n, hosts[h].ports, hosts[h].total, streams[h]);
      metrics := metrics[h := r];
      rest := rest - {h};
    }
  }

  lemma HostIsFed(
    n: nat, aggs: map<Target, Aggregate>, hosts: map<Host, Ports>, streams: map<Host, seq<Hit>>, h: Host)
    requires AllFed(n, aggs, hosts, streams) && h in hosts
    ensures h in streams && Guarantee(n, hosts[h].ports, streams[h]) && 0 < hosts[h].total == Volume(streams[h])
    ensures forall port :: Weight(streams[h], Key(port)) == PortTotal(aggs, h, port)
  {
  }

  // ---------------------------------------------------------------------------------------------
  // Rotation.
  // ---------------------------------------------------------------------------------------------

  ghost predicate WindowOk(k: nat, aggs: map<Target, Aggregate>, samples: map<Target, seq<Sample>>) {
    && aggs.Keys == samples.Keys
    && forall t :: t in aggs ==> 0 <= t.port && AggregateOk(k, t, aggs[t], samples[t])
  }

  predicate Stale(a: Aggregate, cutoff: int) {
    a.lastSeen < cutoff
  }

  lemma {:induction false} WindowUpdate(
    k: nat, aggs: map<Target, Aggregate>, samples: map<Target, seq<Sample>>, t: Target, a: Aggregate,
    drawn: seq<Sample>)
    requires WindowOk(k, aggs, samples) && 0 <= t.port && AggregateOk(k, t, a, drawn)
    ensures WindowOk(k, aggs[t := a], samples[t := drawn])
  {
    hide AggregateOk;
  }

  lemma {:induction false} Tracked(
    k: nat, aggs: map<Target, Aggregate>, samples: map<Target, seq<Sample>>, t: Target, now: int)
    requires 0 < k && WindowOk(k, aggs, samples)
    ensures AggregateOk(k, t, if t in aggs then aggs[t] else Fresh(t, now), if t in samples then samples[t] else [])
  {
    FreshIsOk(k, t, now);
  }

  /** What the rotation loops need to know of a window. */
  ghost predicate Countable(k: nat, t: Target, a: Aggregate, stream: seq<Hit>) {
    && a.target == t && 0 <= t.port && 0 <= a.pkts && (a.pkts == 0 ==> a == Cleared(a))
    && Guarantee(k, a.sources, stream) && a.pkts == Volume(stream)
  }

  lemma {:induction false} WindowIsCountable(k: nat, aggs: map<Target, Aggregate>, samples: map<Target, seq<Sample>>)
    requires WindowOk(k, aggs, samples)
    ensures TargetsOk(aggs) && aggs.Keys == samples.Keys
    ensures forall t :: t in aggs ==> Countable(k, t, aggs[t], Hits(samples[t]))
  {
    forall t | t in aggs ensures Countable(k, t, aggs[t], Hits(samples[t])) {
      if aggs[t].pkts == 0 {
        IdleIsClear(k, t, aggs[t], samples[t]);
      }
    }
  }

  /** One aggregate at the end of the window. */
  method CloseAggregate(k: nat, t: Target, a: Aggregate, ghost stream: seq<Hit>)
    returns (a': Aggregate, report: Option<Buckets>)
    requires Countable(k, t, a, stream)
    ensures a' == Cleared(a)
    ensures report.Some? <==> a.pkts > 0
    ensures report.Some? ==> Complete(report.value, k, stream)
  {
    if a.pkts <= 0 {
      return a, None;
    }
    var r := EvaluateFed(k, a.sources, a.pkts, stream);
    return Cleared(a), Some(r);
  }

  /** The second loop of `rotateIfNeeded`: stale aggregates go, the others are evaluated and cleared. */
  method CloseWindow(k: nat, aggs: map<Target, Aggregate>, ghost samples: map<Target, seq<Sample>>, cutoff: int)
    returns (aggs': map<Target, Aggregate>, reports: map<Target, Buckets>)
    requires aggs.Keys == samples.Keys && forall t :: t in aggs ==> Countable(k, t, aggs[t], Hits(samples[t]))
    ensures forall t :: t in aggs' <==> t in aggs && !Stale(aggs[t], cutoff)
    ensures forall t :: t in aggs' ==> aggs'[t] == Cleared(aggs[t])
    ensures forall t :: t in reports <==> t in aggs' && aggs[t].pkts > 0
    ensures forall t :: t in reports ==> Complete(reports[t], k, Hits(samples[t]))
  {
    hide Countable, Complete, Hits;
    aggs', reports := map[], map[];
    var rest := aggs.Keys;
    while rest != {}
      invariant rest <= aggs.Keys
      invariant forall t :: t in aggs' <==> t in aggs && t !in rest && !Stale(aggs[t], cutoff)
      invariant forall t :: t in aggs' ==> aggs'[t] == Cleared(aggs[t])
      invariant forall t :: t in reports <==> t in aggs' && aggs[t].pkts > 0
      invariant forall t :: t in reports ==> Complete(reports[t], k, Hits(samples[t]))
      decreases |rest|
    {
      var t := Pick(rest);
      rest := rest - {t};
      if aggs[t].lastSeen >= cutoff {
        var a, report := CloseAggregate(k, t, aggs[t], Hits(samples[t]));
        aggs' := aggs'[t := a];
        if report.Some? {
          reports := reports[t := report.value];
        }
      }
    }
  }

  /** The counting part of `onPacket`. */
  method CountPacket(k: nat, a: Aggregate, p: Packet, w: int, now: int, ghost drawn: seq<Sample>)
    returns (a': Aggregate)
    requires AggregateOk(k, p.target, a, drawn) && 0 < w && 0 <= p.source.rank
    ensures AggregateOk(k, p.target, a', drawn + [Sample(p, w)])
    ensures a' == Counted(a, p, w).(sources := a'.sources, lastSeen := now)
  {
    var sources := AddTo(k, a.sources, Hit(p.source, w));
    PacketKeepsAggregate(k, a, drawn, p, w, sources, now);
    a' := Counted(a, p, w).(sources := sources, lastSeen := now);
  }

  class Collector {
    const k: nat
    const topN: nat
    const length: int
    const highWatermark: int
    const every: int
    var aggs: map<Target, Aggregate>
    var windowStart: int
    /** Packets seen under backpressure, and how many of them were skipped, since the start. */
    var sampled: nat
    var dropped: nat
    /** The weight given to packets under backpressure. */
    ghost var credited: int
    /** The packets of the current window. */
    ghost var samples: map<Target, seq<Sample>>

    ghost predicate Valid()
      reads this
    {
      0 < k && 0 < topN && WindowOk(k, aggs, samples) && Sampled()
    }

    /** Sampling is fair: the weights given out add up to the packets seen, less those of the round
        that is not complete yet. */
    ghost predicate Sampled()
      reads `sampled, `dropped, `credited
    {
      if every <= 1 then credited == sampled && dropped == 0
      else credited == sampled - sampled % every && dropped == sampled - sampled / every
    }

    constructor (topSrc: int, ports: int, window: int, watermark: int, sampleEvery: int, now: int)
      ensures Valid() && aggs == map[]
    {
      k := if topSrc <= 0 then 10 else topSrc;
      topN := if ports <= 0 then 12 else ports;
      length, highWatermark, every := window, watermark, sampleEvery;
      aggs, windowStart, sampled, dropped := map[], now, 0, 0;
      credited, samples := 0, map[];
    }

    method SampleWeight(buffered: int) returns (w: nat)
      requires Valid()
      modifies `sampled, `dropped, `credited
      ensures Valid()
      ensures highWatermark <= 0 || buffered < highWatermark ==> w == 1 && sampled == old(sampled)
      ensures highWatermark > 0 && buffered >= highWatermark ==>
                sampled == old(sampled) + 1 && credited == old(credited) + w
    {
      if highWatermark <= 0 || buffered < highWatermark {
        return 1;
      }
      sampled := sampled + 1;
      if every <= 1 {
        w := 1;
      } else {
        NextSample(sampled, every);
        if sampled % every == 0 {
          w := every;
        } else {
          w := 0;
          dropped := dropped + 1;
        }
      }
      credited := credited + w;
    }

    /** Every packet is sampled first. One that is drawn and `passes` the filters is counted under its
        target, in the total and in the source counters alike; nothing else changes. */
    method OnPacket(p: Packet, passes: bool, buffered: int, now: int) returns (w: nat)
      requires Valid() && 0 <= p.source.rank && 0 <= p.target.port
      modifies `sampled, `dropped, `credited, `aggs, `samples
      ensures Valid()
      ensures highWatermark > 0 && buffered >= highWatermark ==>
                sampled == old(sampled) + 1 && credited == old(credited) + w
      ensures highWatermark <= 0 || buffered < highWatermark ==> w == 1 && sampled == old(sampled)
      ensures w == 0 || !passes ==> aggs == old(aggs)
      ensures forall t :: t in old(aggs) && t != p.target ==> t in aggs && aggs[t] == old(aggs)[t]
      ensures forall t :: t in aggs ==> t in old(aggs) || t == p.target
      ensures w > 0 && passes ==>
                && p.target in aggs && p.target in samples
                && aggs[p.target].lastSeen == now
                && aggs[p.target].pkts == (if p.target in old(aggs) then old(aggs)[p.target].pkts else 0) + w
                && samples[p.target] ==
                     (if p.target in old(samples) then old(samples)[p.target] else []) + [Sample(p, w)]
    {
      hide WindowOk, AggregateOk, Sampled;
      w := SampleWeight(buffered);
      if w <= 0 || !passes {
        return;
      }
      var t := p.target;
      ghost var drawn := if t in samples then samples[t] else [];
      Tracked(k, aggs, samples, t, now);
      var a := CountPacket(k, if t in aggs then aggs[t] else Fresh(t, now), p, w, now, drawn);
      WindowUpdate(k, aggs, samples, t, a, drawn + [Sample(p, w)]);
      aggs, samples := aggs[t := a], samples[t := drawn + [Sample(p, w)]];
    }

    /** `rotateIfNeeded`: every host and every target that saw traffic is evaluated completely, against
        its own packets, and the next window starts from zero. `streams` weighs the ports of each host. */
    method RotateIfNeeded(now: int)
      returns (rotated: bool, metrics: map<Host, Buckets>, reports: map<Target, Buckets>,
               ghost streams: map<Host, seq<Hit>>)
      requires Valid()
      modifies `aggs, `samples, `windowStart
      ensures Valid()
      ensures rotated <==> now - old(windowStart) >= length
      ensures !rotated ==> aggs == old(aggs) && metrics == map[] && reports == map[]
      ensures rotated ==>
                && windowStart == now
                && (forall t :: t in aggs <==> t in old(aggs) && !Stale(old(aggs)[t], now - 10 * length))
                && (forall t :: t in aggs ==>
                      && aggs[t] == Cleared(old(aggs)[t]) && aggs[t].pkts == aggs[t].bytes == 0
                      && aggs[t].sources == map[] && aggs[t].lastSeen == old(aggs)[t].lastSeen)
      ensures forall h :: h in metrics <==> rotated && HostTotal(old(aggs), h) > 0
      ensures forall h :: h in metrics ==>
                && h in streams && Complete(metrics[h], topN, streams[h])
                && Volume(streams[h]) == HostTotal(old(aggs), h)
                && forall port :: Weight(streams[h], Key(port)) == PortTotal(old(aggs), h, port)
      ensures forall t :: t in reports <==> rotated && t in aggs && old(aggs)[t].pkts > 0
      ensures forall t :: t in reports ==>
                t in old(samples) && Complete(reports[t], k, Hits(old(samples)[t])) && HostOf(t) in metrics
    {
      hide WindowOk, Countable, Complete, AllFed, Fed, HostTotal, PortTotal, Sampled, Hits, Weight, Volume;
      metrics, reports, streams := map[], map[], map[];
      rotated := now - windowStart >= length;
      if !rotated {
        return;
      }
      WindowIsCountable(k, aggs, samples);
      var hosts;
      hosts, streams := CountHosts(topN, aggs);
      forall h | h in hosts
        ensures h in streams && 0 < Volume(streams[h]) == hosts[h].total
        ensures forall port :: Weight(streams[h], Key(port)) == PortTotal(aggs, h, port)
      {
        HostIsFed(topN, aggs, hosts, streams, h);
      }
      metrics := EvaluateHosts(topN, aggs, hosts, streams);
      ghost var before := aggs;
      aggs, reports := CloseWindow(k, aggs, samples, now - 10 * length);
      forall t | t in reports ensures HostOf(t) in metrics {
        BusyHost(before, t);
      }
      samples := map t | t in aggs :: [];
      ClearedWindow(k, before, aggs, samples);
      windowStart := now;
    }
  }

  lemma {:induction false} ClearedWindow(
    k: nat, before: map<Target, Aggregate>, aggs: map<Target, Aggregate>, samples: map<Target, seq<Sample>>)
    requires 0 < k && TargetsOk(before)
    requires forall t :: t in aggs ==> t in before && aggs[t] == Cleared(before[t])
    requires aggs.Keys == samples.Keys && forall t :: t in samples ==> samples[t] == []
    ensures WindowOk(k, aggs, samples)
  {
    forall t | t in aggs ensures AggregateOk(k, t, aggs[t], []) {
      FreshIsOk(k, t, aggs[t].lastSeen);
    }
  }

  lemma {:induction false} BusyHost(aggs: map<Target, Aggregate>, t: Target)
    requires TargetsOk(aggs) && t in aggs && aggs[t].pkts > 0
    ensures HostTotal(aggs, HostOf(t)) > 0
  {
    RemoveTarget(aggs, t);
    TotalAtLeast(aggs - {t}, (a: Aggregate) => if HostOf(a.target) == HostOf(t) then a.pkts else 0, 0);
  }

  lemma NextSample(n: nat, every: int)
    requires 0 < n && 1 < every
    ensures n % every == 0 ==> (n - 1) % every == every - 1 && n / every == (n - 1) / every + 1
    ensures n % every != 0 ==> (n - 1) % every == n % every - 1 && n / every == (n - 1) / every
  {
    var q, r := (n - 1) / every, (n - 1) % every;
    assert n - 1 == q * every + r;
    if r == every - 1 {
      assert n == (q + 1) * every;
      DivMod(n, every, q + 1, 0);
    } else {
      DivMod(n, every, q, r + 1);
    }
  }
}
