/** Planning of active discovery: internal/topologydiscovery/discovery.go. */
module Discovery {
  import opened Arithmetic
  import opened Ipv4

  type Ones4 = n: nat | n <= 32
  type Ones6 = n: nat | n <= 128

  /** A range as `*net.IPNet`; `Absent` is a nil pointer or a range without an address. */
  datatype Cidr = V4(base: Ip, ones: Ones4) | V6(number: nat, prefix: Ones6) | Absent

  // ---------------------------------------------------------------------------------------------
  // Ranges as sets of numbers.
  // ---------------------------------------------------------------------------------------------

  function Size(c: Cidr): nat
    requires c.V4?
    ensures Size(c) > 0
  {
    Pow2(32 - c.ones)
  }

  function Network(c: Cidr): int
    requires c.V4?
  {
    Value(c.base) - Value(c.base) % Size(c)
  }

  /** `IPNet.Contains` for IPv4: the masked bytes agree. */
  predicate Contains(c: Cidr, ip: Ip) {
    c.V4? && Masked(c.base, c.ones) == Masked(ip, c.ones)
  }

  lemma SameBlock(x: nat, y: nat, s: nat)
    requires s > 0
    ensures x - x % s == y - y % s <==> x - x % s <= y < x - x % s + s
  {
    var q, r := x / s, x % s;
    assert x - r == q * s;
    if x - r <= y < x - r + s {
      DivMod(y, s, q, y - q * s);
    }
  }

  /** Agreement of the masked bytes is membership in the block of numbers. */
  lemma {:induction false} ContainsIsRange(c: Cidr, ip: Ip)
    requires c.V4?
    ensures Contains(c, ip) <==> Network(c) <= Value(ip) < Network(c) + Size(c)
  {
    MaskedValue(c.base, c.ones);
    MaskedValue(ip, c.ones);
    SameBlock(Value(c.base), Value(ip), Size(c));
    if Value(Masked(c.base, c.ones)) == Value(Masked(ip, c.ones)) {
      ValueInjective(Masked(c.base, c.ones), Masked(ip, c.ones));
    }
  }

  lemma {:induction false} BlockFits(c: Cidr)
    requires c.V4?
    ensures 0 <= Network(c) && Network(c) + Size(c) <= Pow2(32)
  {
    hide Pow2, Value;
    PowSum(c.ones, 32 - c.ones);
    ValueBound(c.base);
    BlockWithin(Value(c.base), Size(c), Pow2(c.ones));
  }

  /** A byte of the last address of a range: the masked base with all other bits set. */
  function FillByte(x: int, ones: int): (b: int)
    requires IsByte(x)
    ensures IsByte(b) && b == x - x % Pow2(Zeros(ones)) + Pow2(Zeros(ones)) - 1
  {
    FilledByte(x, ones);
    Or(MaskOf(x, ones), 255 - MaskByte(ones))
  }

  lemma {:induction false} FilledByte(x: int, ones: int)
    requires IsByte(x)
    ensures 0 <= MaskOf(x, ones) && MaskByte(ones) <= 255
    ensures Or(MaskOf(x, ones), 255 - MaskByte(ones)) == x - x % Pow2(Zeros(ones)) + Pow2(Zeros(ones)) - 1
    ensures x - x % Pow2(Zeros(ones)) + Pow2(Zeros(ones)) <= 256
  {
    hide Pow2, Or, MaskOf;
    PowValues();
    MaskOfByte(x, ones);
    var z := Zeros(ones);
    PowSum(8 - z, z);
    BlockWithin(x, Pow2(z), Pow2(8 - z));
    OrSuffix(x - x % Pow2(z), z);
  }

  function Filled(s: Bytes, ones: nat): (r: Bytes)
    ensures |r| == |s|
  {
    if s == [] then []
    else Filled(s[..|s| - 1], ones) + [FillByte(s[|s| - 1], ones - 8 * (|s| - 1))]
  }

  lemma {:induction false} FilledSplit(s: Bytes, ones: nat)
    requires s != []
    ensures var n, z := |s| - 1, Zeros(ones - 8 * (|s| - 1));
            Value(Filled(s, ones)) == Value(Filled(s[..n], ones)) * 256 + (s[n] - s[n] % Pow2(z) + Pow2(z) - 1)
  {
    var n := |s| - 1;
    assert Filled(s, ones)[..n] == Filled(s[..n], ones);
  }

  lemma FullByte(x: int, ones: int)
    requires IsByte(x) && ones >= 8
    ensures FillByte(x, ones) == x
  {
    hide MaskOf, MaskByte, Or;
    assert Zeros(ones) == 0 && Pow2(0) == 1;
  }

  lemma {:induction false} FilledWhole(s: Bytes, ones: nat)
    requires ones >= 8 * |s|
    ensures Filled(s, ones) == s
  {
    if s != [] {
      var n := |s| - 1;
      FilledWhole(s[..n], ones);
      FullByte(s[n], ones - 8 * n);
      hide FillByte;
      assert s == s[..n] + [s[n]];
    }
  }

  lemma {:induction false} FilledValue(s: Bytes, ones: nat)
    requires ones <= 8 * |s|
    ensures Value(Filled(s, ones)) == Value(s) - Value(s) % Pow2(8 * |s| - ones) + Pow2(8 * |s| - ones) - 1
    decreases |s|, 1
  {
    if s != [] {
      FilledValueStep(s, ones);
    } else {
      assert Pow2(0) == 1;
    }
  }

  lemma {:induction false} FilledValueStep(s: Bytes, ones: nat)
    requires ones <= 8 * |s| && s != []
    ensures Value(Filled(s, ones)) == Value(s) - Value(s) % Pow2(8 * |s| - ones) + Pow2(8 * |s| - ones) - 1
    decreases |s|, 0
  {
    hide Pow2, Value, Filled;
    var n := |s| - 1;
    var v, d := Value(s[..n]), s[n];
    FilledSplit(s, ones);
    SplitLast(s, ones);
    if ones <= 8 * n {
      PowValues();
      FilledValue(s[..n], ones);
      var k := 8 * n - ones;
      ShiftMod(v, d, k);
      PowSum(k, 8);
    } else {
      FilledWhole(s[..n], ones);
      LowMod(v, d, 8 * |s| - ones);
    }
  }

  /** `isIPv4Broadcast`. */
  predicate IsBroadcast(ip: Ip, c: Cidr)
    requires c.V4?
  {
    ip == Filled(c.base, c.ones)
  }

  lemma {:induction false} BroadcastIsLast(ip: Ip, c: Cidr)
    requires c.V4?
    ensures IsBroadcast(ip, c) <==> Value(ip) == Network(c) + Size(c) - 1
  {
    FilledValue(c.base, c.ones);
    if Value(ip) == Value(Filled(c.base, c.ones)) {
      ValueInjective(ip, Filled(c.base, c.ones));
    }
  }

  function Address(v: int): Ip
    requires 0 <= v < Pow2(32)
  {
    ToBytes(v, 4)
  }

  lemma {:induction false} AddressOf(ip: Ip)
    ensures Value(ip) < Pow2(32) && Address(Value(ip)) == ip
  {
    ValueBound(ip);
    ValueInjective(ip, Address(Value(ip)));
  }

  // ---------------------------------------------------------------------------------------------
  // Containment.
  // ---------------------------------------------------------------------------------------------

  /** `cidrContainedWithin`. */
  predicate ContainedWithin(child: Cidr, parent: Cidr) {
    match (child, parent)
    case (V4(base, ones), V4(_, limit)) => ones >= limit && Contains(parent, base)
    case (V6(n, ones), V6(m, limit)) => ones >= limit && n / Pow2(128 - limit) == m / Pow2(128 - limit)
    case _ => false
  }

  function Block4(a: int, b: int, ones: Ones4): Cidr
    requires IsByte(a) && IsByte(b)
  {
    V4([a, b, 0, 0], ones)
  }

  /** The private, shared, loopback and link-local blocks of `isPrivateOrInternalCIDR`. */
  const INTERNAL4: seq<Cidr> := [
    Block4(10, 0, 8), Block4(172, 16, 12), Block4(192, 168, 16),
    Block4(100, 64, 10), Block4(127, 0, 8), Block4(169, 254, 16)]

  const INTERNAL6: seq<Cidr> := [V6(0x7e * Pow2(121), 7), V6(0x3fa * Pow2(118), 10), V6(1, 128)]

  predicate Internal6(c: Cidr) {
    exists i :: 0 <= i < |INTERNAL6| && ContainedWithin(c, INTERNAL6[i])
  }

  predicate IsPrivate(c: Cidr) {
    Internal6(c) || exists i :: 0 <= i < |INTERNAL4| && ContainedWithin(c, INTERNAL4[i])
  }

  lemma {:induction false} BlockAgrees(a: int, b: int, ones: Ones4, ip: Ip)
    requires IsByte(a) && IsByte(b) && 8 <= ones <= 16
    ensures Contains(Block4(a, b, ones), ip) <==>
            ip[0] == a && ip[1] - ip[1] % Pow2(16 - ones) == b - b % Pow2(16 - ones)
  {
    var c := Block4(a, b, ones);
    assert c.base == [a, b, 0, 0] && c.ones == ones;
    hide Block4, Masked, Pow2, IsByte;
    LeadingBytes(c.base, ones);
    LeadingBytes(ip, ones);
    FourBytes(a, b - b % Pow2(16 - ones), ip[0], ip[1] - ip[1] % Pow2(16 - ones));
  }

  lemma FourBytes(a: int, b: int, a': int, b': int)
    ensures [a, b, 0, 0] == [a', b', 0, 0] <==> a == a' && b == b'
  {
    assert [a, b, 0, 0][0] == a && [a, b, 0, 0][1] == b;
  }

  lemma {:induction false} LeadingBytes(ip: Ip, ones: nat)
    requires 8 <= ones <= 16
    ensures Masked(ip, ones) == [ip[0], ip[1] - ip[1] % Pow2(16 - ones), 0, 0]
  {
    MaskedBytes(ip, ones);
    WholeByte(ip[0], ones);
    NoByte(ip[2], ones - 16);
    NoByte(ip[3], ones - 24);
    hide Masked, MaskOf;
    MaskOfByte(ip[1], ones - 8);
    hide Pow2;
  }

  lemma WholeByte(x: int, ones: int)
    requires IsByte(x) && ones >= 8
    ensures MaskOf(x, ones) == x
  {
    MaskOfByte(x, ones);
    hide MaskOf;
    PowValues();
  }

  lemma NoByte(x: int, ones: int)
    requires IsByte(x) && ones <= 0
    ensures MaskOf(x, ones) == 0
  {
    MaskOfByte(x, ones);
    hide MaskOf;
    PowValues();
  }

  lemma {:induction false} MaskedBytes(ip: Ip, ones: nat)
    ensures Masked(ip, ones) ==
            [MaskOf(ip[0], ones), MaskOf(ip[1], ones - 8), MaskOf(ip[2], ones - 16), MaskOf(ip[3], ones - 24)]
  {
    hide Masked, MaskOf;
    MaskedAt(ip, ones, 0);
    MaskedAt(ip, ones, 1);
    MaskedAt(ip, ones, 2);
    MaskedAt(ip, ones, 3);
  }

  /** The private, shared, loopback and link-local addresses, by their first two bytes. */
  lemma {:induction false} PrivateByBytes(ip: Ip)
    ensures PrivateAddress(ip) <==>
              || ip[0] == 10 || (ip[0] == 172 && 16 <= ip[1] < 32) || (ip[0] == 192 && ip[1] == 168)
              || (ip[0] == 100 && 64 <= ip[1] < 128) || ip[0] == 127 || (ip[0] == 169 && ip[1] == 254)
  {
    hide Contains;
    PowValues();
    BlockAgrees(10, 0, 8, ip);
    BlockAgrees(172, 16, 12, ip);
    BlockAgrees(192, 168, 16, ip);
    BlockAgrees(100, 64, 10, ip);
    BlockAgrees(127, 0, 8, ip);
    BlockAgrees(169, 254, 16, ip);
    assert PrivateAddress(ip) <==>
             || Contains(INTERNAL4[0], ip) || Contains(INTERNAL4[1], ip) || Contains(INTERNAL4[2], ip)
             || Contains(INTERNAL4[3], ip) || Contains(INTERNAL4[4], ip) || Contains(INTERNAL4[5], ip);
  }

  /** The loop of `isPrivateOrInternalCIDR`. */
  method CheckPrivate(c: Cidr) returns (r: bool)
    ensures r <==> IsPrivate(c)
  {
    hide ContainedWithin, IsPrivate, Pow2;
    var parents := [
      Block4(10, 0, 8), Block4(172, 16, 12), Block4(192, 168, 16),
      Block4(100, 64, 10), Block4(127, 0, 8), Block4(169, 254, 16),
      V6(0x7e * Pow2(121), 7), V6(0x3fa * Pow2(118), 10), V6(1, 128)];
    PrivateByParents(c, parents);
    for i := 0 to |parents|
      invariant forall j :: 0 <= j < i ==> !ContainedWithin(c, parents[j])
    {
      if ContainedWithin(c, parents[i]) {
        return true;
      }
    }
    r := false;
  }

  lemma PrivateByParents(c: Cidr, parents: seq<Cidr>)
    requires parents == INTERNAL4 + INTERNAL6
    ensures IsPrivate(c) <==> exists i :: 0 <= i < |parents| && ContainedWithin(c, parents[i])
  {
    hide ContainedWithin;
    forall i | 0 <= i < |INTERNAL4| && ContainedWithin(c, INTERNAL4[i])
      ensures exists k :: 0 <= k < |parents| && ContainedWithin(c, parents[k])
    {
      assert parents[i] == INTERNAL4[i];
    }
    forall i | 0 <= i < |INTERNAL6| && ContainedWithin(c, INTERNAL6[i])
      ensures exists k :: 0 <= k < |parents| && ContainedWithin(c, parents[k])
    {
      assert parents[|INTERNAL4| + i] == INTERNAL6[i];
    }
  }

  predicate PrivateAddress(ip: Ip) {
    exists i :: 0 <= i < |INTERNAL4| && Contains(INTERNAL4[i], ip)
  }

  lemma {:induction false} LargerBlock(small: nat, large: nat)
    requires small < large <= 32
    ensures 2 * Pow2(small) <= Pow2(large)
  {
    PowMonotone(small + 1, large);
  }

  lemma NestedBlocks(x: nat, first: nat, s: nat, k: nat)
    requires s > 0 && s * first <= x < s * (first + k)
    ensures s * first <= x - x % s && x - x % s + s <= s * (first + k)
  {
    var q := x / s;
    assert x - x % s == s * q;
    if q < first {
      Scale(s, q + 1, first);
    } else if first + k < q + 1 {
      Scale(s, first + k, q);
    }
    Scale(s, first, q);
    Scale(s, q + 1, first + k);
  }

  lemma Blocks(y: nat, s: nat, k: nat)
    requires s > 0 && k > 0
    ensures s * k > 0 && y - y % (s * k) == s * (y / (s * k) * k)
    ensures y - y % (s * k) + s * k == s * (y / (s * k) * k + k)
  {
    Scale(s, 1, k);
    var q := y / (s * k);
    assert (s * k) * q == s * (q * k);
    assert s * (q * k + k) == s * (q * k) + s * k;
  }

  /** The test on prefix lengths and base address decides exactly whether every address of one range
      belongs to the other. */
  lemma {:induction false} ContainmentIsInclusion(child: Cidr, parent: Cidr)
    requires child.V4? && parent.V4?
    ensures ContainedWithin(child, parent) <==> forall ip :: Contains(child, ip) ==> Contains(parent, ip)
  {
    if ContainedWithin(child, parent) {
      Includes(child, parent);
    }
    if forall ip :: Contains(child, ip) ==> Contains(parent, ip) {
      ContainsIsRange(child, child.base);
      NetworkBelow(child);
      assert Contains(parent, child.base);
      if child.ones < parent.ones {
        TooLarge(child, parent);
        assert false;
      }
    }
  }

  lemma {:induction false} NetworkBelow(c: Cidr)
    requires c.V4?
    ensures Network(c) <= Value(c.base) < Network(c) + Size(c)
  {
  }

  lemma InnerBlock(x: nat, y: nat, s: nat, k: nat, t: nat)
    requires s > 0 && k > 0 && t == s * k && t > 0
    requires y - y % t <= x < y - y % t + t
    ensures y - y % t <= x - x % s && x - x % s + s <= y - y % t + t
  {
    Blocks(y, s, k);
    NestedBlocks(x, y / t * k, s, k);
  }

  lemma {:induction false} InnerRange(child: Cidr, parent: Cidr)
    requires child.V4? && parent.V4? && ContainedWithin(child, parent)
    ensures Network(parent) <= Network(child) && Network(child) + Size(child) <= Network(parent) + Size(parent)
  {
    hide Pow2, Value, Contains;
    ContainsIsRange(parent, child.base);
    PowSum(32 - child.ones, child.ones - parent.ones);
    InnerBlock(Value(child.base), Value(parent.base), Size(child), Pow2(child.ones - parent.ones), Size(parent));
  }

  lemma {:induction false} Includes(child: Cidr, parent: Cidr)
    requires child.V4? && parent.V4? && ContainedWithin(child, parent)
    ensures forall ip :: Contains(child, ip) ==> Contains(parent, ip)
  {
    hide Pow2, Value, Network, Size, Contains, ContainedWithin;
    InnerRange(child, parent);
    forall ip | Contains(child, ip) ensures Contains(parent, ip) {
      ContainsIsRange(child, ip);
      ContainsIsRange(parent, ip);
    }
  }

  lemma {:induction false} TooLarge(child: Cidr, parent: Cidr)
    requires child.V4? && parent.V4? && child.ones < parent.ones
    ensures exists ip :: Contains(child, ip) && !Contains(parent, ip)
  {
    hide Pow2, Value;
    LargerBlock(32 - parent.ones, 32 - child.ones);
    BlockFits(child);
    var low, high := Address(Network(child)), Address(Network(child) + Size(child) - 1);
    ContainsIsRange(child, low);
    ContainsIsRange(child, high);
    ContainsIsRange(parent, low);
    ContainsIsRange(parent, high);
    assert Contains(child, low) && Contains(child, high);
  }

  /** The address number `v` belongs to the IPv6 range: it has the same leading bits. */
  predicate Contains6(c: Cidr, v: nat)
    requires c.V6?
  {
    v / Pow2(128 - c.prefix) == c.number / Pow2(128 - c.prefix)
  }

  lemma DivTwice(x: nat, s: nat, k: nat)
    requires s > 0 && k > 0
    ensures s * k > 0 && x / (s * k) == x / s / k
  {
    Quotients(x, s, k, x / s, x % s, x / s / k, x / s % k);
  }

  lemma Quotients(x: nat, s: nat, k: nat, a: nat, b: nat, q: nat, r: nat)
    requires s > 0 && k > 0 && x == a * s + b && b < s && a == q * k + r && r < k
    ensures s * k > 0 && x / (s * k) == q
  {
    Scale(s, 1, k);
    SplitProduct(s, q, k, r);
    Scale(s, r + 1, k);
    SplitProduct(s, r, 1, 1);
    assert x == q * (s * k) + (s * r + b);
    DivMod(x, s * k, q, s * r + b);
  }

  lemma SplitProduct(s: nat, q: nat, k: nat, r: nat)
    ensures s * (q * k + r) == q * (s * k) + s * r
  {
    assert s * (q * k) == q * (s * k);
    assert s * (q * k + r) == s * (q * k) + s * r;
  }

  /** The same for IPv6. */
  lemma {:induction false} ContainmentIsInclusion6(child: Cidr, parent: Cidr)
    requires child.V6? && parent.V6?
    ensures ContainedWithin(child, parent) <==> forall v: nat :: Contains6(child, v) ==> Contains6(parent, v)
  {
    if child.prefix >= parent.prefix {
      Includes6(child, parent);
    } else {
      TooLarge6(child, parent);
    }
    assert Contains6(child, child.number);
  }

  lemma {:induction false} Includes6(child: Cidr, parent: Cidr)
    requires child.V6? && parent.V6? && child.prefix >= parent.prefix
    ensures Contains6(parent, child.number) ==> forall v: nat :: Contains6(child, v) ==> Contains6(parent, v)
  {
    var s, k := Pow2(128 - child.prefix), Pow2(child.prefix - parent.prefix);
    PowSum(128 - child.prefix, child.prefix - parent.prefix);
    hide Pow2;
    forall v: nat | Contains6(parent, child.number) && Contains6(child, v) ensures Contains6(parent, v) {
      DivTwice(v, s, k);
      DivTwice(child.number, s, k);
    }
  }

  lemma {:induction false} TooLarge6(child: Cidr, parent: Cidr)
    requires child.V6? && parent.V6? && child.prefix < parent.prefix
    ensures exists v: nat :: Contains6(child, v) && !Contains6(parent, v)
  {
    var s, k := Pow2(128 - parent.prefix), Pow2(parent.prefix - child.prefix);
    PowSum(128 - parent.prefix, parent.prefix - child.prefix);
    PowMonotone(1, parent.prefix - child.prefix);
    assert Pow2(1) == 2;
    var low, high := TwoBlocks(child.number, s, k);
    hide Pow2;
    assert Contains6(child, low) && Contains6(child, high);
  }

  /** A block of at least two blocks holds numbers of different ones. */
  lemma TwoBlocks(x: nat, s: nat, k: nat) returns (low: nat, high: nat)
    requires s > 0 && k >= 2
    ensures s * k > 0 && low / (s * k) == high / (s * k) == x / (s * k) && low / s != high / s
  {
    Scale(s, 1, k);
    var a := x / s;
    var q := a / k;
    DivTwice(x, s, k);
    low, high := s * (q * k), s * (q * k + 1);
    DivMod(low, s, q * k, 0);
    DivMod(high, s, q * k + 1, 0);
    DivTwice(low, s, k);
    DivTwice(high, s, k);
    DivMod(q * k, k, q, 0);
    DivMod(q * k + 1, k, q, 1);
  }

  // ---------------------------------------------------------------------------------------------
  // Host ranges.
  // ---------------------------------------------------------------------------------------------

  /** Network and broadcast address are spared, except in ranges too small to have them. */
  function Margin(c: Cidr): nat
    requires c.V4?
  {
    if c.ones <= 30 then 1 else 0
  }

  function First(c: Cidr): int
    requires c.V4?
  {
    Network(c) + Margin(c)
  }

  function Count(c: Cidr): int
    requires c.V4?
  {
    Size(c) - 2 * Margin(c)
  }

  lemma {:induction false} HostsExist(c: Cidr)
    requires c.V4?
    ensures Count(c) > 0 && 0 <= First(c) && First(c) + Count(c) + Margin(c) <= Pow2(32)
    ensures c.ones > 30 ==> Size(c) <= 2
  {
    BlockFits(c);
    if c.ones <= 30 {
      PowMonotone(2, 32 - c.ones);
    } else {
      PowMonotone(32 - c.ones, 1);
    }
  }

  ghost function HostsFrom(first: nat, count: nat): (hosts: seq<Ip>)
    requires first + count <= Pow2(32)
    ensures |hosts| == count && forall i :: 0 <= i < count ==> hosts[i] == Address(first + i)
  {
    if count == 0 then [] else HostsFrom(first, count - 1) + [Address(first + count - 1)]
  }

  /** The host addresses of a range in ascending order. */
  ghost function Hosts(c: Cidr): (hosts: seq<Ip>)
    requires c.V4?
    ensures |hosts| == Count(c)
  {
    HostsExist(c);
    HostsFrom(First(c), Count(c))
  }

  /** The addresses of several ranges, one range after the other. */
  ghost function Addresses(ranges: seq<Cidr>): seq<Ip>
    requires forall i :: 0 <= i < |ranges| ==> ranges[i].V4?
  {
    if ranges == [] then [] else Addresses(ranges[..|ranges| - 1]) + Hosts(ranges[|ranges| - 1])
  }

  method FirstHost(c: Cidr) returns (ip: Ip, ok: bool)
    ensures ok <==> c.V4?
    ensures ok ==> Value(ip) == First(c)
  {
    hide Pow2, Value, Masked;
    if !c.V4? {
      return [0, 0, 0, 0], false;
    }
    MaskedValue(c.base, c.ones);
    HostsExist(c);
    var start := Masked(c.base, c.ones);
    ModWrap(Network(c), Pow2(32));
    ok := true;
    if c.ones <= 30 {
      ip := Increment(start);
    } else {
      ip := start;
    }
  }

  /** `nextIPv4Host`: the next number modulo 2^32, unless it has left the range or is its broadcast
      address. */
  method NextHost(ip: Ip, c: Cidr) returns (next: Ip, ok: bool)
    requires c.V4?
    ensures var v := (Value(ip) + 1) % Pow2(32);
            && (ok <==> Network(c) <= v < Network(c) + Size(c) && !(c.ones <= 30 && v == Network(c) + Size(c) - 1))
            && (ok ==> Value(next) == v)
  {
    hide Pow2, Value, Contains, IsBroadcast, Network, Size;
    next := Increment(ip);
    ContainsIsRange(c, next);
    BroadcastIsLast(next, c);
    if !Contains(c, next) {
      return next, false;
    }
    ok := !(c.ones <= 30 && IsBroadcast(next, c));
  }

  /** From a host, that is the next host, and after the last one there is none, even at the top of the
      address space. */
  lemma {:induction false} NextNumberIsNextHost(ip: Ip, c: Cidr)
    requires c.V4? && First(c) <= Value(ip) < First(c) + Count(c)
    ensures var v := (Value(ip) + 1) % Pow2(32);
            var inside := Network(c) <= v < Network(c) + Size(c) && !(c.ones <= 30 && v == Network(c) + Size(c) - 1);
            && (inside <==> Value(ip) + 1 < First(c) + Count(c))
            && (inside ==> v == Value(ip) + 1)
  {
    hide Pow2, Value, Network, Size;
    HostsExist(c);
    BlockFits(c);
    AddressOf(ip);
    PowValues();
    ModWrap(Value(ip), Pow2(32));
  }

  // ---------------------------------------------------------------------------------------------
  // The plan.
  // ---------------------------------------------------------------------------------------------

  datatype Options = Options(
    configured: seq<Cidr>, interfaces: seq<Cidr>, localIps: set<Ip>, deny: seq<Cidr>, maxHosts: int, allowPublic: bool)

  datatype Plan =
    | Planned(targets: seq<Ip>, capped: bool, skippedLocal: nat, skippedDenied: nat)
    | NothingEligible
    | Refused

  predicate Denied(deny: seq<Cidr>, ip: Ip) {
    exists i :: 0 <= i < |deny| && Contains(deny[i], ip)
  }

  predicate Probed(o: Options, ip: Ip) {
    ip !in o.localIps && !Denied(o.deny, ip)
  }

  /** What is left of a list of addresses without repetitions, own and denied addresses. */
  ghost function Eligible(o: Options, all: seq<Ip>): seq<Ip> {
    if all == [] then []
    else
      var before, ip := all[..|all| - 1], all[|all| - 1];
      Eligible(o, before) + if ip !in before && Probed(o, ip) then [ip] else []
  }

  lemma EligibleStep(o: Options, all: seq<Ip>, ip: Ip)
    ensures Eligible(o, all + [ip]) == Eligible(o, all) + if ip !in all && Probed(o, ip) then [ip] else []
  {
    assert (all + [ip])[..|all|] == all;
  }

  lemma {:induction false} EligiblePrefix(o: Options, all: seq<Ip>, more: seq<Ip>)
    ensures Eligible(o, all) <= Eligible(o, all + more)
  {
    if more != [] {
      var n := |more| - 1;
      EligiblePrefix(o, all, more[..n]);
      EligibleStep(o, all + more[..n], more[n]);
      assert all + more == all + more[..n] + [more[n]];
    } else {
      assert all + more == all;
    }
  }

  lemma {:induction false} EligibleMembers(o: Options, all: seq<Ip>)
    ensures forall ip :: ip in Eligible(o, all) <==> ip in all && Probed(o, ip)
    ensures forall i, j :: 0 <= i < j < |Eligible(o, all)| ==> Eligible(o, all)[i] != Eligible(o, all)[j]
  {
    if all != [] {
      var n := |all| - 1;
      EligibleMembers(o, all[..n]);
      EligibleStep(o, all[..n], all[n]);
      assert all == all[..n] + [all[n]];
    }
  }

  function Limit(o: Options): nat {
    if o.maxHosts <= 0 then 256 else o.maxHosts
  }

  ghost function FirstOf(s: seq<Ip>, n: nat): seq<Ip> {
    if |s| <= n then s else s[..n]
  }

  ghost predicate AllV4(ranges: seq<Cidr>) {
    forall i :: 0 <= i < |ranges| ==> ranges[i].V4?
  }

  /** The limit was reached while there were addresses left to look at. */
  ghost predicate CutShort(o: Options, all: seq<Ip>) {
    exists n :: 0 <= n < |all| && |Eligible(o, all[..n])| >= Limit(o)
  }

  /** The state of the loop after looking at the addresses `done`. */
  ghost predicate Progress(o: Options, done: seq<Ip>, seen: set<Ip>, p: Plan) {
    && p.Planned? && !p.capped && p.targets == Eligible(o, done) && |p.targets| <= Limit(o)
    && (forall ip :: ip in seen <==> ip in done)
    && |seen| == |p.targets| + p.skippedLocal + p.skippedDenied
    && Unhindered(o, done)
  }

  /** No address of the list was looked at with the limit already reached. */
  ghost predicate Unhindered(o: Options, done: seq<Ip>) {
    forall n :: 0 <= n < |done| ==> |Eligible(o, done[..n])| < Limit(o)
  }

  lemma {:induction false} UnhinderedStep(o: Options, done: seq<Ip>, ip: Ip)
    requires Unhindered(o, done) && |Eligible(o, done)| < Limit(o)
    ensures Unhindered(o, done + [ip])
  {
    forall n | 0 <= n < |done| + 1 ensures |Eligible(o, (done + [ip])[..n])| < Limit(o) {
      if n < |done| {
        assert (done + [ip])[..n] == done[..n];
      } else {
        assert (done + [ip])[..n] == done;
      }
    }
  }

  /** What `BuildPlan` must return for the ranges it selected: the first hosts, up to the limit, of all
      ranges in turn without repetitions, own and denied addresses. */
  ghost predicate Plans(o: Options, ranges: seq<Cidr>, p: Plan)
    requires AllV4(ranges)
  {
    var all := Addresses(ranges);
    && p.Planned?
    && p.targets == FirstOf(Eligible(o, all), Limit(o))
    && (p.capped <==> CutShort(o, all))
    && (!p.capped ==> |p.targets| + p.skippedLocal + p.skippedDenied == |set ip | ip in all|)
  }

  method IsDenied(deny: seq<Cidr>, ip: Ip) returns (r: bool)
    ensures r <==> Denied(deny, ip)
  {
    for i := 0 to |deny|
      invariant forall j :: 0 <= j < i ==> !Contains(deny[j], ip)
    {
      if Contains(deny[i], ip) {
        return true;
      }
    }
    return false;
  }

  /** One turn of the inner loop, below the limit. */
  method Consider(o: Options, ip: Ip, seen: set<Ip>, p: Plan, ghost done: seq<Ip>) returns (seen': set<Ip>, p': Plan)
    requires Progress(o, done, seen, p) && |p.targets| < Limit(o)
    ensures Progress(o, done + [ip], seen', p')
  {
    EligibleStep(o, done, ip);
    UnhinderedStep(o, done, ip);
    hide Eligible, Denied, Unhindered;
    seen', p' := seen, p;
    if ip in seen {
      return;
    }
    seen' := seen + {ip};
    if ip in o.localIps {
      p' := p.(skippedLocal := p.skippedLocal + 1);
      return;
    }
    var denied := IsDenied(o.deny, ip);
    if denied {
      p' := p.(skippedDenied := p.skippedDenied + 1);
      return;
    }
    p' := p.(targets := p.targets + [ip]);
  }

  lemma {:induction false} StopsAtLimit(o: Options, all: seq<Ip>, n: nat, seen: set<Ip>, p: Plan)
    requires n < |all| && Progress(o, all[..n], seen, p) && |p.targets| >= Limit(o)
    ensures p.targets == FirstOf(Eligible(o, all), Limit(o)) && CutShort(o, all)
  {
    EligiblePrefix(o, all[..n], all[n..]);
    assert all[..n] + all[n..] == all;
  }

  lemma {:induction false} RunsToTheEnd(o: Options, all: seq<Ip>, seen: set<Ip>, p: Plan)
    requires Progress(o, all, seen, p)
    ensures p.targets == FirstOf(Eligible(o, all), Limit(o)) && !CutShort(o, all)
    ensures |p.targets| + p.skippedLocal + p.skippedDenied == |set ip | ip in all|
  {
    assert seen == set ip | ip in all;
  }

  /** Walks through one range. It stops early, after `n` hosts, if the limit is reached. */
  method PlanRange(o: Options, c: Cidr, seen: set<Ip>, p: Plan, ghost done: seq<Ip>)
    returns (seen': set<Ip>, p': Plan, capped: bool, ghost n: nat)
    requires c.V4? && Progress(o, done, seen, p)
    ensures n <= |Hosts(c)| && Progress(o, done + Hosts(c)[..n], seen', p')
    ensures capped <==> n < |Hosts(c)|
    ensures capped ==> |p'.targets| >= Limit(o)
  {
    hide Progress, Hosts, First, Count, Value, Pow2, Address, Contains, Limit;
    HostsExist(c);
    HostsAt(c);
    seen', p', n, capped := seen, p, 0, false;
    var limit := if o.maxHosts <= 0 then 256 else o.maxHosts;
    IsLimit(o, limit);
    assert done + Hosts(c)[..0] == done;
    var ip, more := FirstHost(c);
    AddressOf(ip);
    while more
      invariant 0 <= n <= |Hosts(c)| && Progress(o, done + Hosts(c)[..n], seen', p')
      invariant more <==> n < |Hosts(c)|
      invariant more ==> ip == Hosts(c)[n] && Value(ip) == First(c) + n
      decreases |Hosts(c)| - n
    {
      ContainsHosts(c, ip);
      ProgressIsPlanned(o, done + Hosts(c)[..n], seen', p');
      if |p'.targets| >= limit {
        capped := true;
        return;
      }
      seen', p' := Consider(o, ip, seen', p', done + Hosts(c)[..n]);
      assert done + Hosts(c)[..n] + [ip] == done + Hosts(c)[..n + 1];
      n := n + 1;
      NextNumberIsNextHost(ip, c);
      ip, more := NextHost(ip, c);
      if more {
        AddressOf(ip);
      }
    }
  }

  lemma IsLimit(o: Options, limit: int)
    requires limit == if o.maxHosts <= 0 then 256 else o.maxHosts
    ensures limit == Limit(o)
  {
  }

  lemma ProgressIsPlanned(o: Options, done: seq<Ip>, seen: set<Ip>, p: Plan)
    requires Progress(o, done, seen, p)
    ensures p.Planned?
  {
  }

  lemma {:induction false} HostsAt(c: Cidr)
    requires c.V4?
    ensures Count(c) > 0 && |Hosts(c)| == Count(c) && 0 <= First(c) && First(c) + Count(c) <= Pow2(32)
    ensures forall i :: 0 <= i < Count(c) ==> Hosts(c)[i] == Address(First(c) + i)
  {
    HostsExist(c);
  }

  /** The loop condition `cidr.Contains(ip)` holds of every host. */
  lemma {:induction false} ContainsHosts(c: Cidr, ip: Ip)
    requires c.V4? && First(c) <= Value(ip) < First(c) + Count(c)
    ensures Contains(c, ip)
  {
    ContainsIsRange(c, ip);
  }

  // ---------------------------------------------------------------------------------------------
  // BuildPlan.
  // ---------------------------------------------------------------------------------------------

  /** `privateLocalCIDRs`: the internal IPv4 ranges of the interfaces, each once. */
  function PrivateInterfaces(ranges: seq<Cidr>): seq<Cidr> {
    if ranges == [] then []
    else
      var before, c := PrivateInterfaces(ranges[..|ranges| - 1]), ranges[|ranges| - 1];
      if c.V4? && IsPrivate(c) && c !in before then before + [c] else before
  }

  /** The configured ranges, or else the private ones this host is attached to. */
  function Chosen(o: Options): seq<Cidr> {
    if o.configured != [] then o.configured else PrivateInterfaces(o.interfaces)
  }

  predicate Acceptable(o: Options, c: Cidr) {
    c.Absent? || (c.V4? && (o.allowPublic || IsPrivate(c)))
  }

  predicate AllAcceptable(o: Options, ranges: seq<Cidr>) {
    forall i :: 0 <= i < |ranges| ==> Acceptable(o, ranges[i])
  }

  /** The ranges that are there. */
  function Present(ranges: seq<Cidr>): seq<Cidr> {
    if ranges == [] then []
    else
      var c := ranges[|ranges| - 1];
      Present(ranges[..|ranges| - 1]) + if c.Absent? then [] else [c]
  }

  lemma {:induction false} PresentMembers(o: Options, ranges: seq<Cidr>)
    requires AllAcceptable(o, ranges)
    ensures AllV4(Present(ranges))
    ensures forall c :: c in Present(ranges) <==> c in ranges && !c.Absent?
    ensures forall c :: c in Present(ranges) ==> o.allowPublic || IsPrivate(c)
  {
    if ranges != [] {
      PresentMembers(o, ranges[..|ranges| - 1]);
      assert Acceptable(o, ranges[|ranges| - 1]);
    }
  }

  /** The range `a` is listed before the first occurrence of `b`. */
  ghost predicate ListedBefore(ranges: seq<Cidr>, a: Cidr, b: Cidr) {
    forall k :: 0 <= k < |ranges| && ranges[k] == b ==> a in ranges[..k]
  }

  lemma {:induction false} ListedBeforeStep(ranges: seq<Cidr>, c: Cidr, a: Cidr, b: Cidr)
    requires ListedBefore(ranges, a, b) && b in ranges
    ensures ListedBefore(ranges + [c], a, b)
  {
    var m :| 0 <= m < |ranges| && ranges[m] == b;
    forall k | 0 <= k < |ranges| + 1 && (ranges + [c])[k] == b ensures a in (ranges + [c])[..k] {
      if k < |ranges| {
        assert (ranges + [c])[..k] == ranges[..k];
      } else {
        assert a in ranges[..m] && (ranges + [c])[..k] == ranges;
      }
    }
  }

  /** Exactly the private IPv4 ranges, each once, in the order in which they are first listed. */
  ghost predicate SelectsPrivate(ranges: seq<Cidr>, r: seq<Cidr>) {
    && (forall c :: c in r <==> c in ranges && c.V4? && IsPrivate(c))
    && (forall i, j :: 0 <= i < j < |r| ==> r[i] != r[j] && ListedBefore(ranges, r[i], r[j]))
  }

  lemma {:induction false} SelectStep(ranges: seq<Cidr>, before: seq<Cidr>, c: Cidr)
    requires SelectsPrivate(ranges, before)
    ensures SelectsPrivate(ranges + [c], if c.V4? && IsPrivate(c) && c !in before then before + [c] else before)
  {
    hide IsPrivate, ListedBefore;
    forall i, j | 0 <= i < j < |before| ensures ListedBefore(ranges + [c], before[i], before[j]) {
      ListedBeforeStep(ranges, c, before[i], before[j]);
    }
    if c !in before && c.V4? && IsPrivate(c) {
      forall i | 0 <= i < |before| ensures ListedBefore(ranges + [c], before[i], c) {
        NewlyListed(ranges, c, before[i]);
      }
    }
  }

  lemma {:induction false} PrivateInterfacesSelect(ranges: seq<Cidr>)
    ensures SelectsPrivate(ranges, PrivateInterfaces(ranges))
  {
    hide IsPrivate, SelectsPrivate;
    if ranges != [] {
      var n := |ranges| - 1;
      PrivateInterfacesSelect(ranges[..n]);
      SelectStep(ranges[..n], PrivateInterfaces(ranges[..n]), ranges[n]);
      assert ranges == ranges[..n] + [ranges[n]];
    } else {
      NothingSelected();
    }
  }

  lemma NothingSelected()
    ensures SelectsPrivate([], [])
  {
  }

  lemma {:induction false} NewlyListed(ranges: seq<Cidr>, c: Cidr, a: Cidr)
    requires c !in ranges && a in ranges
    ensures ListedBefore(ranges + [c], a, c)
  {
    forall k | 0 <= k < |ranges| + 1 && (ranges + [c])[k] == c ensures a in (ranges + [c])[..k] {
      assert k == |ranges|;
      assert (ranges + [c])[..k] == ranges;
    }
  }

  method SelectPrivate(ranges: seq<Cidr>) returns (r: seq<Cidr>)
    ensures r == PrivateInterfaces(ranges) && SelectsPrivate(ranges, r)
  {
    PrivateInterfacesSelect(ranges);
    hide SelectsPrivate, IsPrivate;
    r := [];
    for i := 0 to |ranges|
      invariant r == PrivateInterfaces(ranges[..i])
    {
      assert ranges[..i + 1][..i] == ranges[..i];
      var c := ranges[i];
      var internal := CheckPrivate(c);
      if c.V4? && internal && c !in r {
        r := r + [c];
      }
    }
    assert ranges[..|ranges|] == ranges;
  }

  method CheckRanges(o: Options, ranges: seq<Cidr>) returns (ok: bool, present: seq<Cidr>)
    ensures ok <==> AllAcceptable(o, ranges)
    ensures ok ==> present == Present(ranges)
  {
    present := [];
    for i := 0 to |ranges|
      invariant present == Present(ranges[..i])
      invariant forall j :: 0 <= j < i ==> Acceptable(o, ranges[j])
    {
      assert ranges[..i + 1][..i] == ranges[..i];
      var c := ranges[i];
      if c != Absent {
        if c.V6? {
          return false, [];
        }
        var internal := CheckPrivate(c);
        if !o.allowPublic && !internal {
          return false, [];
        }
        present := present + [c];
      }
    }
    assert ranges[..|ranges|] == ranges;
    ok := true;
  }

  /** `BuildPlan`. */
  method BuildPlan(o: Options) returns (p: Plan)
    ensures Chosen(o) == [] ==> p == NothingEligible
    ensures Chosen(o) != [] && !AllAcceptable(o, Chosen(o)) ==> p == Refused
    ensures Chosen(o) != [] && AllAcceptable(o, Chosen(o)) ==>
              AllV4(Present(Chosen(o))) && Plans(o, Present(Chosen(o)), p)
  {
    var chosen := o.configured;
    if chosen == [] {
      chosen := SelectPrivate(o.interfaces);
    }
    if chosen == [] {
      return NothingEligible;
    }
    var ok, ranges := CheckRanges(o, chosen);
    if !ok {
      return Refused;
    }
    PresentMembers(o, chosen);
    p := PlanAll(o, ranges);
  }

  lemma {:induction false} AddressesStep(ranges: seq<Cidr>, i: nat)
    requires AllV4(ranges) && i < |ranges|
    ensures Addresses(ranges[..i + 1]) == Addresses(ranges[..i]) + Hosts(ranges[i])
  {
    assert ranges[..i + 1][..i] == ranges[..i];
  }

  lemma {:induction false} AddressesPrefix(ranges: seq<Cidr>, i: nat)
    requires AllV4(ranges) && i <= |ranges|
    ensures Addresses(ranges[..i]) <= Addresses(ranges)
    decreases |ranges| - i
  {
    if i == |ranges| {
      assert ranges[..i] == ranges;
    } else {
      AddressesStep(ranges, i);
      AddressesPrefix(ranges, i + 1);
    }
  }

  lemma {:induction false} PartOfAll(ranges: seq<Cidr>, i: nat, n: nat)
    requires AllV4(ranges) && i < |ranges| && n < |Hosts(ranges[i])|
    ensures var m := |Addresses(ranges[..i])| + n;
            m < |Addresses(ranges)| && Addresses(ranges)[..m] == Addresses(ranges[..i]) + Hosts(ranges[i])[..n]
  {
    AddressesStep(ranges, i);
    AddressesPrefix(ranges, i + 1);
    hide Addresses, Hosts;
    var all, before, hosts := Addresses(ranges), Addresses(ranges[..i]), Hosts(ranges[i]);
    assert before + hosts <= all;
    assert all[..|before| + n] == (before + hosts)[..|before| + n] == before + hosts[..n];
  }

  method PlanAll(o: Options, ranges: seq<Cidr>) returns (p: Plan)
    requires AllV4(ranges)
    ensures Plans(o, ranges, p)
  {
    hide Hosts, Addresses, Eligible, Progress;
    var seen: set<Ip> := {};
    p := Planned([], false, 0, 0);
    NothingDone(o, ranges);
    ghost var all := Addresses(ranges);
    for i := 0 to |ranges|
      invariant Progress(o, Addresses(ranges[..i]), seen, p)
    {
      ghost var done, n := Addresses(ranges[..i]), 0;
      var capped;
      seen, p, capped, n := PlanRange(o, ranges[i], seen, p, done);
      ProgressIsPlanned(o, done + Hosts(ranges[i])[..n], seen, p);
      if capped {
        PartOfAll(ranges, i, n);
        StopsAtLimit(o, all, |done| + n, seen, p);
        p := p.(capped := true);
        return;
      }
      AddressesStep(ranges, i);
      assert Hosts(ranges[i])[..n] == Hosts(ranges[i]);
    }
    assert ranges[..|ranges|] == ranges;
    RunsToTheEnd(o, all, seen, p);
    NotCapped(o, all, seen, p);
  }

  lemma NothingDone(o: Options, ranges: seq<Cidr>)
    requires AllV4(ranges)
    ensures Addresses(ranges[..0]) == [] && Progress(o, [], {}, Planned([], false, 0, 0))
  {
  }

  lemma NotCapped(o: Options, all: seq<Ip>, seen: set<Ip>, p: Plan)
    requires Progress(o, all, seen, p)
    ensures p.Planned? && !p.capped
  {
  }

  // ---------------------------------------------------------------------------------------------
  // What a plan reaches.
  // ---------------------------------------------------------------------------------------------

  lemma {:induction false} AddressesInRanges(ranges: seq<Cidr>, ip: Ip)
    requires AllV4(ranges) && ip in Addresses(ranges)
    ensures exists i :: 0 <= i < |ranges| && Contains(ranges[i], ip)
  {
    var n := |ranges| - 1;
    if ip in Hosts(ranges[n]) {
      HostsAt(ranges[n]);
      var i :| 0 <= i < |Hosts(ranges[n])| && Hosts(ranges[n])[i] == ip;
      ContainsHosts(ranges[n], ip);
    } else {
      AddressesInRanges(ranges[..n], ip);
      var i :| 0 <= i < n && Contains(ranges[..n][i], ip);
      assert Contains(ranges[i], ip);
    }
  }

  /** Every target lies in a chosen range, is neither local nor denied, and occurs once; there are no
      more than the limit. */
  lemma {:induction false} TargetsAreEligible(o: Options, ranges: seq<Cidr>, p: Plan)
    requires AllV4(ranges) && Plans(o, ranges, p)
    ensures var limit := if o.maxHosts > 0 then o.maxHosts else 256;
            var eligible := |Eligible(o, Addresses(ranges))|;
            |p.targets| == if eligible < limit then eligible else limit
    ensures forall i, j :: 0 <= i < j < |p.targets| ==> p.targets[i] != p.targets[j]
    ensures forall ip :: ip in p.targets ==> Probed(o, ip) && exists c :: c in ranges && Contains(c, ip)
  {
    var all := Addresses(ranges);
    EligibleMembers(o, all);
    forall ip | ip in p.targets ensures Probed(o, ip) && exists c :: c in ranges && Contains(c, ip) {
      assert ip in Eligible(o, all);
      AddressesInRanges(ranges, ip);
      var i :| 0 <= i < |ranges| && Contains(ranges[i], ip);
      assert ranges[i] in ranges;
    }
  }
}
