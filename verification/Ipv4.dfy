/** IPv4 addresses as byte strings, as internal/topologydiscovery/discovery.go handles them, and what
    its byte-wise carries and masks mean for the 32-bit numbers they stand for. */
module Ipv4 {
  import opened Arithmetic

  predicate IsByte(b: int) { 0 <= b < 256 }

  /** A big-endian string of bytes. */
  type Bytes = s: seq<int> | forall i :: 0 <= i < |s| ==> IsByte(s[i]) witness []

  type Ip = s: Bytes | |s| == 4 witness [0, 0, 0, 0]

  function Pow2(n: nat): nat
    ensures Pow2(n) > 0
  {
    if n == 0 then 1 else 2 * Pow2(n - 1)
  }

  lemma {:induction false} PowSum(m: nat, n: nat)
    ensures Pow2(m + n) == Pow2(m) * Pow2(n)
  {
    if m > 0 {
      PowSum(m - 1, n);
      assert 2 * (Pow2(m - 1) * Pow2(n)) == (2 * Pow2(m - 1)) * Pow2(n);
    }
  }

  lemma PowValues()
    ensures Pow2(8) == 256 && Pow2(32) == 0x1_0000_0000
  {
    assert Pow2(8) == 256;
    PowSum(8, 8);
    PowSum(16, 16);
  }

  function Value(s: Bytes): nat {
    if s == [] then 0 else Value(s[..|s| - 1]) * 256 + s[|s| - 1]
  }

  function ToBytes(v: nat, n: nat): (s: Bytes)
    requires v < Pow2(8 * n)
    ensures |s| == n && Value(s) == v
  {
    if n == 0 then []
    else
      PowSum(8 * (n - 1), 8);
      PowValues();
      var s := ToBytes(v / 256, n - 1) + [v % 256];
      assert s[..n - 1] == ToBytes(v / 256, n - 1);
      s
  }

  lemma {:induction false} ValueBound(s: Bytes)
    ensures Value(s) < Pow2(8 * |s|)
  {
    if s != [] {
      ValueBound(s[..|s| - 1]);
      PowSum(8 * (|s| - 1), 8);
      PowValues();
    }
  }

  /** Equal numbers of the same width are equal byte strings. */
  lemma {:induction false} ValueInjective(s: Bytes, t: Bytes)
    requires |s| == |t| && Value(s) == Value(t)
    ensures s == t
  {
    if s != [] {
      var n := |s| - 1;
      ValueInjective(s[..n], t[..n]);
      assert s == s[..n] + [s[n]] && t == t[..n] + [t[n]];
    }
  }

  // ---------------------------------------------------------------------------------------------
  // Increment.
  // ---------------------------------------------------------------------------------------------

  lemma Regroup(a: int, p: int)
    ensures (a * p) * 256 == a * (p * 256)
  {
  }

  lemma {:induction false} ValueUpdate(s: Bytes, i: nat, b: int)
    requires i < |s| && IsByte(b)
    ensures Value(s[i := b]) == Value(s) + (b - s[i]) * Pow2(8 * (|s| - 1 - i))
  {
    var n := |s| - 1;
    if i == n {
      assert s[i := b][..n] == s[..n];
    } else {
      ValueUpdate(s[..n], i, b);
      assert s[i := b][..n] == s[..n][i := b];
      PowSum(8 * (n - 1 - i), 8);
      PowValues();
      hide Pow2;
      Regroup(b - s[i], Pow2(8 * (n - 1 - i)));
    }
  }

  lemma ModWrap(v: nat, m: nat)
    requires v < m
    ensures (v + 1) % m == if v + 1 == m then 0 else v + 1
  {
  }

  /** One more byte of the carry: it either ends here or moves on. */
  lemma {:induction false} CarryStep(s: Bytes, i: nat, b: int)
    requires i < |s| && b == (s[i] + 1) % 256
    ensures Value(s[i := b]) == Value(s) + Pow2(8 * (|s| - 1 - i)) - if b == 0 then Pow2(8 * (|s| - i)) else 0
  {
    ValueUpdate(s, i, b);
    if b == 0 {
      PowSum(8 * (|s| - 1 - i), 8);
      PowValues();
    }
  }

  /** `incIPv4`: the carry loop adds one modulo 2^32, and to byte strings of any other width likewise. */
  method Increment(ip: Bytes) returns (out: Bytes)
    ensures |out| == |ip| && Value(out) == (Value(ip) + 1) % Pow2(8 * |ip|)
  {
    out := ip;
    var i := |out| - 1;
    ValueBound(ip);
    ModWrap(Value(ip), Pow2(8 * |ip|));
    assert Pow2(0) == 1;
    hide Value, Pow2;
    while i >= 0
      invariant -1 <= i < |out| == |ip|
      invariant forall j :: 0 <= j <= i ==> out[j] == ip[j]
      invariant Value(out) == Value(ip) + 1 - Pow2(8 * (|ip| - 1 - i))
    {
      var b := (out[i] + 1) % 256;
      CarryStep(out, i, b);
      out := out[i := b];
      if b != 0 {
        ValueBound(out);
        return;
      }
      i := i - 1;
    }
    ValueBound(out);
  }

  // ---------------------------------------------------------------------------------------------
  // Masks.
  // ---------------------------------------------------------------------------------------------

  /** Bitwise conjunction. */
  function And(x: nat, y: nat): nat {
    if x == 0 || y == 0 then 0 else 2 * And(x / 2, y / 2) + (x % 2) * (y % 2)
  }

  /** Bitwise disjunction. */
  function Or(x: nat, y: nat): nat
    decreases x + y
  {
    if x == 0 then y else if y == 0 then x
    else 2 * Or(x / 2, y / 2) + if x % 2 == 1 || y % 2 == 1 then 1 else 0
  }

  /** The bits of a mask byte that are zero when `ones` mask bits are left from this byte on. */
  function Zeros(ones: int): nat {
    if ones >= 8 then 0 else if ones <= 0 then 8 else (8 - ones) as nat
  }

  function MaskByte(ones: int): nat {
    PowMonotone(Zeros(ones), 8);
    Pow2(8) - Pow2(Zeros(ones))
  }

  lemma PowMonotone(m: nat, n: nat)
    requires m <= n
    ensures Pow2(m) <= Pow2(n)
  {
    if m < n { PowMonotone(m, n - 1); }
  }

  lemma {:induction false} HalfMod(x: nat, z: nat)
    requires z > 0
    ensures x % Pow2(z) == 2 * ((x / 2) % Pow2(z - 1)) + x % 2
  {
    var p := Pow2(z - 1);
    var q, r := (x / 2) / p, (x / 2) % p;
    assert x == 2 * (q * p + r) + x % 2;
    assert x == q * (2 * p) + (2 * r + x % 2) by {
      assert 2 * (q * p) == q * (2 * p);
    }
    DivMod(x, 2 * p, q, 2 * r + x % 2);
  }

  lemma {:induction false} AndAll(x: nat, n: nat)
    requires x < Pow2(n)
    ensures And(x, Pow2(n) - 1) == x
  {
    if n > 0 && x > 0 {
      AndAll(x / 2, n - 1);
      assert (Pow2(n) - 1) / 2 == Pow2(n - 1) - 1 && (Pow2(n) - 1) % 2 == 1;
    }
  }

  lemma {:induction false} AndEven(x: nat, m: nat)
    ensures And(x, 2 * m) == 2 * And(x / 2, m)
  {
    if x > 0 && m > 0 {
      assert (2 * m) / 2 == m && (2 * m) % 2 == 0;
    }
  }

  /** Rounding down to a multiple of `s` leaves a whole block of `s` numbers below a multiple of `s`. */
  lemma BlockWithin(x: nat, s: nat, n: nat)
    requires s > 0 && x < n * s
    ensures x - x % s + s <= n * s && (x - x % s) % s == 0
  {
    var q := x / s;
    assert x - x % s == q * s;
    DivMod(q * s, s, q, 0);
    if q >= n {
      Scale(s, n, q);
    } else {
      Scale(s, q + 1, n);
    }
  }

  /** Masking with leading ones clears the trailing bits. */
  lemma {:induction false} AndPrefix(x: nat, z: nat, n: nat)
    requires z <= n && x < Pow2(n)
    ensures Pow2(z) <= Pow2(n) && And(x, Pow2(n) - Pow2(z)) == x - x % Pow2(z)
  {
    PowMonotone(z, n);
    if z == 0 {
      AndAll(x, n);
    } else {
      AndPrefix(x / 2, z - 1, n - 1);
      AndEven(x, Pow2(n - 1) - Pow2(z - 1));
      HalfMod(x, z);
    }
  }

  /** Filling the trailing bits of a masked byte. */
  lemma {:induction false} OrSuffix(x: nat, z: nat)
    requires x % Pow2(z) == 0
    ensures Or(x, Pow2(z) - 1) == x + Pow2(z) - 1
  {
    if x > 0 && z > 0 {
      HalfMod(x, z);
      OrSuffix(x / 2, z - 1);
      assert (Pow2(z) - 1) / 2 == Pow2(z - 1) - 1 && (Pow2(z) - 1) % 2 == 1;
    }
  }

  function MaskOf(x: int, ones: int): int
    requires IsByte(x)
  {
    And(x, MaskByte(ones))
  }

  lemma MaskOfByte(x: int, ones: int)
    requires IsByte(x)
    ensures MaskOf(x, ones) == x - x % Pow2(Zeros(ones)) && IsByte(MaskOf(x, ones))
  {
    PowValues();
    AndPrefix(x, Zeros(ones), 8);
  }

  /** `IP.Mask`: byte by byte. */
  function Masked(s: Bytes, ones: nat): (r: Bytes)
    ensures |r| == |s|
  {
    if s == [] then []
    else
      var n := |s| - 1;
      MaskOfByte(s[n], ones - 8 * n);
      Masked(s[..n], ones) + [MaskOf(s[n], ones - 8 * n)]
  }

  lemma {:induction false} MaskedAt(s: Bytes, ones: nat, i: nat)
    requires i < |s|
    ensures Masked(s, ones)[i] == MaskOf(s[i], ones - 8 * i)
  {
    if i < |s| - 1 {
      MaskedAt(s[..|s| - 1], ones, i);
    }
  }

  lemma ShiftModOf(v: nat, d: nat, p: nat)
    requires d < 256 && p > 0
    ensures (v * 256 + d) % (p * 256) == (v % p) * 256 + d
  {
    var q, r := v / p, v % p;
    assert (q * p) * 256 == q * (p * 256);
    DivMod(v * 256 + d, p * 256, q, r * 256 + d);
  }

  lemma {:induction false} ShiftMod(v: nat, d: nat, k: nat)
    requires d < 256
    ensures (v * 256 + d) % Pow2(k + 8) == (v % Pow2(k)) * 256 + d
  {
    hide Pow2;
    PowSum(k, 8);
    PowValues();
    ShiftModOf(v, d, Pow2(k));
  }

  lemma LowModOf(v: nat, d: nat, c: nat, p: nat)
    requires p > 0 && c * p == 256
    ensures (v * 256 + d) % p == d % p
  {
    var q, r := d / p, d % p;
    assert v * 256 == (v * c) * p by {
      assert v * (c * p) == (v * c) * p;
    }
    assert (v * c + q) * p == (v * c) * p + q * p;
    DivMod(v * 256 + d, p, v * c + q, r);
  }

  lemma {:induction false} LowMod(v: nat, d: nat, k: nat)
    requires d < 256 && k <= 8
    ensures (v * 256 + d) % Pow2(k) == d % Pow2(k)
  {
    PowSum(8 - k, k);
    PowValues();
    LowModOf(v, d, Pow2(8 - k), Pow2(k));
  }

  lemma {:induction false} SplitLast(s: Bytes, ones: nat)
    requires s != []
    ensures var n := |s| - 1;
            && Value(s) == Value(s[..n]) * 256 + s[n]
            && Value(Masked(s, ones)) == Value(Masked(s[..n], ones)) * 256 + (s[n] - s[n] % Pow2(Zeros(ones - 8 * n)))
  {
    var n := |s| - 1;
    MaskOfByte(s[n], ones - 8 * n);
    assert Masked(s, ones)[..n] == Masked(s[..n], ones);
  }

  /** Masking byte by byte rounds the number down to a multiple of the block size. */
  lemma {:induction false} MaskedValue(s: Bytes, ones: nat)
    requires ones <= 8 * |s|
    ensures Value(Masked(s, ones)) == Value(s) - Value(s) % Pow2(8 * |s| - ones)
    decreases |s|, 1
  {
    if s == [] { return; }
    MaskedValueStep(s, ones);
  }

  lemma {:induction false} MaskedValueStep(s: Bytes, ones: nat)
    requires ones <= 8 * |s| && s != []
    ensures Value(Masked(s, ones)) == Value(s) - Value(s) % Pow2(8 * |s| - ones)
    decreases |s|, 0
  {
    hide Pow2, Value, Masked;
    var n := |s| - 1;
    SplitLast(s, ones);
    if ones <= 8 * n {
      PowValues();
      MaskedValue(s[..n], ones);
      ShiftMod(Value(s[..n]), s[n], 8 * n - ones);
      CoarseStep(Value(s[..n]), s[n], Pow2(8 * n - ones), Value(Masked(s[..n], ones)));
    } else {
      AllOnes(s[..n], ones);
      LowMod(Value(s[..n]), s[n], 8 * |s| - ones);
    }
  }

  lemma CoarseStep(v: nat, d: nat, p: nat, m: int)
    requires p > 0 && m == v - v % p
    ensures m * 256 == v * 256 + d - ((v % p) * 256 + d)
  {
  }

  lemma {:induction false} AllOnes(s: Bytes, ones: nat)
    requires ones >= 8 * |s|
    ensures Masked(s, ones) == s
  {
    if s != [] {
      var n := |s| - 1;
      AllOnes(s[..n], ones);
      MaskOfByte(s[n], ones - 8 * n);
      assert s == s[..n] + [s[n]];
    }
  }
}
