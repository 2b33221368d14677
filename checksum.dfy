/**
 * The hand-rolled Adler-32 loop of dumpulse.c and its copy in udpclient.c.
 * Both keep uint32 sums a = 1 and b = 0, add each byte to a and a to b, and
 * reduce each sum by at most one subtraction of 65521, only when the
 * number of bytes still to go is a multiple of a period (4096 in the engine,
 * from `len & 0xfff`; 256 in the client, from `len & 0xff`). The result is
 * `b << 16 | a` in uint32.
 */
module Checksum {
  import opened LittleEndian

  const ModAdler: nat := 65521
  const U32: nat := 0x1_0000_0000
  const EnginePeriod: nat := 0x1000
  const ClientPeriod: nat := 0x100

  /** The two running sums of the loop. */
  datatype Sums = Sums(a: u32, b: u32)

  /** The conditional subtraction `if (x >= mod_adler) x -= mod_adler`. */
  function Reduce(x: nat): (r: nat)
    ensures r <= x && r % ModAdler == x % ModAdler
  {
    if x >= ModAdler then x - ModAdler else x
  }

  /**
   * One pass of the loop body: `len` is the count of bytes left after this
   * one (the loop decrements before testing). The additions wrap at 2^32.
   */
  function Absorb(s: Sums, x: byte, len: nat, period: nat): Sums
    requires period > 0
  {
    var a := (s.a + x) % U32;
    var b := (s.b + a) % U32;
    if len % period == 0 then Sums(Reduce(a), Reduce(b)) else Sums(a, b)
  }

  /** The sums after the loop has consumed the first i bytes of data. */
  function SumsAfter(data: seq<byte>, i: nat, period: nat): Sums
    requires period > 0 && i <= |data|
  {
    if i == 0 then Sums(1, 0)
    else Absorb(SumsAfter(data, i - 1, period), data[i - 1], |data| - i, period)
  }

  function Pow2(k: nat): (p: nat)
    ensures p >= 1
  {
    if k == 0 then 1 else 2 * Pow2(k - 1)
  }

  /** Bitwise OR of two naturals. */
  function BitOr(x: nat, y: nat): nat
    decreases x + y
  {
    if x == 0 then y
    else if y == 0 then x
    else (if x % 2 == 1 || y % 2 == 1 then 1 else 0) + 2 * BitOr(x / 2, y / 2)
  }

  /** The OR of two k-bit numbers has k bits. */
  lemma {:induction false} BitOrBelow(x: nat, y: nat, k: nat)
    requires x < Pow2(k) && y < Pow2(k)
    ensures BitOr(x, y) < Pow2(k)
    decreases x + y
  {
    if x != 0 && y != 0 {
      assert k > 0;
      BitOrBelow(x / 2, y / 2, k - 1);
    }
  }

  /** OR of a multiple of 2^k with a number below 2^k is their sum: the bits do not overlap. */
  lemma {:induction false} BitOrDisjoint(h: nat, l: nat, k: nat)
    requires l < Pow2(k)
    ensures BitOr(h * Pow2(k), l) == h * Pow2(k) + l
  {
    var x := h * Pow2(k);
    if x != 0 && l != 0 {
      assert k > 0;
      var x' := h * Pow2(k - 1);
      assert x == 2 * x';
      BitOrDisjoint(h, l / 2, k - 1);
      assert BitOr(x, l) == l % 2 + 2 * BitOr(x', l / 2);
    }
  }

  lemma Pow2Values()
    ensures Pow2(16) == 0x1_0000 && Pow2(32) == U32
  {
    assert Pow2(8) == 0x100;
    assert Pow2(16) == Pow2(8) * Pow2(8) by { Pow2Add(8, 8); }
    assert Pow2(32) == Pow2(16) * Pow2(16) by { Pow2Add(16, 16); }
  }

  lemma {:induction false} Pow2Add(j: nat, k: nat)
    ensures Pow2(j + k) == Pow2(j) * Pow2(k)
  {
    if k > 0 {
      Pow2Add(j, k - 1);
      assert Pow2(j + k) == 2 * Pow2(j + k - 1);
    }
  }

  /** `b << 16 | a` on uint32 sums: the shift drops the high half of b. */
  function Combine(s: Sums): (r: u32)
  {
    Pow2Values();
    BitOrBelow((s.b % 0x1_0000) * 0x1_0000, s.a, 32);
    BitOr((s.b % 0x1_0000) * 0x1_0000, s.a)
  }

  /** The checksum the loop returns for data under the given reduction period. */
  function Adler32Of(data: seq<byte>, period: nat): u32
    requires period > 0
  {
    Combine(SumsAfter(data, |data|, period))
  }

  /** The sum of the bytes. */
  function Sum(data: seq<byte>): nat
  {
    if data == [] then 0 else Sum(data[..|data| - 1]) + data[|data| - 1]
  }

  /** Adler-32's s1 with no reduction: 1 plus the sum of the bytes. */
  function PlainA(data: seq<byte>): nat
  {
    1 + Sum(data)
  }

  /** Adler-32's s2 with no reduction: the sum of s1 after each byte. */
  function PlainB(data: seq<byte>): nat
  {
    if data == [] then 0 else PlainB(data[..|data| - 1]) + PlainA(data)
  }

  /** Adler-32 as section 2.2 of RFC 1950 defines it: s2 * 65536 + s1, both sums mod 65521. */
  function StandardAdler32(data: seq<byte>): (r: u32)
  {
    (PlainB(data) % ModAdler) * 0x1_0000 + PlainA(data) % ModAdler
  }

  /** With every prefix no longer than cap, s1 stays below 1 + 255 * cap and s2 grows by at most that per byte. */
  lemma {:induction false} PlainBounds(data: seq<byte>, cap: nat)
    requires |data| <= cap
    ensures PlainA(data) <= 1 + 255 * |data|
    ensures PlainB(data) <= |data| * (1 + 255 * cap)
  {
    if data != [] {
      var n := |data|;
      var init := data[..n - 1];
      PlainBounds(init, cap);
      assert PlainA(data) == PlainA(init) + data[n - 1];
      assert (n - 1) * (1 + 255 * cap) + (1 + 255 * cap) == n * (1 + 255 * cap);
    }
  }

  lemma ModOfSmall(x: nat, p: nat)
    requires x < p
    ensures x % p == x
  {
  }

  /**
   * Before the last byte of an input no longer than the period, the loop
   * neither reduces nor wraps: its sums are the plain Adler-32 sums.
   */
  lemma {:induction false} SumsBeforeLast(data: seq<byte>, period: nat, i: nat)
    requires 0 < |data| <= period && |data| <= 0x1000 && i < |data|
    ensures SumsAfter(data, i, period).a == PlainA(data[..i])
    ensures SumsAfter(data, i, period).b == PlainB(data[..i])
  {
    if i > 0 {
      SumsBeforeLast(data, period, i - 1);
      var p := data[..i];
      var prev := SumsAfter(data, i - 1, period);
      assert p[..i - 1] == data[..i - 1];
      PlainBounds(p, 0x1000);
      assert PlainA(p) == prev.a + data[i - 1];
      assert PlainB(p) == prev.b + PlainA(p);
      ModOfSmall(|data| - i, period);
      ModOfSmall(PlainA(p), U32);
      ModOfSmall(PlainB(p), U32);
    }
  }

  /**
   * For an input of at most one period (and at most 4096 bytes) the loop
   * reduces exactly once, on the last byte, and never wraps.
   */
  lemma ShortInputSums(data: seq<byte>, period: nat)
    requires 0 < |data| <= period && |data| <= 0x1000
    ensures SumsAfter(data, |data|, period).a == Reduce(PlainA(data))
    ensures SumsAfter(data, |data|, period).b == Reduce(PlainB(data))
  {
    var n := |data|;
    SumsBeforeLast(data, period, n - 1);
    var prev := SumsAfter(data, n - 1, period);
    assert data[..n] == data;
    PlainBounds(data, 0x1000);
    assert PlainB(data) < U32 by {
      assert n * (1 + 255 * 0x1000) <= 0x1000 * (1 + 255 * 0x1000);
    }
    assert PlainA(data) == prev.a + data[n - 1];
    assert PlainB(data) == prev.b + PlainA(data);
    assert (|data| - n) % period == 0;
    ModOfSmall(PlainA(data), U32);
    ModOfSmall(PlainB(data), U32);
  }

  /** When a fits in 16 bits, `b << 16 | a` is (b mod 2^16) * 2^16 + a. */
  lemma CombineSmall(s: Sums)
    requires s.a < 0x1_0000
    ensures Combine(s) == (s.b % 0x1_0000) * 0x1_0000 + s.a
  {
    Pow2Values();
    BitOrDisjoint(s.b % 0x1_0000, s.a, 16);
  }

  /**
   * Inputs of up to 22 bytes -- the 4-byte heartbeat payload among them --
   * get exactly the standard Adler-32 of RFC 1950, under either period;
   * this is why packets built with a library Adler-32 are accepted.
   */
  lemma ShortInputIsStandard(data: seq<byte>, period: nat)
    requires |data| <= 22 && 0 < period && |data| <= period
    ensures Adler32Of(data, period) == StandardAdler32(data)
  {
    if data == [] {
      CombineSmall(Sums(1, 0));
    } else {
      ShortInputSums(data, period);
      PlainBounds(data, 22);
      var a, b := PlainA(data), PlainB(data);
      assert a <= 5611 && b <= 22 * 5611;
      assert Reduce(a) == a;
      assert Reduce(b) < ModAdler;
      ModOfSmall(a, ModAdler);
      ModOfSmall(Reduce(b), ModAdler);
      CombineSmall(SumsAfter(data, |data|, period));
      ModOfSmall(Reduce(b), 0x1_0000);
    }
  }

  /**
   * The engine's 256-byte report checksum: the low 16 bits are 1 plus the
   * sum of the bytes (at most 65281, so never reduced), the high 16 bits are
   * the low 16 bits of s2 after at most one subtraction of 65521.
   */
  lemma ReportChecksum(data: seq<byte>)
    requires |data| == 256
    ensures PlainA(data) == 1 + Sum(data) <= 65281
    ensures Adler32Of(data, EnginePeriod) == (Reduce(PlainB(data)) % 0x1_0000) * 0x1_0000 + PlainA(data)
    ensures Adler32Of(data, EnginePeriod) % 0x1_0000 == 1 + Sum(data)
    ensures Adler32Of(data, EnginePeriod) / 0x1_0000 == Reduce(PlainB(data)) % 0x1_0000
  {
    ReportSums(data);
    CombineSmall(SumsAfter(data, |data|, EnginePeriod));
    SplitHalves(Reduce(PlainB(data)) % 0x1_0000, PlainA(data));
  }

  /** For 256 bytes s1 never reaches 65521, so only s2 is reduced. */
  lemma ReportSums(data: seq<byte>)
    requires |data| == 256
    ensures PlainA(data) <= 65281
    ensures SumsAfter(data, |data|, EnginePeriod).a == PlainA(data)
    ensures SumsAfter(data, |data|, EnginePeriod).b == Reduce(PlainB(data))
  {
    ShortInputSums(data, EnginePeriod);
    PlainBounds(data, 256);
  }

  /** When s2 stays below twice the modulus, one reduction is enough and the report checksum is standard. */
  lemma ReportStandardWhenSmall(data: seq<byte>)
    requires |data| == 256 && PlainB(data) < 2 * ModAdler
    ensures Adler32Of(data, EnginePeriod) == StandardAdler32(data)
  {
    ReportChecksum(data);
    var a, b := PlainA(data), PlainB(data);
    assert Reduce(b) == b % ModAdler && Reduce(b) < 0x1_0000;
    ModOfSmall(Reduce(b), 0x1_0000);
    ModOfSmall(a, ModAdler);
  }

  lemma SplitHalves(h: nat, l: nat)
    requires l < 0x1_0000
    ensures (h * 0x1_0000 + l) % 0x1_0000 == l && (h * 0x1_0000 + l) / 0x1_0000 == h
  {
  }

  /**
   * udpclient.c's copy reduces on `len & 0xff`, dumpulse.c on `len & 0xfff`;
   * on inputs of at most 256 bytes both reduce only on the last byte and agree.
   */
  lemma {:induction false} PeriodsAgreeUpTo(data: seq<byte>, i: nat)
    requires |data| <= ClientPeriod && i <= |data|
    ensures SumsAfter(data, i, ClientPeriod) == SumsAfter(data, i, EnginePeriod)
  {
    if i > 0 {
      PeriodsAgreeUpTo(data, i - 1);
      var len := |data| - i;
      assert len % ClientPeriod == 0 <==> len == 0;
      assert len % EnginePeriod == 0 <==> len == 0;
    }
  }

  lemma PeriodsAgree(data: seq<byte>)
    requires |data| <= ClientPeriod
    ensures Adler32Of(data, ClientPeriod) == Adler32Of(data, EnginePeriod)
  {
    PeriodsAgreeUpTo(data, |data|);
  }

  lemma {:induction false} ConstantSums(n: nat, c: byte)
    ensures Sum(seq(n, _ => c)) == c * n
    ensures 2 * PlainB(seq(n, _ => c)) == 2 * n + c * (n * (n + 1))
  {
    if n > 0 {
      var d := seq(n, _ => c);
      var m := n - 1;
      assert d[..m] == seq(m, _ => c);
      ConstantSums(m, c);
      TriangleStep(m, c);
    }
  }

  lemma TriangleStep(m: nat, c: nat)
    ensures c * (m + 1) == c * m + c
    ensures c * ((m + 1) * (m + 2)) == c * (m * (m + 1)) + 2 * (c * (m + 1))
  {
    assert (m + 1) * (m + 2) == m * (m + 1) + 2 * (m + 1);
  }

  /** Reference vector: the report of an all-zero table is stamped 0x01000001 (s1 = 1, s2 = 256). */
  lemma ZeroReportChecksum()
    ensures Adler32Of(seq(256, _ => 0), EnginePeriod) == 0x0100_0001
  {
    var d: seq<byte> := seq(256, _ => 0);
    ConstantSums(256, 0);
    ReportChecksum(d);
  }

  /**
   * The engine's report checksum is not Adler-32: for 256 bytes of 0xff,
   * s2 = 8388736 is reduced only once and then truncated to 16 bits by the
   * shift, giving 0x008fff01 where RFC 1950 gives 0x0800ff01.
   */
  lemma ReportDivergesFromStandard()
    ensures Adler32Of(seq(256, _ => 0xff), EnginePeriod) == 0x008F_FF01
    ensures StandardAdler32(seq(256, _ => 0xff)) == 0x0800_FF01
  {
    var d: seq<byte> := seq(256, _ => 0xff);
    ConstantSums(256, 0xff);
    assert PlainB(d) == 8388736;
    ReportChecksum(d);
  }

  /**
   * adler32(p, len) of dumpulse.c (period 4096) and of udpclient.c (period
   * 256), walking the bytes with a decreasing `len` as the C loop does.
   */
  method Adler32(data: seq<byte>, period: nat) returns (sum: u32)
    requires period > 0
    ensures sum == Adler32Of(data, period)
  {
    var a: u32, b: u32 := 1, 0;
    var len := |data|;
    var i := 0;
    while len > 0
      invariant 0 <= len <= |data| && i == |data| - len
      invariant Sums(a, b) == SumsAfter(data, i, period)
    {
      ghost var prev := Sums(a, b);
      len := len - 1;
      a := (a + data[i]) % U32;
      b := (b + a) % U32;
      i := i + 1;
      if len % period == 0 {
        if a >= ModAdler { a := a - ModAdler; }
        if b >= ModAdler { b := b - ModAdler; }
      }
      assert Sums(a, b) == Absorb(prev, data[i - 1], len, period);
    }
    sum := Combine(Sums(a, b));
  }
}
