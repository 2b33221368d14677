/**
 * Unsigned machine words and the little-endian byte codec of dumpulse.c
 * (store_little_endian_u16, store_little_endian_u32,
 * fetch_little_endian_u32). Buffers hold unsigned bytes 0..255.
 */
module LittleEndian {

  type byte = b: int | 0 <= b < 0x100
  type u16 = x: int | 0 <= x < 0x1_0000
  type u32 = x: int | 0 <= x < 0x1_0000_0000

  /** The bytes store_little_endian_u16 writes for v: low byte first. */
  function LeU16(v: u16): (w: seq<byte>)
    ensures |w| == 2 && w[0] as int + 0x100 * (w[1] as int) == v
  {
    [v % 0x100, v / 0x100]
  }

  /** The bytes a little-endian store of the 32-bit v writes: byte k is v >> 8k, truncated. */
  function LeU32(v: u32): (w: seq<byte>)
    ensures |w| == 4
  {
    [v % 0x100, (v / 0x100) % 0x100, (v / 0x1_0000) % 0x100, v / 0x100_0000]
  }

  /**
   * fetch_little_endian_u32: q[0] | q[1] << 8 | q[2] << 16 | q[3] << 24.
   * The four shifted bytes occupy disjoint bit lanes, so the ORs are sums.
   */
  function FetchU32(s: seq<byte>, off: nat): (r: u32)
    requires off + 4 <= |s|
    ensures LeU32(r) == s[off..off + 4]
  {
    var r := s[off] as int + 0x100 * (s[off + 1] as int) + 0x1_0000 * (s[off + 2] as int)
      + 0x100_0000 * (s[off + 3] as int);
    assert r / 0x100 == s[off + 1] as int + 0x100 * (s[off + 2] as int) + 0x1_0000 * (s[off + 3] as int);
    assert r / 0x1_0000 == s[off + 2] as int + 0x100 * (s[off + 3] as int);
    assert r / 0x100_0000 == s[off + 3];
    r
  }

  /** s with w written over it from index off on; the rest of s is kept. */
  function Splice(s: seq<byte>, off: nat, w: seq<byte>): (r: seq<byte>)
    requires off + |w| <= |s|
    ensures |r| == |s| && r[off..off + |w|] == w
    ensures forall k :: 0 <= k < |s| && !(off <= k < off + |w|) ==> r[k] == s[k]
  {
    s[..off] + w + s[off + |w|..]
  }

  /** Fetching the four bytes just stored returns the stored value. */
  lemma FetchOfStore(v: u32)
    ensures FetchU32(LeU32(v), 0) == v
  {
    var t1 := v / 0x100;
    var t2 := v / 0x1_0000;
    var t3 := v / 0x100_0000;
    assert v == 0x100 * t1 + v % 0x100;
    assert t1 == 0x100 * (t1 / 0x100) + t1 % 0x100;
    assert t1 / 0x100 == t2;
    assert t2 == 0x100 * (t2 / 0x100) + t2 % 0x100;
    assert t2 / 0x100 == t3;
  }

  /** Storing the value fetched from four bytes gives those bytes back. */
  lemma StoreOfFetch(w: seq<byte>)
    requires |w| == 4
    ensures LeU32(FetchU32(w, 0)) == w
  {
    var v := FetchU32(w, 0);
    assert v / 0x100 == w[1] as int + 0x100 * (w[2] as int) + 0x1_0000 * (w[3] as int);
    assert v / 0x1_0000 == w[2] as int + 0x100 * (w[3] as int);
    assert v / 0x100_0000 == w[3];
  }

  /** store_little_endian_u32 is two u16 stores: the low half, then v >> 16. */
  lemma LeU32Halves(v: u32)
    ensures LeU32(v) == LeU16(v % 0x1_0000) + LeU16(v / 0x1_0000)
  {
    var lo := v % 0x1_0000;
    var hi := v / 0x1_0000;
    assert v == 0x1_0000 * hi + lo;
    assert v / 0x100 == 0x100 * hi + lo / 0x100;
    assert v / 0x100_0000 == hi / 0x100;
  }

  /** A fetch at off after a store at off returns the stored value, whatever surrounds it. */
  lemma FetchAfterSplice(s: seq<byte>, off: nat, v: u32)
    requires off + 4 <= |s|
    ensures FetchU32(Splice(s, off, LeU32(v)), off) == v
  {
    var r := Splice(s, off, LeU32(v));
    assert r[off..off + 4] == LeU32(v);
    assert r[off] == LeU32(v)[0] && r[off + 1] == LeU32(v)[1];
    assert r[off + 2] == LeU32(v)[2] && r[off + 3] == LeU32(v)[3];
    FetchOfStore(v);
  }

  /** store_little_endian_u16: p[0] = 0xff & v; p[1] = 0xff & (v >> 8). Writes p[off], p[off+1] only. */
  method StoreU16(p: array<byte>, off: nat, v: u16)
    requires off + 2 <= p.Length
    modifies p
    ensures p[..] == Splice(old(p[..]), off, LeU16(v))
  {
    p[off] := v % 0x100;
    p[off + 1] := (v / 0x100) % 0x100;
    assert p[..] == Splice(old(p[..]), off, LeU16(v)) by {
      var r := Splice(old(p[..]), off, LeU16(v));
      assert r[off..off + 2] == LeU16(v);
      assert r[off] == LeU16(v)[0] && r[off + 1] == LeU16(v)[1];
    }
  }

  /**
   * store_little_endian_u32: a u16 store of v (the conversion to uint16
   * keeps v mod 2^16) at p, then one of v >> 16 at p + 2.
   */
  method StoreU32(p: array<byte>, off: nat, v: u32)
    requires off + 4 <= p.Length
    modifies p
    ensures p[..] == Splice(old(p[..]), off, LeU32(v))
  {
    StoreU16(p, off, v % 0x1_0000);
    StoreU16(p, off + 2, v / 0x1_0000);
    LeU32Halves(v);
    assert p[..] == Splice(old(p[..]), off, LeU32(v)) by {
      var r := Splice(old(p[..]), off, LeU32(v));
      forall k | 0 <= k < p.Length
        ensures p[k] == r[k]
      {
        if off <= k < off + 4 {
          assert r[off..off + 4][k - off] == r[k];
        }
      }
    }
  }
}
