/** Bytes, 16-bit words and the XBee API frame checksum. */
module Bytes {

  /** An unsigned 8-bit value (C# `byte`). */
  type byte = b: int | 0 <= b < 0x100

  /** An unsigned 16-bit value (C# `UInt16`). */
  type u16 = w: int | 0 <= w < 0x1_0000

  /** An unsigned 64-bit value (C# `UInt64`). */
  type u64 = x: int | 0 <= x < 0x1_0000_0000_0000_0000

  /** High byte of a word (`w >> 8`). */
  function Hi(w: u16): byte { w / 0x100 }

  /** Low byte of a word (`w & 0xFF`). */
  function Lo(w: u16): byte { w % 0x100 }

  /** The word whose big-endian bytes are `hi`, `lo` (`(hi << 8) | lo`). */
  function Word(hi: byte, lo: byte): u16
  {
    hi * 0x100 + lo
  }

  /** The two bytes of a word built from `hi`, `lo` are `hi`, `lo` again. */
  lemma BytesOfWord(hi: byte, lo: byte)
    ensures Hi(Word(hi, lo)) == hi && Lo(Word(hi, lo)) == lo
  {
  }

  /** Every word is recovered from its two bytes. */
  lemma WordOfBytes(w: u16)
    ensures Word(Hi(w), Lo(w)) == w
  {
  }

  /** Unbounded sum of a byte sequence. */
  function Sum(s: seq<byte>): nat
  {
    if s == [] then 0 else Sum(s[..|s| - 1]) + s[|s| - 1]
  }

  lemma {:induction false} SumAppend(a: seq<byte>, b: seq<byte>)
    ensures Sum(a + b) == Sum(a) + Sum(b)
    decreases |b|
  {
    if b == [] {
      assert a + b == a;
    } else {
      assert (a + b)[..|a + b| - 1] == a + b[..|b| - 1];
      SumAppend(a, b[..|b| - 1]);
    }
  }

  /** The XBee checksum of the bytes it covers: 0xFF minus the low byte of their sum. */
  function Checksum(s: seq<byte>): (c: byte)
    ensures (Sum(s) + c) % 0x100 == 0xFF
  {
    0xFF - Sum(s) % 0x100
  }

  /** A receiver verifies a frame by summing the covered bytes and the checksum:
      the low byte of that sum is 0xFF exactly when the checksum byte is the right one. */
  lemma {:induction false} ChecksumVerifies(s: seq<byte>, c: byte)
    ensures Sum(s + [c]) % 0x100 == 0xFF <==> c == Checksum(s)
  {
    SumAppend(s, [c]);
    assert Sum([c]) == c by { assert [c][..0] == []; }
    var k := Sum(s) % 0x100;
    assert (Sum(s) + c) % 0x100 == (k + c) % 0x100;
  }

  function Pow2(n: nat): (p: nat)
    ensures p > 0
  {
    if n == 0 then 1 else 2 * Pow2(n - 1)
  }

  /** Bitwise OR of two naturals, bit by bit from the least significant. */
  function BitOr(x: nat, y: nat): nat
    decreases x
  {
    if x == 0 then y
    else if y == 0 then x
    else 2 * BitOr(x / 2, y / 2) + (if x % 2 == 1 || y % 2 == 1 then 1 else 0)
  }

  /** OR of two n-bit values is an n-bit value. */
  lemma {:induction false} BitOrBelow(x: nat, y: nat, n: nat)
    requires x < Pow2(n) && y < Pow2(n)
    ensures BitOr(x, y) < Pow2(n)
    decreases x
  {
    if x != 0 && y != 0 {
      BitOrBelow(x / 2, y / 2, n - 1);
    }
  }

  lemma {:induction false} Pow2Add(a: nat, b: nat)
    ensures Pow2(a + b) == Pow2(a) * Pow2(b)
    decreases b
  {
    if b > 0 {
      Pow2Add(a, b - 1);
      assert Pow2(a + b) == 2 * Pow2(a + b - 1);
    }
  }

  lemma Pow2Of64()
    ensures Pow2(64) == 0x1_0000_0000_0000_0000
  {
    assert Pow2(8) == 0x100;
    Pow2Add(8, 8);
    Pow2Add(16, 16);
    Pow2Add(32, 32);
  }

  /** `a | b` on two UInt64 values. */
  function Or64(a: u64, b: u64): u64
  {
    Pow2Of64();
    BitOrBelow(a, b, 64);
    BitOr(a, b)
  }

  /** OR-ing zero changes nothing. */
  lemma Or64Zero(a: u64)
    ensures Or64(a, 0) == a && Or64(0, a) == a
  {
  }

  /** `w |= b` on a UInt16 and a byte: only the low byte of `w` takes part. */
  function OrByte(w: u16, b: byte): u16
  {
    BitOrBelow(Lo(w), b, 8);
    Word(Hi(w), BitOr(Lo(w), b))
  }

  /** OR-ing a byte into a word whose low byte is clear places it there. */
  lemma OrByteIntoHigh(hi: byte, b: byte)
    ensures OrByte(Word(hi, 0), b) == Word(hi, b)
  {
    BytesOfWord(hi, 0);
  }

  /** OR of a multiple of 2^k with a value below 2^k is their sum. */
  lemma {:induction false} BitOrDisjoint(q: nat, y: nat, k: nat)
    requires y < Pow2(k)
    ensures BitOr(q * Pow2(k), y) == q * Pow2(k) + y
    decreases k
  {
    var x := q * Pow2(k);
    if x != 0 && y != 0 {
      var p := Pow2(k - 1);
      assert x == 2 * (q * p);
      assert x / 2 == q * p && x % 2 == 0;
      BitOrDisjoint(q, y / 2, k - 1);
    }
  }

  /** The number whose big-endian bytes are `s`. */
  function BigEndian(s: seq<byte>): nat
  {
    if s == [] then 0 else BigEndian(s[..|s| - 1]) * 0x100 + s[|s| - 1]
  }

  /** The powers of two that are whole bytes, up to 2^48. */
  lemma Pow2Bytes()
    ensures Pow2(0) == 1 && Pow2(8) == 0x100 && Pow2(16) == 0x1_0000
    ensures Pow2(24) == 0x100_0000 && Pow2(32) == 0x1_0000_0000
    ensures Pow2(40) == 0x100_0000_0000 && Pow2(48) == 0x1_0000_0000_0000
  {
    assert Pow2(8) == 0x100;
    Pow2Add(8, 8);
    Pow2Add(16, 8);
    Pow2Add(24, 8);
    Pow2Add(32, 8);
    Pow2Add(40, 8);
  }

  /** A leading zero byte does not change a big-endian number. */
  lemma {:induction false} BigEndianLeadingZero(s: seq<byte>)
    ensures BigEndian([0] + s) == BigEndian(s)
    decreases |s|
  {
    if s != [] {
      assert ([0] + s)[..|[0] + s| - 1] == [0] + s[..|s| - 1];
      BigEndianLeadingZero(s[..|s| - 1]);
    } else {
      assert ([0] + s)[..0] == [];
    }
  }

  lemma ByteTimesBelow(b: byte, p: nat)
    requires p > 0
    ensures b * p < 0x100 * p
  {
  }

  lemma ByteRegroup(hi: nat, b: byte, p: nat)
    ensures hi * (0x100 * p) + b * p == (hi * 0x100 + b) * p
  {
  }

  /** OR-ing a byte into the place just below a number shifted one byte further up. */
  lemma BitOrPlaced(hi: nat, b: byte, k: nat)
    ensures BitOr(hi * Pow2(8 + k), b * Pow2(k)) == (hi * 0x100 + b) * Pow2(k)
  {
    var p := Pow2(k);
    Pow2Add(8, k);
    assert Pow2(8) == 0x100;
    ByteTimesBelow(b, p);
    BitOrDisjoint(hi, b * p, 8 + k);
    ByteRegroup(hi, b, p);
  }

  /** Appending a byte shifts a big-endian number up by a byte. */
  lemma BigEndianSlice(s: seq<byte>, lo: nat, hi: nat)
    requires lo < hi <= |s|
    ensures BigEndian(s[lo..hi]) == BigEndian(s[lo..hi - 1]) * 0x100 + s[hi - 1]
  {
    assert s[lo..hi][..hi - lo - 1] == s[lo..hi - 1];
  }
}
