// Random integers from eight random bytes: a little-endian decode, then the top bit cleared.
module Rng {
  import opened ByteSlices
  import opened Bits

  const TwoTo63: int := 0x8000_0000_0000_0000
  const TwoTo64: int := 0x1_0000_0000_0000_0000

  /** Go's `uint64`. */
  type uint64 = x: int | 0 <= x < TwoTo64

  /** 256 to the power n: one past the largest n-byte value. */
  function Pow256(n: nat): (r: nat)
    ensures r >= 1
  {
    if n == 0 then 1 else 256 * Pow256(n - 1)
  }

  /** The little-endian value of a byte string: byte i weighs 256^i. */
  function LittleEndian(b: Bytes): nat {
    if b == [] then 0 else b[0] as int + 256 * LittleEndian(b[1..])
  }

  /** The n bytes whose little-endian value is x, for x below 256^n. */
  function LittleEndianBytes(x: nat, n: nat): (b: Bytes)
    requires x < Pow256(n)
    ensures |b| == n
  {
    if n == 0 then [] else [x % 256] + LittleEndianBytes(x / 256, n - 1)
  }

  /** An n-byte string decodes below 256^n. */
  lemma {:induction false} LittleEndianBound(b: Bytes)
    ensures LittleEndian(b) < Pow256(|b|)
  {
    if b != [] {
      LittleEndianBound(b[1..]);
    }
  }

  /** The lowest base-256 digit and the rest are the remainder and the quotient. */
  lemma SplitDigit(x: nat, a: nat, q: nat)
    requires a < 256 && x == a + 256 * q
    ensures x % 256 == a && x / 256 == q
  {
  }

  /** Encoding then decoding gives the number back. */
  lemma {:induction false} DecodeEncode(x: nat, n: nat)
    requires x < Pow256(n)
    ensures LittleEndian(LittleEndianBytes(x, n)) == x
  {
    if n > 0 {
      DecodeEncode(x / 256, n - 1);
      var b := LittleEndianBytes(x, n);
      assert b[1..] == LittleEndianBytes(x / 256, n - 1);
      assert b[0] == x % 256;
      assert LittleEndian(b) == x % 256 + 256 * (x / 256);
    }
  }

  /** Decoding then encoding gives the bytes back. */
  lemma {:induction false} EncodeDecode(b: Bytes)
    ensures LittleEndian(b) < Pow256(|b|)
    ensures LittleEndianBytes(LittleEndian(b), |b|) == b
  {
    LittleEndianBound(b);
    if b != [] {
      EncodeDecode(b[1..]);
      var x := LittleEndian(b);
      SplitDigit(x, b[0], LittleEndian(b[1..]));
      assert LittleEndianBytes(x, |b|) == [x % 256] + LittleEndianBytes(x / 256, |b| - 1);
    }
  }

  /** Appending a byte adds it at the next weight. */
  lemma {:induction false} LittleEndianSnoc(s: Bytes, x: byte)
    ensures LittleEndian(s + [x]) == LittleEndian(s) + x * Pow256(|s|)
  {
    if s != [] {
      assert (s + [x])[1..] == s[1..] + [x];
      LittleEndianSnoc(s[1..], x);
      assert 256 * (x * Pow256(|s| - 1)) == x * Pow256(|s|);
    }
  }

  /** A byte's weight 256^n is `1 << 8n`. */
  lemma {:induction false} Pow256Pow2(n: nat)
    ensures Pow256(n) == Pow2(8 * n)
  {
    if n > 0 {
      Pow256Pow2(n - 1);
      Pow2Add(8, 8 * (n - 1));
      assert Pow2(8) == 256;
    }
  }

  /** The first i terms of `binary.LittleEndian.Uint64`, evaluated left to
      right: `uint64(b[0]) | uint64(b[1])<<8 | ... | uint64(b[i-1])<<(8*(i-1))`. */
  function OrFold(b: Bytes, i: nat): nat
    requires i <= |b|
  {
    if i == 0 then 0 else Or(OrFold(b, i - 1), b[i - 1] * Pow2(8 * (i - 1)))
  }

  /** The shifted bytes never overlap, so the ORs add up to the little-endian value. */
  lemma {:induction false} OrFoldLittleEndian(b: Bytes, i: nat)
    requires i <= |b|
    ensures OrFold(b, i) == LittleEndian(b[..i])
  {
    if i > 0 {
      OrFoldLittleEndian(b, i - 1);
      assert b[..i] == b[..i - 1] + [b[i - 1]];
      LittleEndianBound(b[..i - 1]);
      Pow256Pow2(i - 1);
      OrShifted(LittleEndian(b[..i - 1]), b[i - 1], 8 * (i - 1));
      LittleEndianSnoc(b[..i - 1], b[i - 1]);
    }
  }

  /** `binary.LittleEndian.Uint64`: the eight bytes shifted into place and
      ORed together, which is the little-endian value of the bytes. */
  function Uint64(b: Bytes): (r: uint64)
    requires |b| == 8
    ensures r == LittleEndian(b)
  {
    assert OrFold(b, 8) == LittleEndian(b) by {
      OrFoldLittleEndian(b, 8);
      assert b[..8] == b;
    }
    assert LittleEndian(b) < TwoTo64 by {
      LittleEndianBound(b);
      assert Pow256(8) == TwoTo64;
    }
    OrFold(b, 8)
  }

  /** Every uint64 is the decode of exactly one 8-byte string: the decode
      covers the whole range [0, 2^64 - 1]. */
  lemma Uint64Bijective(x: uint64, b: Bytes)
    requires |b| == 8
    ensures x < Pow256(8)
    ensures |LittleEndianBytes(x, 8)| == 8 && Uint64(LittleEndianBytes(x, 8)) == x
    ensures Uint64(b) == x <==> b == LittleEndianBytes(x, 8)
  {
    DecodeEncode(x, 8);
    EncodeDecode(b);
  }

  /** `x << 1 >> 1` on a uint64: the left shift drops the top bit (wrapping
      modulo 2^64), the right shift brings the rest back down. */
  function ClearTopBit(x: uint64): (r: int)
    ensures r == x % TwoTo63
    ensures 0 <= r < TwoTo63
  {
    var shifted := (x * 2) % TwoTo64;
    if x < TwoTo63 then
      assert shifted == x * 2;
      shifted / 2
    else
      assert shifted == (x - TwoTo63) * 2;
      shifted / 2
  }

  /** Int: the decoded bytes with the top bit cleared, a value in
      [0, 2^63 - 1] that keeps the low 63 bits. */
  function Int(b: Bytes): (r: int)
    requires |b| == 8
    ensures 0 <= r <= TwoTo63 - 1
    ensures r == LittleEndian(b) % TwoTo63
  {
    ClearTopBit(Uint64(b))
  }

  /** The upper bound is reached: eight 0xFF bytes give 2^63 - 1. */
  lemma IntReachesMax(b: Bytes)
    requires |b| == 8 && forall i :: 0 <= i < 8 ==> b[i] == 0xFF
    ensures Int(b) == TwoTo63 - 1
  {
    assert b[7..][1..] == [];
    assert LittleEndian(b[7..]) == 0xFF;
    assert LittleEndian(b[6..]) == 0xFFFF;
    assert LittleEndian(b[5..]) == 0xFF_FFFF;
    assert LittleEndian(b[4..]) == 0xFFFF_FFFF;
    assert LittleEndian(b[3..]) == 0xFF_FFFF_FFFF;
    assert LittleEndian(b[2..]) == 0xFFFF_FFFF_FFFF;
    assert LittleEndian(b[1..]) == 0xFF_FFFF_FFFF_FFFF;
  }
}
