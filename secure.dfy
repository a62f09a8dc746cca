// Zeroing of secret buffers and a byte-string comparison with an XOR accumulator.
module Secure {
  import opened ByteSlices
  import opened Bits

  /** Every byte of the buffer is zero. */
  ghost predicate AllZero(a: array<byte>)
    reads a
  {
    forall m :: 0 <= m < a.Length ==> a[m] == 0
  }

  /** A buffer's contents after clearing: the same length, every byte zero. */
  function Wiped(s: Bytes): (r: Bytes)
    ensures |r| == |s|
    ensures forall i :: 0 <= i < |r| ==> r[i] == 0
  {
    Zeros(|s|)
  }

  /** ClearSlice: zeroes every byte of every given buffer in place. A buffer
      given twice is zeroed twice; nothing outside the buffers is written. */
  method ClearSlice(bufs: seq<array<byte>>)
    modifies set a | a in bufs
    ensures forall a :: a in bufs ==> a[..] == Wiped(old(a[..]))
  {
    for j := 0 to |bufs|
      invariant forall k :: 0 <= k < j ==> AllZero(bufs[k])
    {
      var s := bufs[j];
      for i := 0 to s.Length
        invariant forall k :: 0 <= k < j ==> AllZero(bufs[k])
        invariant forall m :: 0 <= m < i ==> s[m] == 0
      {
        s[i] := 0;
      }
    }
    forall a | a in bufs
      ensures a[..] == Wiped(old(a[..]))
    {
      var k :| 0 <= k < |bufs| && bufs[k] == a;
      assert AllZero(bufs[k]);
    }
  }

  /** Clearing is idempotent: a second clear changes nothing. */
  lemma WipedIdempotent(s: Bytes)
    ensures Wiped(Wiped(s)) == Wiped(s)
  {
  }

  /** A buffer's contents after `n` successive clears. */
  function WipedTimes(s: Bytes, n: nat): Bytes {
    if n == 0 then s else Wiped(WipedTimes(s, n - 1))
  }

  /** Any positive number of clears leaves the state one clear leaves. */
  lemma {:induction false} WipedTimesOnce(s: Bytes, n: nat)
    requires n >= 1
    ensures WipedTimes(s, n) == Wiped(s)
  {
    if n > 1 {
      WipedTimesOnce(s, n - 1);
      WipedIdempotent(s);
    }
  }

  /** Clearer: a set of secret buffers cleared on request. The read/write
      lock and the goroutine around the clear are not part of the model. */
  class Clearer {
    var cleared: bool
    var slices: seq<array<byte>>

    /** No operation ever sets `cleared`, so it stays false. */
    ghost predicate Valid()
      reads this
    {
      !cleared
    }

    /** NewClearer: a clearer over the given buffers, not yet cleared. */
    constructor (buf: seq<array<byte>>)
      ensures Valid()
      ensures slices == buf
    {
      cleared := false;
      slices := buf;
    }

    /** The locked body of Clear: the guard on `cleared` always passes, so
        every call zeroes every registered buffer again. */
    method Clear()
      requires Valid()
      modifies set a | a in slices
      ensures Valid() && slices == old(slices)
      ensures forall a :: a in slices ==> a[..] == Wiped(old(a[..]))
    {
      if !cleared {
        ClearSlice(slices);
      }
    }
  }

  /** `x ^ y` on two bytes. */
  function XorByte(x: byte, y: byte): (r: byte)
    ensures r == 0 <==> x == y
  {
    XorZero(x, y);
    BitwiseBound(x, y, 8);
    Xor(x, y)
  }

  /** `v | w` on two bytes. */
  function OrByte(v: byte, w: byte): (r: byte)
    ensures r == 0 <==> v == 0 && w == 0
  {
    OrZero(v, w);
    BitwiseBound(v, w, 8);
    Or(v, w)
  }

  /** `subtle.ConstantTimeByteEq`: 1 when the bytes are equal, 0 otherwise. */
  function ConstantTimeByteEq(x: byte, y: byte): (r: int)
    ensures r == 1 <==> x == y
    ensures r == 0 || r == 1
  {
    if x == y then 1 else 0
  }

  /** EqualString: false on different lengths; otherwise ORs the XOR of
      every pair of bytes into one accumulator and tests it for zero. */
  method EqualString(x: Bytes, y: Bytes) returns (eq: bool)
    ensures eq <==> x == y
  {
    if |x| != |y| {
      return false;
    }
    var v: byte := 0;
    for i := 0 to |x|
      invariant v == 0 <==> x[..i] == y[..i]
    {
      assert x[..i + 1] == x[..i] + [x[i]] && y[..i + 1] == y[..i] + [y[i]];
      v := OrByte(v, XorByte(x[i], y[i]));
    }
    assert x[..|x|] == x && y[..|y|] == y;
    eq := ConstantTimeByteEq(v, 0) == 1;
  }
}
