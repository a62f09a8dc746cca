// Bytes, zero values and Go's built-in `copy`, shared by every package of the model.
module ByteSlices {

  /** A Go `byte`. */
  type byte = x: int | 0 <= x < 256
  type Bytes = seq<byte>

  function Min(a: int, b: int): int { if a < b then a else b }

  /** The zero value of a Go `[n]byte`. */
  function Zeros(n: nat): (r: Bytes)
    ensures |r| == n
    ensures forall i :: 0 <= i < n ==> r[i] == 0
  {
    seq(n, _ => 0)
  }

  /** The count `copy(dst[at:], src)` returns: the shorter of the two lengths. */
  function CopyCount(dstLen: nat, at: nat, src: Bytes): (n: nat)
    requires at <= dstLen
    ensures n <= |src| && at + n <= dstLen
    ensures n == |src| || at + n == dstLen
  {
    Min(dstLen - at, |src|)
  }

  /** The contents of `dst` after `copy(dst[at:], src)`: the first
      CopyCount bytes of `src` land at offset `at`, everything else stays. */
  function Copied(dst: Bytes, at: nat, src: Bytes): (r: Bytes)
    requires at <= |dst|
    ensures |r| == |dst|
    ensures forall j :: 0 <= j < |r| ==>
      r[j] == if at <= j < at + CopyCount(|dst|, at, src) then src[j - at] else dst[j]
  {
    var n := CopyCount(|dst|, at, src);
    dst[..at] + src[..n] + dst[at + n..]
  }

  /** Go's `copy(dst[at:], src)` on a byte buffer: writes in place and
      returns how many bytes it copied. */
  method Copy(dst: array<byte>, at: nat, src: Bytes) returns (n: nat)
    requires at <= dst.Length
    modifies dst
    ensures n == CopyCount(dst.Length, at, src)
    ensures dst[..] == Copied(old(dst[..]), at, src)
  {
    n := Min(dst.Length - at, |src|);
    for i := 0 to n
      invariant forall j :: 0 <= j < dst.Length ==>
        dst[j] == if at <= j < at + i then src[j - at] else old(dst[j])
    {
      dst[at + i] := src[i];
    }
    ghost var want := Copied(old(dst[..]), at, src);
    assert forall j :: 0 <= j < dst.Length ==> dst[..][j] == want[j];
  }
}
