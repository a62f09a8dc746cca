// Go's bitwise operators on unsigned integers, defined bit by bit from the lowest.
module Bits {

  /** `a ^ b`: exclusive or, taken bit by bit from the lowest. */
  function Xor(a: nat, b: nat): nat
    decreases a + b
  {
    if a == 0 && b == 0 then 0 else (a + b) % 2 + 2 * Xor(a / 2, b / 2)
  }

  /** `a | b`: inclusive or, taken bit by bit from the lowest. */
  function Or(a: nat, b: nat): nat
    decreases a + b
  {
    if a == 0 && b == 0 then 0 else (if a % 2 == 1 || b % 2 == 1 then 1 else 0) + 2 * Or(a / 2, b / 2)
  }

  /** 2 to the power n. */
  function Pow2(n: nat): (r: nat)
    ensures r >= 1
  {
    if n == 0 then 1 else 2 * Pow2(n - 1)
  }

  /** XOR is zero exactly on equal operands. */
  lemma {:induction false} XorZero(a: nat, b: nat)
    ensures Xor(a, b) == 0 <==> a == b
    decreases a + b
  {
    if a != 0 || b != 0 {
      XorZero(a / 2, b / 2);
    }
  }

  /** OR is zero exactly when both operands are. */
  lemma {:induction false} OrZero(a: nat, b: nat)
    ensures Or(a, b) == 0 <==> a == 0 && b == 0
    decreases a + b
  {
    if a != 0 || b != 0 {
      OrZero(a / 2, b / 2);
    }
  }

  /** Neither operator sets a bit above the operands' width. */
  lemma {:induction false} BitwiseBound(a: nat, b: nat, n: nat)
    requires a < Pow2(n) && b < Pow2(n)
    ensures Xor(a, b) < Pow2(n) && Or(a, b) < Pow2(n)
  {
    if n > 0 && (a != 0 || b != 0) {
      BitwiseBound(a / 2, b / 2, n - 1);
    }
  }

  /** ORing zero in changes nothing. */
  lemma {:induction false} OrZeroLeft(b: nat)
    ensures Or(0, b) == b
    decreases b
  {
    if b != 0 {
      OrZeroLeft(b / 2);
    }
  }

  /** `a | b << k` with `a` below `1 << k`: the bits do not overlap, so the OR is the sum. */
  lemma {:induction false} OrShifted(a: nat, b: nat, k: nat)
    requires a < Pow2(k)
    ensures Or(a, b * Pow2(k)) == a + b * Pow2(k)
  {
    if k == 0 {
      OrZeroLeft(b);
    } else {
      var hi := b * Pow2(k);
      assert hi == 2 * (b * Pow2(k - 1));
      if a != 0 || hi != 0 {
        OrShifted(a / 2, b, k - 1);
        assert hi % 2 == 0 && hi / 2 == b * Pow2(k - 1);
      }
    }
  }

  /** Powers of two multiply by adding exponents. */
  lemma {:induction false} Pow2Add(m: nat, n: nat)
    ensures Pow2(m + n) == Pow2(m) * Pow2(n)
  {
    if m > 0 {
      Pow2Add(m - 1, n);
    }
  }
}
