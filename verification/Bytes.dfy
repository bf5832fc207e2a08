/** Go's byte, and the two bitwise operations the gateway applies to bytes. */
module Bytes {
  type byte = b: nat | b < 256

  function Pow2(n: nat): (r: nat)
    ensures r > 0
  {
    if n == 0 then 1 else 2 * Pow2(n - 1)
  }

  /** x followed by m zero bits. */
  function Shift(x: nat, m: nat): nat
    decreases m
  {
    if m == 0 then x else 2 * Shift(x, m - 1)
  }

  /** x with its m lowest bits cleared: the largest multiple of 2^m that is at most x. */
  function DropLow(x: nat, m: nat): nat {
    if m == 0 then x else 2 * DropLow(x / 2, m - 1)
  }

  /** Two numbers agree above their m lowest bits just when they lie in the same block of length 2^m. */
  lemma {:induction false} SameBlock(x: nat, y: nat, m: nat)
    ensures DropLow(x, m) <= x < DropLow(x, m) + Pow2(m)
    ensures DropLow(x, m) == DropLow(y, m) <==> DropLow(x, m) <= y < DropLow(x, m) + Pow2(m)
  {
    if m > 0 {
      SameBlock(x / 2, y / 2, m - 1);
    }
  }

  lemma {:induction false} DropLowTwice(x: nat, m: nat)
    ensures DropLow(DropLow(x, m), m) == DropLow(x, m)
  {
    if m > 0 {
      DropLowTwice(x / 2, m - 1);
      assert DropLow(x, m) / 2 == DropLow(x / 2, m - 1);
    }
  }

  lemma {:induction false} BlockFits(x: nat, m: nat, n: nat)
    requires m <= n && x < Pow2(n)
    ensures DropLow(x, m) + Pow2(m) <= Pow2(n)
  {
    if m > 0 {
      BlockFits(x / 2, m - 1, n - 1);
    }
  }

  /** Clearing at most m bits below a shifted number only touches the low part. */
  lemma {:induction false} DropInLowPart(x: nat, low: nat, m: nat, k: nat)
    requires low < Pow2(m) && k <= m
    ensures DropLow(Shift(x, m) + low, k) == Shift(x, m) + DropLow(low, k)
  {
    if k > 0 {
      DropInLowPart(x, low / 2, m - 1, k - 1);
      assert (Shift(x, m) + low) / 2 == Shift(x, m - 1) + low / 2;
    }
  }

  /** Clearing at least m bits below a shifted number clears the low part. */
  lemma {:induction false} DropPastLowPart(x: nat, low: nat, m: nat, k: nat)
    requires low < Pow2(m)
    ensures DropLow(Shift(x, m) + low, m + k) == Shift(DropLow(x, k), m)
  {
    if m > 0 {
      DropPastLowPart(x, low / 2, m - 1, k);
      assert (2 * Shift(x, m - 1) + low) / 2 == Shift(x, m - 1) + low / 2;
    } else {
      assert low == 0;
    }
  }

  /** Bitwise operation on n-bit numbers, given by its table on one bit. */
  function Bitwise(table: (bool, bool) -> bool, x: nat, y: nat, n: nat): (r: nat)
    ensures r < Pow2(n)
  {
    if n == 0 then 0
    else 2 * Bitwise(table, x / 2, y / 2, n - 1) + if table(x % 2 == 1, y % 2 == 1) then 1 else 0
  }

  const AND := (a: bool, b: bool) => a && b
  const XOR := (a: bool, b: bool) => a != b

  function And(x: byte, y: byte): byte {
    assert Pow2(8) == 256;
    Bitwise(AND, x, y, 8)
  }

  function Xor(x: byte, y: byte): byte {
    assert Pow2(8) == 256;
    Bitwise(XOR, x, y, 8)
  }

  lemma {:induction false} XorTwice(x: nat, y: nat, n: nat)
    requires x < Pow2(n)
    ensures Bitwise(XOR, Bitwise(XOR, x, y, n), y, n) == x
  {
    if n > 0 {
      XorTwice(x / 2, y / 2, n - 1);
    }
  }

  lemma XorUndone(x: byte, y: byte)
    ensures Xor(Xor(x, y), y) == x
  {
    assert Pow2(8) == 256;
    XorTwice(x, y, 8);
  }

  /** The n-bit number whose k leading bits are set. */
  function LeadingBits(k: nat, n: nat): (r: nat)
    requires k <= n
    ensures r < Pow2(n)
  {
    if n == 0 then 0
    else if k == n then 2 * LeadingBits(n - 1, n - 1) + 1
    else 2 * LeadingBits(k, n - 1)
  }

  /** Masking with the k leading bits clears the others. */
  lemma {:induction false} MaskDropsLow(x: nat, k: nat, n: nat)
    requires k <= n && x < Pow2(n)
    ensures Bitwise(AND, x, LeadingBits(k, n), n) == DropLow(x, n - k)
  {
    if n > 0 {
      var rest := if k == n then n - 1 else k;
      MaskDropsLow(x / 2, rest, n - 1);
      assert LeadingBits(k, n) / 2 == LeadingBits(rest, n - 1);
    }
  }

  lemma MaskedByte(x: byte, k: nat)
    requires k <= 8
    ensures LeadingBits(k, 8) < 256 && And(x, LeadingBits(k, 8)) == DropLow(x, 8 - k)
  {
    assert Pow2(8) == 256;
    MaskDropsLow(x, k, 8);
  }

  /** The k-th bit of a number, from the low end. */
  predicate Bit(x: nat, k: nat) {
    if k == 0 then x % 2 == 1 else Bit(x / 2, k - 1)
  }

  lemma {:induction false} BitOfBitwise(table: (bool, bool) -> bool, x: nat, y: nat, n: nat, k: nat)
    requires k < n
    ensures Bit(Bitwise(table, x, y, n), k) <==> table(Bit(x, k), Bit(y, k))
  {
    if k > 0 {
      BitOfBitwise(table, x / 2, y / 2, n - 1, k - 1);
    }
  }

  /** The two operations, bit by bit. */
  lemma BitsOfBytes(x: byte, y: byte, k: nat)
    requires k < 8
    ensures Bit(Xor(x, y), k) <==> Bit(x, k) != Bit(y, k)
    ensures Bit(And(x, y), k) <==> Bit(x, k) && Bit(y, k)
  {
    BitOfBitwise(XOR, x, y, 8, k);
    BitOfBitwise(AND, x, y, 8, k);
  }
}
