/** Bytes as the card-reader code handles them: JavaScript numbers between 0
    and 255, combined with the bitwise exclusive or `^`. */
module Bytes {

  /** One element of a `Uint8Array`. */
  type byte = x: int | 0 <= x < 256

  /** `2^k`. */
  function Pow2(k: nat): (p: nat)
    ensures p >= 1
  {
    if k == 0 then 1 else 2 * Pow2(k - 1)
  }

  /** JavaScript's `a ^ b` on non-negative operands, bit by bit from the
      least significant bit: the low bit is set iff exactly one operand has
      it set. */
  function Xor(a: nat, b: nat): nat
    decreases a + b
  {
    if a == 0 then b
    else if b == 0 then a
    else 2 * Xor(a / 2, b / 2) + (a + b) % 2
  }

  /** The low bit and the remaining bits of `a ^ b`. */
  lemma XorBits(a: nat, b: nat)
    ensures Xor(a, b) % 2 == (a + b) % 2
    ensures Xor(a, b) / 2 == Xor(a / 2, b / 2)
  {
  }

  /** A number is determined by its low bit and its remaining bits. */
  lemma SameBits(x: nat, y: nat)
    requires x % 2 == y % 2 && x / 2 == y / 2
    ensures x == y
  {
  }

  /** `^` of two numbers below `2^k` stays below `2^k`; in particular the
      exclusive or of two bytes is a byte. */
  lemma {:induction false} XorBelow(a: nat, b: nat, k: nat)
    requires a < Pow2(k) && b < Pow2(k)
    ensures Xor(a, b) < Pow2(k)
  {
    if a != 0 && b != 0 {
      XorBelow(a / 2, b / 2, k - 1);
    }
  }

  /** The exclusive or of two bytes, as a byte. */
  function XorByte(a: byte, b: byte): (r: byte)
    ensures r == Xor(a, b)
  {
    XorBelow(a, b, 8);
    Xor(a, b)
  }

  /** `^` is commutative. */
  lemma {:induction false} XorCommutes(a: nat, b: nat)
    ensures Xor(a, b) == Xor(b, a)
    decreases a + b
  {
    if a != 0 && b != 0 {
      XorCommutes(a / 2, b / 2);
    }
  }

  /** Parity of a sum depends only on the parities of its terms. */
  lemma ParityOfSum(x: nat, y: nat, c: nat)
    requires x % 2 == y % 2
    ensures (x + c) % 2 == (y + c) % 2
  {
  }

  /** `^` is associative. */
  lemma {:induction false} XorAssociates(a: nat, b: nat, c: nat)
    ensures Xor(Xor(a, b), c) == Xor(a, Xor(b, c))
    decreases a + b + c
  {
    if a + b + c != 0 {
      var ab, bc := Xor(a, b), Xor(b, c);
      XorAssociates(a / 2, b / 2, c / 2);
      XorBits(a, b);
      XorBits(b, c);
      XorBits(ab, c);
      XorBits(a, bc);
      // low bits: both are the parity of a + b + c
      ParityOfSum(ab, a + b, c);
      ParityOfSum(bc, b + c, a);
      assert Xor(ab, c) % 2 == (a + b + c) % 2;
      assert Xor(a, bc) % 2 == (a + b + c) % 2;
      // remaining bits: equal by the induction hypothesis
      assert Xor(ab, c) / 2 == Xor(Xor(a / 2, b / 2), c / 2);
      assert Xor(a, bc) / 2 == Xor(a / 2, Xor(b / 2, c / 2));
      SameBits(Xor(ab, c), Xor(a, bc));
    }
  }

  /** Every number cancels itself under `^`. */
  lemma {:induction false} XorSelf(a: nat)
    ensures Xor(a, a) == 0
  {
    if a != 0 {
      XorSelf(a / 2);
    }
  }
}
