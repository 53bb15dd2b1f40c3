/** Exclusive or of bytes. */
module Xors {
  import opened Bytes

  /** Bitwise exclusive or of the n low bits. */
  function XorBits(n: nat, a: nat, b: nat): nat {
    if n == 0 then 0 else 2 * XorBits(n - 1, a / 2, b / 2) + (a + b) % 2
  }

  function Pow2(n: nat): nat { if n == 0 then 1 else 2 * Pow2(n - 1) }

  lemma {:induction false} XorRange(n: nat, a: nat, b: nat)
    ensures XorBits(n, a, b) < Pow2(n)
  {
    if n > 0 { XorRange(n - 1, a / 2, b / 2); }
  }

  /** One bit and the rest, on the left and on the right. */
  lemma XorParts(n: nat, x: nat, c: nat, half: nat, bits: nat)
    requires n > 0 && x / 2 == half && x % 2 == bits % 2
    ensures XorBits(n, x, c) == 2 * XorBits(n - 1, half, c / 2) + (bits + c) % 2
    ensures XorBits(n, c, x) == 2 * XorBits(n - 1, c / 2, half) + (bits + c) % 2
  {
    SameParity(x, bits, c);
  }

  lemma SameParity(x: nat, s: nat, c: nat)
    requires x % 2 == s % 2
    ensures (x + c) % 2 == (s + c) % 2
  {
    assert x == 2 * (x / 2) + x % 2 && s == 2 * (s / 2) + s % 2;
  }

  lemma XorLeft(n: nat, a: nat, b: nat, c: nat)
    requires n > 0
    ensures XorBits(n, XorBits(n, a, b), c) == 2 * XorBits(n - 1, XorBits(n - 1, a / 2, b / 2), c / 2) + (a + b + c) % 2
  {
    XorHalf(n, a, b);
    XorParts(n, XorBits(n, a, b), c, XorBits(n - 1, a / 2, b / 2), a + b);
  }

  lemma XorRight(n: nat, a: nat, b: nat, c: nat)
    requires n > 0
    ensures XorBits(n, a, XorBits(n, b, c)) == 2 * XorBits(n - 1, a / 2, XorBits(n - 1, b / 2, c / 2)) + (a + b + c) % 2
  {
    XorHalf(n, b, c);
    XorParts(n, XorBits(n, b, c), a, XorBits(n - 1, b / 2, c / 2), b + c);
  }

  lemma {:induction false} XorAssoc(n: nat, a: nat, b: nat, c: nat)
    ensures XorBits(n, XorBits(n, a, b), c) == XorBits(n, a, XorBits(n, b, c))
  {
    if n > 0 {
      XorAssoc(n - 1, a / 2, b / 2, c / 2);
      XorLeft(n, a, b, c);
      XorRight(n, a, b, c);
    }
  }

  lemma XorHalf(n: nat, a: nat, b: nat)
    requires n > 0
    ensures XorBits(n, a, b) / 2 == XorBits(n - 1, a / 2, b / 2)
    ensures XorBits(n, a, b) % 2 == (a + b) % 2
    ensures XorBits(n, a, b) == 2 * (XorBits(n, a, b) / 2) + XorBits(n, a, b) % 2
  {}

  lemma {:induction false} XorLaws(n: nat, a: nat, b: nat)
    requires a < Pow2(n)
    ensures XorBits(n, a, b) == XorBits(n, b, a)
    ensures XorBits(n, a, a) == 0
    ensures XorBits(n, a, 0) == a
  {
    if n > 0 { XorLaws(n - 1, a / 2, b / 2); }
  }

  function Xor(a: Byte, b: Byte): Byte {
    XorRange(8, a, b);
    PowByte();
    XorBits(8, a, b)
  }

  lemma PowByte()
    ensures Pow2(8) == 256
  {
    assert Pow2(4) == 16 by { assert Pow2(2) == 4; }
    assert Pow2(6) == 64;
  }

  lemma XorGroup(a: Byte, b: Byte, c: Byte)
    ensures Xor(Xor(a, b), c) == Xor(a, Xor(b, c))
    ensures Xor(a, b) == Xor(b, a)
    ensures Xor(a, a) == 0
    ensures Xor(a, 0) == a
  {
    PowByte();
    XorAssoc(8, a, b, c);
    XorLaws(8, a, b);
  }

  lemma Unfold(n: nat, a: nat, b: nat)
    requires n > 0
    ensures XorBits(n, a, b) == 2 * XorBits(n - 1, a / 2, b / 2) + (a + b) % 2
  {}
}
