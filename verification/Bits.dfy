/** Powers of two and single bits, shared by the models that work on machine words. */
module Bits {

  // Machine words.
  type Byte = x: nat | x < 0x100
  type U32 = x: nat | x < 0x1_0000_0000

  function Wrap(x: int): U32 { x % 0x1_0000_0000 }

  function Plus(x: U32, n: int): U32 { Wrap(x + n) }

  function Pow2(n: nat): (p: nat)
    ensures p > 0
  {
    if n == 0 then 1 else 2 * Pow2(n - 1)
  }

  lemma Pow2Split(a: nat, b: nat)
    ensures Pow2(a + b) == Pow2(a) * Pow2(b)
  {
    if a > 0 {
      Pow2Split(a - 1, b);
    }
  }

  lemma {:induction false} Pow2Grows(a: nat, b: nat)
    requires a <= b
    ensures Pow2(a) <= Pow2(b)
  {
    if a < b {
      Pow2Grows(a, b - 1);
    }
  }

  // Byte i of a number, lowest first.
  function ByteOf(n: nat, i: nat): Byte { if i == 0 then n % 0x100 else ByteOf(n / 0x100, i - 1) }

  // Bitwise operations on the n low bits.
  function XorBits(a: nat, b: nat, n: nat): (x: nat)
    ensures x < Pow2(n)
  {
    if n == 0 then 0 else (a % 2 + b % 2) % 2 + 2 * XorBits(a / 2, b / 2, n - 1)
  }

  function AndBits(a: nat, b: nat, n: nat): (x: nat)
    ensures x < Pow2(n)
  {
    if n == 0 then 0 else (a % 2) * (b % 2) + 2 * AndBits(a / 2, b / 2, n - 1)
  }

  function OrBits(a: nat, b: nat, n: nat): (x: nat)
    ensures x < Pow2(n)
  {
    if n == 0 then 0 else (if a % 2 + b % 2 > 0 then 1 else 0) + 2 * OrBits(a / 2, b / 2, n - 1)
  }

  lemma {:induction false} XorBitsTwice(a: nat, b: nat, n: nat)
    requires a < Pow2(n)
    ensures XorBits(XorBits(a, b, n), b, n) == a
  {
    if n > 0 {
      XorBitsTwice(a / 2, b / 2, n - 1);
      LowBit((a % 2 + b % 2) % 2, XorBits(a / 2, b / 2, n - 1));
      OneBitTwice(a % 2, b % 2);
    }
  }

  lemma LowBit(bit: nat, rest: nat)
    requires bit < 2
    ensures (bit + 2 * rest) % 2 == bit && (bit + 2 * rest) / 2 == rest
  {
  }

  lemma OneBitTwice(p: nat, q: nat)
    requires p < 2 && q < 2
    ensures ((p + q) % 2 + q) % 2 == p
  {
  }

  function XorByte(a: Byte, b: Byte): Byte {
    WordSizes();
    XorBits(a, b, 8)
  }

  lemma WordSizes()
    ensures Pow2(8) == 0x100 && Pow2(16) == 0x1_0000 && Pow2(32) == 0x1_0000_0000
  {
    assert Pow2(4) == 16;
    Pow2Split(4, 4);
    Pow2Split(8, 8);
    Pow2Split(16, 16);
  }

  // Bit n of a word.
  predicate Bit(w: nat, n: nat) {
    if n == 0 then w % 2 == 1 else Bit(w / 2, n - 1)
  }

  // -------- quotients --------

  lemma Quotient(a: nat, d: nat, q: nat, r: nat)
    requires d > 0 && a == q * d + r && r < d
    ensures a / d == q && a % d == r
  {
    MulKeepsOrder(a / d + 1, q, d);
    MulKeepsOrder(q + 1, a / d, d);
  }

  lemma MulKeepsOrder(a: nat, b: nat, m: nat)
    ensures a <= b ==> a * m <= b * m
  {
  }
}
