/** Bytes and their bits. */
module Bytes {
  const U32_MAX: nat := 0x1_0000_0000

  type byte = b: nat | b < 256

  function Pow2(k: nat): (p: nat)
    ensures p > 0
  {
    if k == 0 then 1 else 2 * Pow2(k - 1)
  }

  lemma {:induction false} Pow2Add(a: nat, b: nat)
    ensures Pow2(a + b) == Pow2(a) * Pow2(b)
  {
    if a > 0 {
      Pow2Add(a - 1, b);
    }
  }

  lemma Pow2Values()
    ensures Pow2(0) == 1 && Pow2(1) == 2 && Pow2(2) == 4 && Pow2(3) == 8 && Pow2(4) == 16
    ensures Pow2(5) == 32 && Pow2(6) == 64 && Pow2(7) == 128 && Pow2(8) == 256
    ensures Pow2(16) == 0x1_0000 && Pow2(24) == 0x100_0000 && Pow2(31) == 0x8000_0000 && Pow2(32) == U32_MAX
  {
    assert Pow2(4) == 16;
    assert Pow2(8) == 256;
    Pow2Add(8, 8);
    Pow2Add(16, 8);
    Pow2Add(24, 7);
  }

  /** Bit i of a number, counted from the low end. */
  function BitOf(b: nat, i: nat): nat {
    b / Pow2(i) % 2
  }

  /** What the low i bits of a byte spell. */
  function LowBits(b: nat, i: nat): nat {
    if i == 0 then 0 else BitOf(b, i - 1) * Pow2(i - 1) + LowBits(b, i - 1)
  }

  lemma AllBits(b: nat)
    requires b < 256
    ensures LowBits(b, 8) == b
  {
    hide Pow2, BitOf;
    Pow2Values();
    EachBit(b);
    ByteSpelled(b);
    assert LowBits(b, 1) == BitOf(b, 0) * Pow2(0);
    assert LowBits(b, 2) == BitOf(b, 0) + BitOf(b, 1) * 2;
    assert LowBits(b, 4) == LowBits(b, 2) + BitOf(b, 2) * 4 + BitOf(b, 3) * 8;
    assert LowBits(b, 6) == LowBits(b, 4) + BitOf(b, 4) * 16 + BitOf(b, 5) * 32;
  }

  lemma EachBit(b: nat)
    ensures BitOf(b, 0) == b % 2 && BitOf(b, 1) == b / 2 % 2 && BitOf(b, 2) == b / 4 % 2 && BitOf(b, 3) == b / 8 % 2
    ensures BitOf(b, 4) == b / 16 % 2 && BitOf(b, 5) == b / 32 % 2 && BitOf(b, 6) == b / 64 % 2
    ensures BitOf(b, 7) == b / 128 % 2
  {
    Pow2Values();
  }

  lemma ByteSpelled(b: nat)
    requires b < 256
    ensures b == b % 2 + b / 2 % 2 * 2 + b / 4 % 2 * 4 + b / 8 % 2 * 8 + b / 16 % 2 * 16
                 + b / 32 % 2 * 32 + b / 64 % 2 * 64 + b / 128 % 2 * 128
  {
    Halve(b, 2, b / 2);
    Halve(b, 4, b / 4);
    Halve(b, 8, b / 8);
    Halve(b, 16, b / 16);
    Halve(b, 32, b / 32);
    Halve(b, 64, b / 64);
    Halve(b, 1, b);
    assert b / 128 == 0 || b / 128 == 1;
  }

  lemma Halve(b: nat, d: nat, q: nat)
    requires d == 1 || d == 2 || d == 4 || d == 8 || d == 16 || d == 32 || d == 64
    requires q == b / d
    ensures q == 2 * (b / (2 * d)) + q % 2
  {
  }

  /** A byte is determined by its eight bits. */
  lemma SameBits(b: nat, c: nat)
    requires b < 256 && c < 256 && forall i :: 0 <= i < 8 ==> BitOf(b, i) == BitOf(c, i)
    ensures b == c
  {
    AllBits(b);
    AllBits(c);
    SameLowBits(b, c, 8);
  }

  lemma {:induction false} SameLowBits(b: nat, c: nat, n: nat)
    requires forall i :: 0 <= i < n ==> BitOf(b, i) == BitOf(c, i)
    ensures LowBits(b, n) == LowBits(c, n)
  {
    hide BitOf;
    if n > 0 {
      SameLowBits(b, c, n - 1);
    }
  }
}
