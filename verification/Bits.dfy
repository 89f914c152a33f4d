/** Facts about bit-vectors that the solver settles by themselves, away from everything else. */
module Bits {
  function Val(w: bv32): nat { w as int }

  function Val8(b: bv8): nat { b as int }

  function Next8(b: bv8): bv8 { b + 1 }

  lemma NextByte(b: bv8)
    requires b != 0xFF
    ensures Val8(Next8(b)) == Val8(b) + 1
  {}

  lemma Limits()
    ensures Val8(0) == 0 && Val8(0xFF) == 255
  {}

  /** The byte of a value, by counting up to it: the solver does not convert integers to bit-vectors. */
  function Byte(n: nat): bv8
    requires n < 256
  {
    if n == 0 then 0 else Next8(Byte(n - 1))
  }

  lemma {:induction false} ByteBack(n: nat)
    requires n < 256
    ensures Val8(Byte(n)) == n
  {
    hide Val8, Next8;
    Limits();
    if n == 0 {
    } else {
      ByteBack(n - 1);
      NextByte(Byte(n - 1));
    }
  }

  lemma ByteOne()
    ensures Byte(0) == 0 && Byte(1) == 1
  {
    assert Byte(1) == Next8(Byte(0));
  }

  /** Addition, which for words is modulo 2^32, and exclusive-or. */
  function Plus(a: bv32, b: bv32): bv32 { a + b }

  function Flipped(a: bv32, b: bv32): bv32 { a ^ b }

  /** A bit, given by a power of two. */
  predicate Bit(w: bv32, bit: bv32) { w & bit != 0 }

  predicate Bit8(b: bv8, bit: bv8) { b & bit != 0 }

  /** Four bytes side by side make a word whose digits they are. */
  lemma Packed(a: bv8, b: bv8, c: bv8, d: bv8)
    ensures Val(((a as bv32) << 24) | ((b as bv32) << 16) | ((c as bv32) << 8) | (d as bv32))
            == Val8(a) * 0x100_0000 + Val8(b) * 0x1_0000 + Val8(c) * 0x100 + Val8(d)
  {}

  /** A bit of an exclusive-or. */
  lemma Flip(a: bv32, b: bv32, bit: bv32)
    requires bit & (bit - 1) == 0
    ensures Bit(a ^ b, bit) <==> Bit(a, bit) != Bit(b, bit)
  {}

  lemma FlipByte(a: bv8, b: bv8, bit: bv8)
    requires bit & (bit - 1) == 0
    ensures Bit8(a ^ b, bit) <==> Bit8(a, bit) != Bit8(b, bit)
  {}

  lemma PlusIs(a: bv32, b: bv32)
    ensures Plus(a, b) == a + b && Plus(a, 0) == a && Flipped(a, 0) == a
  {}

  lemma Zeros(w: bv32, b: bv8)
    ensures 0 ^ w == w && (0 as bv8) ^ b == b
  {}
}
