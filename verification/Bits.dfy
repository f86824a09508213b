/** Exclusive or and masking of octets. */
module Bits {
  import opened Bytes

  function ToBits(a: byte): bv8 {
    a as bv8
  }

  function FromBits(b: bv8): byte {
    b as byte
  }

  /** The bit vector that counts to n. */
  lemma {:induction false} Count(n: nat) returns (b: bv8)
    requires n < 256
    ensures b as int == n
  {
    if n == 0 {
      b := 0;
    } else {
      var c := Count(n - 1);
      b := c + 1;
    }
  }

  lemma BitsInverse(b: bv8)
    ensures ToBits(FromBits(b)) == b
  {
  }

  lemma OctetInverse(a: byte)
    ensures FromBits(ToBits(a)) == a
  {
    hide ToBits;
    var b := Count(a as nat);
    BitsInverse(b);
    assert FromBits(b) == a;
  }

  function Xor(a: byte, b: byte): byte {
    FromBits(ToBits(a) ^ ToBits(b))
  }

  function And(a: byte, b: byte): byte {
    FromBits(ToBits(a) & ToBits(b))
  }

  lemma XorTwice(a: byte, b: byte)
    ensures Xor(Xor(a, b), b) == a
  {
    OctetInverse(a);
    BitsInverse(ToBits(a) ^ ToBits(b));
    hide ToBits, FromBits;
    assert (ToBits(a) ^ ToBits(b)) ^ ToBits(b) == ToBits(a);
  }

  lemma XorCommutes(a: byte, b: byte)
    ensures Xor(a, b) == Xor(b, a)
  {
    hide ToBits, FromBits;
    assert ToBits(a) ^ ToBits(b) == ToBits(b) ^ ToBits(a);
  }

  lemma XorZero(a: byte)
    ensures Xor(a, 0) == a
  {
    Constants();
    OctetInverse(a);
    hide ToBits, FromBits;
    assert ToBits(a) ^ 0 == ToBits(a);
  }

  lemma XorCancels(a: byte, b: byte, c: byte)
    requires Xor(a, b) == Xor(a, c)
    ensures b == c
  {
    hide Xor;
    XorCommutes(a, b);
    XorCommutes(a, c);
    XorTwice(b, a);
    XorTwice(c, a);
  }

  lemma Constants()
    ensures ToBits(0x0f) == 0x0f && ToBits(0x1f) == 0x1f && ToBits(0x10) == 0x10 && ToBits(0) == 0
  {
  }

  lemma BitFacts(x: bv8, y: bv8)
    ensures (x ^ (y & 0x0f)) ^ (y & 0x1f) == x ^ (y & 0x10)
    ensures (x ^ (y & 0x10)) & 3 == x & 3
    ensures (x ^ (y & 0x0f)) >> 4 == x >> 4
    ensures x ^ (y & 0x10) == x <==> y & 0x10 == 0
  {
  }

  lemma LowHigh(b: bv8)
    ensures FromBits(b) as int % 4 == (b & 3) as int
    ensures FromBits(b) as int / 16 == (b >> 4) as int
  {
  }

  /** A mask of m & 0x0f taken off with m & 0x1f leaves the bit of value 0x10 flipped when m has it. */
  lemma Mask5AfterMask4(f: byte, m: byte)
    ensures Xor(Xor(f, And(m, 0x0f)), And(m, 0x1f)) == Xor(f, And(m, 0x10))
  {
    hide ToBits, FromBits;
    var x, y := ToBits(f), ToBits(m);
    Constants();
    BitsInverse(y & 0x0f);
    BitsInverse(y & 0x1f);
    BitsInverse(y & 0x10);
    BitsInverse(x ^ (y & 0x0f));
    BitFacts(x, y);
  }

  /** The flip leaves the two low bits. */
  lemma FlipKeepsLow(f: byte, m: byte)
    ensures Xor(f, And(m, 0x10)) as int % 4 == f as int % 4
  {
    hide ToBits, FromBits;
    var x, y := ToBits(f), ToBits(m);
    Constants();
    OctetInverse(f);
    BitsInverse(y & 0x10);
    BitFacts(x, y);
    LowHigh(x);
    LowHigh(x ^ (y & 0x10));
  }

  /** The flip changes nothing iff the mask lacks the bit. */
  lemma FlipIff(f: byte, m: byte)
    ensures Xor(f, And(m, 0x10)) == f <==> And(m, 0x10) == 0
  {
    hide ToBits, FromBits;
    var x, y := ToBits(f), ToBits(m);
    Constants();
    OctetInverse(f);
    BitsInverse(y & 0x10);
    BitsInverse(x ^ (y & 0x10));
    OctetInverse(0);
    BitFacts(x, y);
  }

  /** A mask of four bits leaves the upper half. */
  lemma MaskKeepsHigh(f: byte, m: byte)
    ensures Xor(f, And(m, 0x0f)) as int / 16 == f as int / 16
  {
    hide ToBits, FromBits;
    var x, y := ToBits(f), ToBits(m);
    Constants();
    OctetInverse(f);
    BitsInverse(y & 0x0f);
    BitFacts(x, y);
    LowHigh(x);
    LowHigh(x ^ (y & 0x0f));
  }
}
