/** Variable-length integers, section 16 of RFC 9000. */
module Varint {
  import opened Bytes

  const LIMIT: nat := 0x4000_0000_0000_0000

  /** Value and width of the varint at the head of buf; width 0 when buf is too short. */
  function ReadVarint(buf: seq<byte>): (r: (nat, nat))
    ensures r.1 in {0, 1, 2, 4, 8} && r.1 <= |buf|
    ensures r.1 == 0 <==> buf == [] || |buf| < Width(buf[0])
    ensures r.1 != 0 ==> r.1 == Width(buf[0])
    ensures r.0 < LIMIT
  {
    if |buf| == 0 then (0, 0)
    else
      var first := buf[0];
      var length := Width(first);
      if |buf| < length then (0, 0)
      else if length == 1 then (Low(first), 1)
      else if length == 2 then (Low(first) * 0x100 + buf[1] as int, 2)
      else if length == 4 then
        (Low(first) * 0x100_0000 + buf[1] as int * 0x1_0000 + buf[2] as int * 0x100 + buf[3] as int, 4)
      else
        (BE(buf[..8]) % LIMIT, 8)
  }

  /** 1 << (first >> 6) */
  function Width(first: byte): (w: nat)
    ensures w in {1, 2, 4, 8}
  {
    match first as int / 0x40
    case 0 => 1
    case 1 => 2
    case 2 => 4
    case _ => 8
  }

  /** first & 0x3f */
  function Low(first: byte): (v: nat)
    ensures v < 0x40
  {
    first as int % 0x40
  }

  /** The bits that announce width w. */
  function Prefix(w: nat): (p: nat)
    requires w in {1, 2, 4, 8}
  {
    if w == 1 then 0x00 else if w == 2 then 0x40 else if w == 4 then 0x80 else 0xc0
  }

  /** A quarter of the w-digit range: what the six low bits of the first octet leave. */
  ghost predicate Fits(v: nat, w: nat) {
    w in {1, 2, 4, 8} && 4 * v < Radix(w)
  }

  /** Section 16 of RFC 9000: v in w octets, the width in the two top bits. */
  function EncodeVarint(v: nat, w: nat): (s: seq<byte>)
    requires w in {1, 2, 4, 8}
    ensures |s| == w
  {
    Announce(ToBE(v, w))
  }

  /** Digits with their number announced in the two top bits. */
  function Announce(digits: seq<byte>): (s: seq<byte>)
    requires |digits| in {1, 2, 4, 8}
    ensures |s| == |digits| && s[1..] == digits[1..]
  {
    [U8(digits[0] as int % 0x40 + Prefix(|digits|))] + digits[1..]
  }

  lemma Radixes()
    ensures Radix(1) == 0x100 && Radix(2) == 0x1_0000 && Radix(3) == 0x100_0000
    ensures Radix(4) == 0x1_0000_0000 && Radix(7) == 0x100_0000_0000_0000 && Radix(8) == 4 * LIMIT
  {
    assert Radix(3) == 256 * Radix(2);
    assert Radix(5) == 256 * Radix(4);
    assert Radix(7) == 256 * Radix(6);
  }

  /** The value read is the number spelt by the octets once the width bits are cleared. */
  lemma ReadIsBE(buf: seq<byte>)
    requires ReadVarint(buf).1 != 0
    ensures ReadVarint(buf).0 == BE([U8(Low(buf[0]))] + buf[1..ReadVarint(buf).1])
  {
    var n := ReadVarint(buf).1;
    var top := U8(Low(buf[0]));
    var t := buf[1..n];
    Radixes();
    BEFirst(top, t);
    if n == 2 {
      assert t[..0] == [];
    } else if n == 4 {
      U16IsBE(t[..2]);
    } else if n == 8 {
      assert buf[..8] == [buf[0]] + t;
      BEFirst(buf[0], t);
      BEBound(t);
      var q := buf[0] as int / 64;
      assert BE(buf[..8]) == q * LIMIT + (top as int * Radix(7) + BE(t));
    }
  }

  lemma MulLe(a: nat, b: nat, r: nat)
    requires a <= b
    ensures a * r <= b * r
  {
  }

  lemma TopValue(d: nat, low: nat, r: nat)
    requires d < 64 && low < r
    ensures 4 * (d * r + low) < 256 * r
  {
    MulLe(d, 63, r);
  }

  /** A value that fits leaves the two top bits of its first digit clear. */
  lemma TopDigit(v: nat, w: nat)
    requires Fits(v, w)
    ensures BE(ToBE(v, w)) == v && ToBE(v, w)[0] < 0x40
  {
    var digits := ToBE(v, w);
    BEInverse(v, w);
    assert digits == [digits[0]] + digits[1..];
    BEFirst(digits[0], digits[1..]);
    if digits[0] as int >= 64 {
      MulLe(64, digits[0] as int, Radix(w - 1));
      assert false;
    }
  }

  lemma WidthDigit(d: byte, w: nat)
    requires d < 0x40 && w in {1, 2, 4, 8}
    ensures var b := U8(d as int % 0x40 + Prefix(w)); Width(b) == w && Low(b) == d as int
  {
  }

  /** Every encoding of every value below 2^62 is read back, whatever follows it. */
  lemma ReadInverse(v: nat, w: nat, rest: seq<byte>)
    requires Fits(v, w)
    ensures ReadVarint(EncodeVarint(v, w) + rest) == (v, w)
  {
    var digits := ToBE(v, w);
    var s := EncodeVarint(v, w) + rest;
    TopDigit(v, w);
    WidthDigit(digits[0], w);
    ReadIsBE(s);
    assert [U8(Low(s[0]))] + s[1..w] == digits;
  }

  /** Digits whose first is below 64 spell a value that fits. */
  lemma SmallTopFits(digits: seq<byte>)
    requires |digits| in {1, 2, 4, 8} && digits[0] < 0x40
    ensures Fits(BE(digits), |digits|)
  {
    var t := digits[1..];
    assert digits == [digits[0]] + t;
    BEFirst(digits[0], t);
    BEBound(t);
    TopValue(digits[0] as int, BE(t), Radix(|t|));
  }

  lemma WidthBits(b: byte)
    ensures Low(b) + Prefix(Width(b)) == b as int
  {
  }

  /** A buffer that reads as (v, n) starts with an encoding of v in n octets. */
  lemma EncodeInverse(buf: seq<byte>)
    requires ReadVarint(buf).1 != 0
    ensures var (v, n) := ReadVarint(buf); Fits(v, n) && buf[..n] == EncodeVarint(v, n)
  {
    var n := ReadVarint(buf).1;
    var digits := [U8(Low(buf[0]))] + buf[1..n];
    ReadIsBE(buf);
    SmallTopFits(digits);
    ToBEInverse(digits);
    assert buf[..n] == Announce(digits) by {
      assert digits[1..] == buf[1..n];
      WidthBits(buf[0]);
    }
  }
}
