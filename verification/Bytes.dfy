/** Octets, optional values and big-endian numbers shared by the wire formats. */
module Bytes {

  newtype byte = x: int | 0 <= x < 0x100

  datatype Option<+T> = None | Some(value: T) {
    function GetOr(default: T): T {
      if Some? then value else default
    }
  }

  /** The octet holding v. */
  function U8(v: int): (b: byte)
    requires 0 <= v < 256
    ensures b as int == v
  {
    v as byte
  }

  /** 256^w */
  function Radix(w: nat): (r: nat)
    ensures r > 0
  {
    if w == 0 then 1 else 256 * Radix(w - 1)
  }

  /** The number whose big-endian digits are s. */
  function BE(s: seq<byte>): nat {
    if s == [] then 0 else BE(s[..|s| - 1]) * 256 + s[|s| - 1] as int
  }

  /** The w big-endian digits of v. */
  function ToBE(v: nat, w: nat): (s: seq<byte>)
    ensures |s| == w
  {
    if w == 0 then [] else ToBE(v / 256, w - 1) + [U8(v % 256)]
  }

  lemma {:induction false} BEInverse(v: nat, w: nat)
    requires v < Radix(w)
    ensures BE(ToBE(v, w)) == v
  {
    if w > 0 {
      BEInverse(v / 256, w - 1);
      assert ToBE(v, w)[..w - 1] == ToBE(v / 256, w - 1);
    }
  }

  lemma {:induction false} BEBound(s: seq<byte>)
    ensures BE(s) < Radix(|s|)
  {
    if s != [] {
      BEBound(s[..|s| - 1]);
    }
  }

  lemma {:induction false} ToBEInverse(s: seq<byte>)
    ensures BE(s) < Radix(|s|)
    ensures ToBE(BE(s), |s|) == s
  {
    BEBound(s);
    if s != [] {
      var last := s[|s| - 1];
      assert BE(s) % 256 == last as int && BE(s) / 256 == BE(s[..|s| - 1]);
      ToBEInverse(s[..|s| - 1]);
    }
  }

  lemma Scale(a: int, r: int)
    ensures a * r * 256 == a * (256 * r)
  {
  }

  /** The first digit weighs Radix of the number of digits after it. */
  lemma {:induction false} BEFirst(a: byte, t: seq<byte>)
    ensures BE([a] + t) == a as int * Radix(|t|) + BE(t)
  {
    if t == [] {
      assert [a] + t == [a] && [a][..0] == [];
    } else {
      var u := t[..|t| - 1];
      assert ([a] + t)[..|t|] == [a] + u;
      BEFirst(a, u);
      assert BE([a] + t) == BE([a] + u) * 256 + t[|t| - 1] as int;
      Scale(a as int, Radix(|u|));
    }
  }

  /** Leading zeros do not count. */
  lemma {:induction false} BEZeros(n: nat, s: seq<byte>)
    ensures BE(seq(n, _ => 0) + s) == BE(s)
  {
    if n == 0 {
      assert seq<byte>(0, _ => 0) + s == s;
    } else {
      var t := seq<byte>(n - 1, _ => 0) + s;
      assert seq(n, _ => 0) + s == [0] + t;
      BEFirst(0, t);
      BEZeros(n - 1, s);
    }
  }

  /** w digits are k digits padded with zeros iff k digits are enough. */
  lemma PaddedIff(v: nat, k: nat, w: nat)
    requires k <= w && v < Radix(w)
    ensures ToBE(v, w) == seq(w - k, _ => 0) + ToBE(v, k) <==> v < Radix(k)
  {
    var padded := seq(w - k, _ => 0) + ToBE(v, k);
    BEZeros(w - k, ToBE(v, k));
    if v < Radix(k) {
      BEInverse(v, k);
      ToBEInverse(padded);
    }
    if ToBE(v, w) == padded {
      BEInverse(v, w);
      BEBound(ToBE(v, k));
    }
  }

  /** binary.BigEndian.Uint16 */
  function U16(s: seq<byte>): (r: nat)
    requires |s| == 2
    ensures r < 0x10000
  {
    s[0] as int * 256 + s[1] as int
  }

  lemma U16IsBE(s: seq<byte>)
    requires |s| == 2
    ensures U16(s) == BE(s)
  {
    assert s[..1] == [s[0]];
    assert BE([]) == 0 && BE([s[0]][..0]) == 0;
    assert BE([s[0]]) == s[0] as int;
  }

  /** binary.BigEndian.PutUint16; the cast to uint16 keeps v modulo 2^16. */
  function PutU16(v: nat): (s: seq<byte>)
    ensures |s| == 2
    ensures U16(s) == v % 0x10000
  {
    [U8(v / 256 % 256), U8(v % 256)]
  }

  lemma PutU16Inverse(s: seq<byte>)
    requires |s| == 2
    ensures PutU16(U16(s)) == s
  {
    var v := U16(s);
    assert v / 256 == s[0] as int && v % 256 == s[1] as int;
  }

  lemma SliceSlice<T>(s: seq<T>, off: nat, a: nat, b: nat)
    requires a <= b && off + b <= |s|
    ensures s[off..][a..b] == s[off + a..off + b] && s[off..][b..] == s[off + b..]
  {
  }

  lemma DropAppend<T>(a: seq<T>, b: seq<T>)
    ensures (a + b)[|a|..] == b && (a + b)[..|a|] == a
  {
  }
}
