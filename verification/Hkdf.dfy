/** Key derivation: RFC 5869 and section 7.1 of RFC 8446, over primitives that stay abstract. */
module Hkdf {
  import opened Bytes

  /** HMAC-SHA256, the AES block function and AES-128-GCM. */
  datatype Suite = Suite(
    hmac: (seq<byte>, seq<byte>) -> seq<byte>,
    block: (seq<byte>, seq<byte>) -> seq<byte>,
    seal: (seq<byte>, seq<byte>, seq<byte>, seq<byte>) -> seq<byte>,
    open: (seq<byte>, seq<byte>, seq<byte>, seq<byte>) -> Option<seq<byte>>)

  /** Output sizes, and: a ciphertext opens to a plaintext iff sealing that plaintext gives the ciphertext. */
  ghost predicate Laws(c: Suite) {
    && (forall key, text :: |c.hmac(key, text)| == 32)
    && (forall key, text :: |c.block(key, text)| == 16)
    && (forall key, nonce, text, aad :: |c.seal(key, nonce, text, aad)| == |text| + 16)
    && (forall key, nonce, text, aad :: c.open(key, nonce, c.seal(key, nonce, text, aad), aad) == Some(text))
    && (forall key, nonce, sealed, aad ::
          c.open(key, nonce, sealed, aad).Some? ==>
            sealed == c.seal(key, nonce, c.open(key, nonce, sealed, aad).value, aad))
  }

  const ZEROS16: seq<byte> := seq(16, _ => 0)

  function Clear(): Suite {
    Suite((_, _) => seq(32, _ => 0), (_, _) => ZEROS16, (_, _, text, _) => text + ZEROS16,
          (_, _, sealed, _) => if |sealed| >= 16 && sealed[|sealed| - 16..] == ZEROS16
                               then Some(sealed[..|sealed| - 16]) else None)
  }

  /** The laws contradict nothing: a suite that does not encrypt has them. */
  lemma LawsHaveModel()
    ensures Laws(Clear())
  {
    var c := Clear();
    forall key, nonce, text, aad
      ensures c.open(key, nonce, c.seal(key, nonce, text, aad), aad) == Some(text)
    {
      DropAppend<byte>(text, ZEROS16);
    }
    forall key, nonce, sealed, aad | c.open(key, nonce, sealed, aad).Some?
      ensures sealed == c.seal(key, nonce, c.open(key, nonce, sealed, aad).value, aad)
    {
      assert sealed == sealed[..|sealed| - 16] + sealed[|sealed| - 16..];
    }
  }

  // ----- HKDF-Expand --------------------------------------------------------

  /** T(i) of section 2.3 of RFC 5869; the counter is one octet. */
  function T(c: Suite, prk: seq<byte>, info: seq<byte>, i: nat): seq<byte> {
    if i == 0 then [] else c.hmac(prk, T(c, prk, info, i - 1) + info + [U8(i % 0x100)])
  }

  /** T(1) | ... | T(n) */
  function Ts(c: Suite, prk: seq<byte>, info: seq<byte>, n: nat): seq<byte> {
    if n == 0 then [] else Ts(c, prk, info, n - 1) + T(c, prk, info, n)
  }

  lemma {:induction false} TsLength(c: Suite, prk: seq<byte>, info: seq<byte>, n: nat)
    requires Laws(c)
    ensures |Ts(c, prk, info, n)| == 32 * n
  {
    if n > 0 {
      TsLength(c, prk, info, n - 1);
    }
  }

  /** The first length octets of T(1) | T(2) | ... */
  function Expand(c: Suite, prk: seq<byte>, info: seq<byte>, length: nat): (okm: seq<byte>)
    requires Laws(c)
    ensures |okm| == length
  {
    TsLength(c, prk, info, (length + 31) / 32);
    Ts(c, prk, info, (length + 31) / 32)[..length]
  }

  method HkdfExpand(c: Suite, prk: seq<byte>, info: seq<byte>, length: nat) returns (okm: seq<byte>)
    requires Laws(c)
    ensures okm == Expand(c, prk, info, length)
  {
    okm := [];
    var prev: seq<byte> := [];
    var n := (length + 32 - 1) / 32;
    for i := 1 to n + 1
      invariant prev == T(c, prk, info, i - 1)
      invariant okm == Ts(c, prk, info, i - 1)
    {
      prev := c.hmac(prk, prev + info + [U8(i % 0x100)]);
      okm := okm + prev;
    }
    TsLength(c, prk, info, n);
    okm := okm[..length];
  }

  lemma {:induction false} TsBlock(c: Suite, prk: seq<byte>, info: seq<byte>, n: nat, i: nat)
    requires Laws(c) && 1 <= i <= n
    ensures |Ts(c, prk, info, n)| == 32 * n && Ts(c, prk, info, n)[32 * i - 32..32 * i] == T(c, prk, info, i)
  {
    TsLength(c, prk, info, n);
    TsLength(c, prk, info, n - 1);
    if i < n {
      TsBlock(c, prk, info, n - 1, i);
    }
  }

  /** Every block of 32 octets, the last one perhaps cut short, is the HMAC of the block before it, the info and a
      counter that starts with 1. */
  lemma BlocksChain(c: Suite, prk: seq<byte>, info: seq<byte>, length: nat, i: nat)
    requires Laws(c) && 32 * i < length
    ensures var okm := Expand(c, prk, info, length);
            var end := if 32 * i + 32 <= length then 32 * i + 32 else length;
            var before := if i == 0 then [] else okm[32 * i - 32..32 * i];
            okm[32 * i..end] == c.hmac(prk, before + info + [U8((i + 1) % 0x100)])[..end - 32 * i]
  {
    var n := (length + 31) / 32;
    TsBlock(c, prk, info, n, i + 1);
    if i > 0 {
      TsBlock(c, prk, info, n, i);
    }
    var all, okm := Ts(c, prk, info, n), Expand(c, prk, info, length);
    hide Ts, Expand, Laws;
    assert forall j :: 0 <= j < length ==> okm[j] == all[j];
    assert i > 0 ==> okm[32 * i - 32..32 * i] == all[32 * i - 32..32 * i];
    var end := if 32 * i + 32 <= length then 32 * i + 32 else length;
    assert okm[32 * i..end] == all[32 * i..32 * i + 32][..end - 32 * i];
  }

  /** Blocks further out do not change the octets in front: asking for more only appends. */
  lemma {:induction false} ExpandPrefix(c: Suite, prk: seq<byte>, info: seq<byte>, m: nat, n: nat)
    requires Laws(c) && m <= n
    ensures Expand(c, prk, info, m) == Expand(c, prk, info, n)[..m]
  {
    var a, b := (m + 31) / 32, (n + 31) / 32;
    TsPrefix(c, prk, info, a, b);
    TsLength(c, prk, info, a);
    TsLength(c, prk, info, b);
  }

  lemma {:induction false} TsPrefix(c: Suite, prk: seq<byte>, info: seq<byte>, a: nat, b: nat)
    requires Laws(c) && a <= b
    ensures Ts(c, prk, info, a) <= Ts(c, prk, info, b)
  {
    if a < b {
      TsPrefix(c, prk, info, a, b - 1);
    }
  }

  // ----- HKDF-Expand-Label ---------------------------------------------------

  /** The octets of an ASCII string. */
  function Ascii(s: string): seq<byte>
    requires forall ch <- s :: ch < 128 as char
  {
    seq(|s|, i requires 0 <= i < |s| => assert s[i] in s; U8(s[i] as int))
  }

  /** struct HkdfLabel: uint16 length, then "tls13 " + name and context behind one-octet lengths. Lengths
      that do not fit their field are cut by the casts to byte. */
  function HkdfLabel(name: seq<byte>, context: seq<byte>, length: nat): seq<byte> {
    var full := Ascii("tls13 ") + name;
    PutU16(length) + [U8(|full| % 0x100)] + full + [U8(|context| % 0x100)] + context
  }

  method HkdfExpandLabel(c: Suite, secret: seq<byte>, name: seq<byte>, context: seq<byte>, length: nat)
    returns (okm: seq<byte>)
    requires Laws(c)
    ensures okm == Expand(c, secret, HkdfLabel(name, context, length), length)
  {
    var qlabel := Ascii("tls13 ") + name;
    var lbl := [U8(length / 0x100 % 0x100), U8(length % 0x100)];
    lbl := lbl + [U8(|qlabel| % 0x100)];
    lbl := lbl + qlabel;
    lbl := lbl + [U8(|context| % 0x100)];
    lbl := lbl + context;
    okm := HkdfExpand(c, secret, lbl, length);
  }

  /** Different names or contexts that fit their fields give different HkdfLabel structures. */
  lemma LabelInjective(n1: seq<byte>, c1: seq<byte>, n2: seq<byte>, c2: seq<byte>, length: nat)
    requires |n1| < 250 && |n2| < 250 && |c1| < 0x100 && |c2| < 0x100
    requires HkdfLabel(n1, c1, length) == HkdfLabel(n2, c2, length)
    ensures n1 == n2 && c1 == c2
  {
    var x, y := HkdfLabel(n1, c1, length), HkdfLabel(n2, c2, length);
    assert x[2] as int == 6 + |n1| && y[2] as int == 6 + |n2|;
    assert x[9..9 + |n1|] == n1 && y[9..9 + |n2|] == n2;
    assert x[10 + |n1|..] == c1 && y[10 + |n2|..] == c2;
  }
}
