/** Initial packets as a client lays them out and protects them (section 17.2.2 of RFC 9000, sections 5.3 and
    5.4 of RFC 9001), and what extractSNI makes of them. */
module Sealed {
  import opened Bytes
  import opened Bits
  import opened Varint
  import opened Hkdf
  import opened Frames
  import opened FrameWriter
  import opened Initial

  /** `number` is the full packet number, of which pnLen octets are sent. */
  datatype Packet = Packet(first: byte, dcid: seq<byte>, scid: seq<byte>, tokenWidth: nat, token: seq<byte>,
                           lengthWidth: nat, number: nat, plaintext: seq<byte>)

  /** The salt of section 5.2 of RFC 9001, and HKDF-Expand of the labels "client in", "quic key", "quic iv" and
      "quic hp" written out, octet by octet as in appendix A.1. */
  function SentKeys(c: Suite, dcid: seq<byte>): (k: Keys)
    requires Laws(c)
    ensures |k.key| == 16 && |k.iv| == 12 && |k.hp| == 16
  {
    var initial := c.hmac([0x38, 0x76, 0x2c, 0xf7, 0xf5, 0x59, 0x34, 0xb3, 0x4d, 0x17,
                           0x9a, 0xe6, 0xa4, 0xc8, 0x0c, 0xad, 0xcc, 0xbb, 0x7f, 0x0a], dcid);
    var secret := c.hmac(initial, [0x00, 0x20, 0x0f, 0x74, 0x6c, 0x73, 0x31, 0x33, 0x20, 0x63, 0x6c, 0x69, 0x65, 0x6e,
                                   0x74, 0x20, 0x69, 0x6e, 0x00, 0x01]);
    Keys(c.hmac(secret, [0x00, 0x10, 0x0e, 0x74, 0x6c, 0x73, 0x31, 0x33, 0x20, 0x71, 0x75, 0x69, 0x63, 0x20, 0x6b,
                         0x65, 0x79, 0x00, 0x01])[..16],
         c.hmac(secret, [0x00, 0x0c, 0x0d, 0x74, 0x6c, 0x73, 0x31, 0x33, 0x20, 0x71, 0x75, 0x69, 0x63, 0x20, 0x69,
                         0x76, 0x00, 0x01])[..12],
         c.hmac(secret, [0x00, 0x10, 0x0d, 0x74, 0x6c, 0x73, 0x31, 0x33, 0x20, 0x71, 0x75, 0x69, 0x63, 0x20, 0x68,
                         0x70, 0x00, 0x01])[..16])
  }

  /** One block is enough for what QUIC derives. */
  lemma OneBlock(c: Suite, prk: seq<byte>, info: seq<byte>, length: nat)
    requires Laws(c) && 0 < length <= 32
    ensures Expand(c, prk, info, length) == c.hmac(prk, info + [1])[..length]
  {
    BlocksChain(c, prk, info, length, 0);
    var okm := Expand(c, prk, info, length);
    hide Expand, Laws;
    assert okm[0..length] == okm && [] + info + [1] == info + [1];
  }

  /** "tls13 " */
  lemma LabelOctets(name: seq<byte>, length: nat)
    requires |name| < 250 && length < 0x100
    ensures HkdfLabel(name, [], length) + [1] ==
            [0, U8(length), U8(6 + |name|), 0x74, 0x6c, 0x73, 0x31, 0x33, 0x20] + name + [0, 1]
  {
    var tls := Ascii("tls13 ");
    assert tls == [0x74, 0x6c, 0x73, 0x31, 0x33, 0x20];
    hide Ascii;
  }

  lemma ClientInLabel()
    ensures HkdfLabel(Ascii("client in"), [], 32) + [1] ==
            [0x00, 0x20, 0x0f, 0x74, 0x6c, 0x73, 0x31, 0x33, 0x20,
             0x63, 0x6c, 0x69, 0x65, 0x6e, 0x74, 0x20, 0x69, 0x6e, 0x00, 0x01]
  {
    var name := [0x63, 0x6c, 0x69, 0x65, 0x6e, 0x74, 0x20, 0x69, 0x6e];
    assert Ascii("client in") == name;
    LabelOctets(name, 32);
    hide HkdfLabel, Ascii;
    assert [0, 32, 15, 0x74, 0x6c, 0x73, 0x31, 0x33, 0x20] + name + [0, 1] ==
           [0x00, 0x20, 0x0f, 0x74, 0x6c, 0x73, 0x31, 0x33, 0x20,
            0x63, 0x6c, 0x69, 0x65, 0x6e, 0x74, 0x20, 0x69, 0x6e, 0x00, 0x01];
  }

  lemma QuicKeyLabel()
    ensures HkdfLabel(Ascii("quic key"), [], 16) + [1] ==
            [0x00, 0x10, 0x0e, 0x74, 0x6c, 0x73, 0x31, 0x33, 0x20,
             0x71, 0x75, 0x69, 0x63, 0x20, 0x6b, 0x65, 0x79, 0x00, 0x01]
  {
    var name := [0x71, 0x75, 0x69, 0x63, 0x20, 0x6b, 0x65, 0x79];
    assert Ascii("quic key") == name;
    LabelOctets(name, 16);
    hide HkdfLabel, Ascii;
    assert [0, 16, 14, 0x74, 0x6c, 0x73, 0x31, 0x33, 0x20] + name + [0, 1] ==
           [0x00, 0x10, 0x0e, 0x74, 0x6c, 0x73, 0x31, 0x33, 0x20,
            0x71, 0x75, 0x69, 0x63, 0x20, 0x6b, 0x65, 0x79, 0x00, 0x01];
  }

  lemma QuicIvLabel()
    ensures HkdfLabel(Ascii("quic iv"), [], 12) + [1] ==
            [0x00, 0x0c, 0x0d, 0x74, 0x6c, 0x73, 0x31, 0x33, 0x20,
             0x71, 0x75, 0x69, 0x63, 0x20, 0x69, 0x76, 0x00, 0x01]
  {
    var name := [0x71, 0x75, 0x69, 0x63, 0x20, 0x69, 0x76];
    assert Ascii("quic iv") == name;
    LabelOctets(name, 12);
    hide HkdfLabel, Ascii;
    assert [0, 12, 13, 0x74, 0x6c, 0x73, 0x31, 0x33, 0x20] + name + [0, 1] ==
           [0x00, 0x0c, 0x0d, 0x74, 0x6c, 0x73, 0x31, 0x33, 0x20,
            0x71, 0x75, 0x69, 0x63, 0x20, 0x69, 0x76, 0x00, 0x01];
  }

  lemma QuicHpLabel()
    ensures HkdfLabel(Ascii("quic hp"), [], 16) + [1] ==
            [0x00, 0x10, 0x0d, 0x74, 0x6c, 0x73, 0x31, 0x33, 0x20,
             0x71, 0x75, 0x69, 0x63, 0x20, 0x68, 0x70, 0x00, 0x01]
  {
    var name := [0x71, 0x75, 0x69, 0x63, 0x20, 0x68, 0x70];
    assert Ascii("quic hp") == name;
    LabelOctets(name, 16);
    hide HkdfLabel, Ascii;
    assert [0, 16, 13, 0x74, 0x6c, 0x73, 0x31, 0x33, 0x20] + name + [0, 1] ==
           [0x00, 0x10, 0x0d, 0x74, 0x6c, 0x73, 0x31, 0x33, 0x20,
            0x71, 0x75, 0x69, 0x63, 0x20, 0x68, 0x70, 0x00, 0x01];
  }

  /** extractSNI derives the keys the sender protects the packet with. */
  lemma KeysAreSent(c: Suite, dcid: seq<byte>)
    requires Laws(c)
    ensures InitialKeys(c, dcid) == SentKeys(c, dcid)
  {
    hide HkdfLabel, Ascii, Expand;
    var initial, secret := c.hmac(SALT, dcid), ClientSecret(c, dcid);
    OneBlock(c, initial, HkdfLabel(Ascii("client in"), [], 32), 32);
    ClientInLabel();
    assert |c.hmac(initial, HkdfLabel(Ascii("client in"), [], 32) + [1])| == 32;
    assert secret == c.hmac(initial, HkdfLabel(Ascii("client in"), [], 32) + [1]);
    OneBlock(c, secret, HkdfLabel(Ascii("quic key"), [], 16), 16);
    QuicKeyLabel();
    OneBlock(c, secret, HkdfLabel(Ascii("quic iv"), [], 12), 12);
    QuicIvLabel();
    OneBlock(c, secret, HkdfLabel(Ascii("quic hp"), [], 16), 16);
    QuicHpLabel();
  }

  function Pn(p: Packet): (pn: seq<byte>)
    ensures 1 <= |pn| == p.first as int % 4 + 1 <= 4
  {
    ToBE(p.number, PnLen(p.first))
  }

  /** The value of the Length field: packet number, payload and tag. */
  function Length(p: Packet): nat {
    |Pn(p)| + |p.plaintext| + 16
  }

  ghost predicate ValidPacket(p: Packet) {
    && p.first >= 0x80 && p.first as int / 0x10 % 4 == 0
    && |p.dcid| < 0x100 && |p.scid| < 0x100
    && Legal(Vi(|p.token|, p.tokenWidth)) && Legal(Vi(Length(p), p.lengthWidth))
    && p.number < LIMIT
    && |Pn(p)| + |p.plaintext| >= 4
  }

  /** Token, Length, then rest. */
  function TailBytes(p: Packet, rest: seq<byte>): seq<byte>
    requires ValidPacket(p)
  {
    PutVi(Vi(|p.token|, p.tokenWidth), p.token + PutVi(Vi(Length(p), p.lengthWidth), rest))
  }

  /** The header up to the packet number with the given first octet, then rest. */
  function HeaderBytes(p: Packet, first: byte, rest: seq<byte>): seq<byte>
    requires ValidPacket(p)
  {
    LongHeader([first, 0, 0, 0, 1], p.dcid, p.scid, TailBytes(p, rest))
  }

  /** The associated data: the header before its protection. */
  function SentAad(p: Packet): seq<byte>
    requires ValidPacket(p)
  {
    HeaderBytes(p, p.first, Pn(p))
  }

  /** The IV xor the packet number padded on the left to the size of the IV. */
  function SentNonce(c: Suite, p: Packet): seq<byte>
    requires Laws(c)
  {
    var iv, padded := SentKeys(c, p.dcid).iv, ToBE(p.number, 12);
    seq(12, i requires 0 <= i < 12 => Xor(iv[i], padded[i]))
  }

  function Ciphertext(c: Suite, p: Packet): (s: seq<byte>)
    requires Laws(c) && ValidPacket(p)
    ensures |s| == |p.plaintext| + 16
  {
    c.seal(SentKeys(c, p.dcid).key, SentNonce(c, p), p.plaintext, SentAad(p))
  }

  /** The sample starts four octets behind the start of the packet number. */
  function Mask(c: Suite, p: Packet): (m: seq<byte>)
    requires Laws(c) && ValidPacket(p)
    ensures |m| == 16
  {
    c.block(SentKeys(c, p.dcid).hp, (Pn(p) + Ciphertext(c, p))[4..20])
  }

  function ProtectedPart(c: Suite, p: Packet): seq<byte>
    requires Laws(c) && ValidPacket(p)
  {
    var pn, mask := Pn(p), Mask(c, p);
    seq(|pn|, i requires 0 <= i < |pn| => Xor(pn[i], mask[1 + i])) + Ciphertext(c, p)
  }

  lemma MaskedNumber(c: Suite, p: Packet)
    requires Laws(c) && ValidPacket(p)
    ensures ProtectedPart(c, p) == XorAll(Pn(p), Mask(c, p)[1..]) + Ciphertext(c, p)
  {
    hide Bits.Xor, Pn, Mask, Ciphertext;
    var pn, mask := Pn(p), Mask(c, p);
    assert seq(|pn|, i requires 0 <= i < |pn| => Xor(pn[i], mask[1 + i])) == XorAll(pn, mask[1..]);
  }

  /** For a long header the mask covers the four low bits of the first octet. */
  function MaskedFirst(c: Suite, p: Packet): byte
    requires Laws(c) && ValidPacket(p)
  {
    Xor(p.first, And(Mask(c, p)[0], 0x0f))
  }

  /** The packet on the wire, then rest. */
  function Wire(c: Suite, p: Packet, rest: seq<byte>): seq<byte>
    requires Laws(c) && ValidPacket(p)
  {
    HeaderBytes(p, MaskedFirst(c, p), ProtectedPart(c, p) + rest)
  }

  // ----- The header is found ------------------------------------------------

  lemma TailParses(p: Packet, size: nat, protected: seq<byte>, rest: seq<byte>)
    requires ValidPacket(p) && |protected| == Length(p)
    requires size > |TailBytes(p, protected + rest)| + 5
    ensures Tail(size, p.dcid, TailBytes(p, protected + rest))
         == Some(Header(p.dcid, size - |protected| - |rest|, protected))
  {
    var token, length := Vi(|p.token|, p.tokenWidth), Vi(Length(p), p.lengthWidth);
    ReadViVector(token, p.token, PutVi(length, protected + rest));
    ReadViVector(length, protected, rest);
    hide Varint.ReadVarint, Varint.EncodeVarint, PutVi, Legal, Tail;
    TailFields(size, p.dcid, TailBytes(p, protected + rest), token, PutVi(length, protected + rest), length, protected);
  }

  lemma TailFields(size: nat, dcid: seq<byte>, t: seq<byte>, token: Vi, u: seq<byte>, length: Vi,
                   protected: seq<byte>)
    requires |t| + 5 < size && token.w > 0 && length.w > 0
    requires ReadVarint(t) == (token.v, token.w) && |t| == token.w + token.v + |u| && t[token.w + token.v..] == u
    requires ReadVarint(u) == (length.v, length.w) && |u| >= length.w + length.v
    requires u[length.w..length.w + length.v] == protected
    ensures Tail(size, dcid, t) == Some(Header(dcid, size - |u| + length.w, protected))
  {
    hide Varint.ReadVarint;
  }

  lemma HeaderParses(p: Packet, first: byte, protected: seq<byte>, rest: seq<byte>)
    requires ValidPacket(p) && |protected| == Length(p) && first as int / 0x10 == p.first as int / 0x10
    ensures ParseHeader(HeaderBytes(p, first, protected + rest))
         == Some(Header(p.dcid, |HeaderBytes(p, first, [])|, protected))
  {
    hide Varint.EncodeVarint, Tail;
    var t := TailBytes(p, protected + rest);
    LongHeaderCut([first, 0, 0, 0, 1], p.dcid, p.scid, t, 0, []);
    LongHeaderCut([first, 0, 0, 0, 1], p.dcid, p.scid, TailBytes(p, []), 0, []);
    TailParses(p, 7 + |p.dcid| + |p.scid| + |t|, protected, rest);
    ParseLong([first, 0, 0, 0, 1], p.dcid, p.scid, t);
    assert |t| == |TailBytes(p, [])| + |protected| + |rest|;
  }

  lemma HeaderAppend(p: Packet, first: byte, rest: seq<byte>)
    requires ValidPacket(p)
    ensures HeaderBytes(p, first, rest) == HeaderBytes(p, first, []) + rest
  {
    hide Varint.EncodeVarint;
    var token, length := Vi(|p.token|, p.tokenWidth), Vi(Length(p), p.lengthWidth);
    var five := [first, 0, 0, 0, 1];
    var a := EncodeVarint(token.v, token.w);
    var b := EncodeVarint(length.v, length.w);
    assert TailBytes(p, rest) == a + p.token + b + rest;
    assert TailBytes(p, []) == a + p.token + b;
    var front := five + [U8(|p.dcid|)] + p.dcid + [U8(|p.scid|)] + p.scid;
    assert HeaderBytes(p, first, rest) == front + (a + p.token + b) + rest;
    assert HeaderBytes(p, first, []) == front + (a + p.token + b);
  }

  lemma HeaderFirst(p: Packet, first: byte, rest: seq<byte>)
    requires ValidPacket(p)
    ensures HeaderBytes(p, first, rest) == [first] + HeaderBytes(p, p.first, rest)[1..]
  {
  }

  // ----- Protection is removed ----------------------------------------------

  lemma XorAllTwice(a: seq<byte>, m: seq<byte>)
    requires |a| <= |m|
    ensures XorAll(XorAll(a, m), m) == a
  {
    hide Bits.Xor;
    forall i | 0 <= i < |a| ensures Xor(Xor(a[i], m[i]), m[i]) == a[i] {
      XorTwice(a[i], m[i]);
    }
  }

  lemma Located(p: Packet, first: byte, protected: seq<byte>, rest: seq<byte>)
    requires ValidPacket(p) && |protected| == Length(p) && first as int / 0x10 == p.first as int / 0x10
    ensures var data := HeaderBytes(p, first, protected + rest);
            var off := |HeaderBytes(p, p.first, [])|;
            && ParseHeader(data) == Some(Header(p.dcid, off, protected))
            && data[0] == first && data[1..off] == HeaderBytes(p, p.first, [])[1..]
  {
    HeaderParses(p, first, protected, rest);
    HeaderFirst(p, first, []);
    HeaderAppend(p, first, protected + rest);
    hide LongHeader, Initial.ParseHeader;
    var off := |HeaderBytes(p, p.first, [])|;
    DropAppend(HeaderBytes(p, first, []), protected + rest);
    assert HeaderBytes(p, first, protected + rest)[1..off] == HeaderBytes(p, first, [])[1..];
  }

  lemma NumberRecovered(pn: seq<byte>, mask: seq<byte>, ciphertext: seq<byte>)
    requires 1 <= |pn| <= 4 && |mask| == 16 && |pn| + |ciphertext| >= 20
    ensures var protected := XorAll(pn, mask[1..]) + ciphertext;
            && Sample(protected) == Some((pn + ciphertext)[4..20])
            && XorAll(protected[..|pn|], mask[1..]) == pn && protected[|pn|..] == ciphertext
  {
    var masked := XorAll(pn, mask[1..]);
    DropAppend(masked, ciphertext);
    XorAllTwice(pn, mask[1..]);
    hide XorAll;
    assert (masked + ciphertext)[4..20] == (pn + ciphertext)[4..20];
  }

  /** What extractSNI takes off the packet, for every mask: the number octets are exact, the first octet is
      exact up to the bit of value 0x10. */
  lemma Unprotected(c: Suite, p: Packet, rest: seq<byte>)
    requires Laws(c) && ValidPacket(p)
    ensures var data := Wire(c, p, rest);
            var first := Xor(p.first, And(Mask(c, p)[0], 0x10));
            && ParseHeader(data) == Some(Header(p.dcid, |HeaderBytes(p, p.first, [])|, ProtectedPart(c, p)))
            && Sample(ProtectedPart(c, p)) == Some((Pn(p) + Ciphertext(c, p))[4..20])
            && Unprotect(data, ParseHeader(data).value, Mask(c, p))
            == Opened(first, Pn(p), HeaderBytes(p, first, Pn(p)), Ciphertext(c, p))
  {
    hide Bits.Xor, Bits.And, XorAll, HeaderBytes, Initial.ParseHeader, InitialKeys, SentKeys, Sample, Ciphertext, Mask,
         Pn, ProtectedPart;
    MaskedNumber(c, p);
    var mask := Mask(c, p);
    var first := Xor(p.first, And(mask[0], 0x10));
    MaskKeepsHigh(p.first, mask[0]);
    Located(p, MaskedFirst(c, p), ProtectedPart(c, p), rest);
    NumberRecovered(Pn(p), mask, Ciphertext(c, p));
    Mask5AfterMask4(p.first, mask[0]);
    FlipKeepsLow(p.first, mask[0]);
    NumberLength(p);
    HeaderAppend(p, first, Pn(p));
    HeaderFirst(p, first, []);
  }

  lemma NumberLength(p: Packet)
    ensures |Pn(p)| == PnLen(p.first)
  {
  }

  // ----- When the packet opens ----------------------------------------------

  lemma NumberFitsIff(iv: seq<byte>, v: nat, k: nat)
    requires |iv| == 12 && 1 <= k <= 4 && v < LIMIT
    ensures Nonce(iv, ToBE(v, k)) == XorAll(iv, ToBE(v, 12)) <==> v < Radix(k)
  {
    hide Bytes.ToBE, Bytes.Radix, Initial.Nonce, XorAll;
    Radix12();
    var pn := ToBE(v, k);
    var padded := seq(12 - k, _ => 0) + pn;
    PaddedIff(v, k, 12);
    NonceIsXor(iv, pn);
    if XorAll(iv, padded) == XorAll(iv, ToBE(v, 12)) {
      XorAllCancels(iv, padded, ToBE(v, 12));
    }
  }

  /** The nonce is the sender's iff the full packet number fits the octets it was cut to: extractSNI does not
      reconstruct it (section A.3 of RFC 9000). */
  lemma NonceExactIff(c: Suite, p: Packet)
    requires Laws(c) && ValidPacket(p)
    ensures Nonce(InitialKeys(c, p.dcid).iv, Pn(p)) == SentNonce(c, p) <==> p.number < Radix(|Pn(p)|)
  {
    SentNonceIsXor(c, p);
    NumberFitsIff(InitialKeys(c, p.dcid).iv, p.number, |Pn(p)|);
    hide InitialKeys, SentNonce, Bytes.ToBE, Bytes.Radix, Initial.Nonce, XorAll;
  }

  lemma SentNonceIsXor(c: Suite, p: Packet)
    requires Laws(c)
    ensures SentNonce(c, p) == XorAll(InitialKeys(c, p.dcid).iv, ToBE(p.number, 12))
  {
    KeysAreSent(c, p.dcid);
    hide InitialKeys, SentKeys, Bytes.ToBE, Bits.Xor, Laws;
  }

  lemma Radix12()
    ensures LIMIT < Radix(12)
  {
    Radixes();
    assert Radix(10) == 0x1_0000 * Radix(8);
    assert Radix(12) == 0x1_0000 * Radix(10);
  }

  lemma NonceIsXor(iv: seq<byte>, pn: seq<byte>)
    requires |pn| <= |iv|
    ensures Nonce(iv, pn) == XorAll(iv, seq(|iv| - |pn|, _ => 0) + pn)
  {
    hide Bits.Xor;
    forall i | 0 <= i < |iv| - |pn| ensures Xor(iv[i], 0) == iv[i] {
      XorZero(iv[i]);
    }
  }

  lemma XorAllCancels(a: seq<byte>, b: seq<byte>, c: seq<byte>)
    requires |a| == |b| == |c| && XorAll(a, b) == XorAll(a, c)
    ensures b == c
  {
    hide Bits.Xor;
    forall i | 0 <= i < |a| ensures b[i] == c[i] {
      assert XorAll(a, b)[i] == XorAll(a, c)[i];
      XorCancels(a[i], b[i], c[i]);
    }
  }

  /** The associated data is the sender's iff the mask lacks the fifth bit that the code takes off. */
  lemma AadExactIff(c: Suite, p: Packet)
    requires Laws(c) && ValidPacket(p)
    ensures HeaderBytes(p, Xor(p.first, And(Mask(c, p)[0], 0x10)), Pn(p)) == SentAad(p)
       <==> And(Mask(c, p)[0], 0x10) == 0
  {
    hide Bits.Xor, Bits.And, Mask, LongHeader;
    var first := Xor(p.first, And(Mask(c, p)[0], 0x10));
    FlipIff(p.first, Mask(c, p)[0]);
    HeaderFirst(p, first, Pn(p));
    HeaderHead(p, Pn(p));
  }

  lemma HeaderHead(p: Packet, rest: seq<byte>)
    requires ValidPacket(p)
    ensures HeaderBytes(p, p.first, rest) != [] && HeaderBytes(p, p.first, rest)[0] == p.first
  {
  }

  /** Checkable on the wire: the mask bit, and the size of the number. */
  predicate Faithful(c: Suite, p: Packet)
    requires Laws(c) && ValidPacket(p)
  {
    And(Mask(c, p)[0], 0x10) == 0 && p.number < Radix(|Pn(p)|)
  }

  /** Nonce and associated data as extractSNI forms them. */
  function FormedNonce(c: Suite, p: Packet): seq<byte>
    requires Laws(c) && ValidPacket(p)
  {
    Nonce(InitialKeys(c, p.dcid).iv, Pn(p))
  }

  function FormedAad(c: Suite, p: Packet): seq<byte>
    requires Laws(c) && ValidPacket(p)
  {
    HeaderBytes(p, Xor(p.first, And(Mask(c, p)[0], 0x10)), Pn(p))
  }

  /** The ciphertext does not open under the one pair that extractSNI forms, when that is not the sender's pair. */
  ghost predicate Binds(c: Suite, p: Packet)
    requires Laws(c) && ValidPacket(p)
  {
    FormedNonce(c, p) != SentNonce(c, p) || FormedAad(c, p) != SentAad(p) ==>
      c.open(InitialKeys(c, p.dcid).key, FormedNonce(c, p), Ciphertext(c, p), FormedAad(c, p)).None?
  }

  lemma OpensAs(c: Suite, p: Packet, rest: seq<byte>)
    requires Laws(c) && ValidPacket(p)
    ensures SniOfPacket(c, Wire(c, p, rest))
         == (var first := Xor(p.first, And(Mask(c, p)[0], 0x10));
             OpenAndScan(c, InitialKeys(c, p.dcid),
                         Opened(first, Pn(p), HeaderBytes(p, first, Pn(p)), Ciphertext(c, p))))
  {
    KeysAreSent(c, p.dcid);
    hide Bits.Xor, Bits.And, HeaderBytes, ProtectedPart, Ciphertext, Initial.ParseHeader, InitialKeys, SentKeys, Sample,
         Unprotect, OpenAndScan, Pn;
    Unprotected(c, p, rest);
  }

  /** For every packet and every mask: exactly the plaintext reaches parseCryptoFrames when the packet is
      faithful, whatever bytes follow the packet. */
  lemma FaithfulPacketIsRead(c: Suite, p: Packet, rest: seq<byte>)
    requires Laws(c) && ValidPacket(p) && Faithful(c, p)
    ensures SniOfPacket(c, Wire(c, p, rest)) == Scan(p.plaintext)
  {
    KeysAreSent(c, p.dcid);
    hide Bits.Xor, Bits.And, HeaderBytes, Wire, InitialKeys, SentKeys, Initial.SniOfPacket, Mask, Scan, Nonce,
         SentNonce;
    OpensAs(c, p, rest);
    AadExactIff(c, p);
    NonceExactIff(c, p);
  }

  /** And it is rejected when it is not, for a cipher that rejects that pair. */
  lemma ReadIff(c: Suite, p: Packet, rest: seq<byte>)
    requires Laws(c) && ValidPacket(p) && Binds(c, p)
    ensures SniOfPacket(c, Wire(c, p, rest)) == if Faithful(c, p) then Scan(p.plaintext) else NotFound
  {
    hide Bits.Xor, Bits.And, HeaderBytes, Wire, InitialKeys, Initial.SniOfPacket, Mask, Scan, Nonce, SentAad,
         SentNonce;
    if Faithful(c, p) {
      FaithfulPacketIsRead(c, p, rest);
    } else {
      OpensAs(c, p, rest);
      AadExactIff(c, p);
      NonceExactIff(c, p);
    }
  }

  function Blank(): (s: seq<byte>)
    ensures |s| == 16
  {
    [0, 0, 0, 0, 0, 0, 0, 0, 0, 0, 0, 0, 0, 0, 0, 0]
  }

  /** Twelve octets of nonce and the first of the associated data. */
  function Tag(nonce: seq<byte>, aad: seq<byte>): (t: seq<byte>)
    ensures |t| == 16
  {
    if |nonce| == 12 && aad != [] then nonce + [aad[0], 0, 0, 0] else Blank()
  }

  function MaskOf(m: byte): (mask: seq<byte>)
    ensures |mask| == 16 && mask[0] == m
  {
    Blank()[0 := m]
  }

  function TagSeal(key: seq<byte>, nonce: seq<byte>, text: seq<byte>, aad: seq<byte>): seq<byte> {
    text + Tag(nonce, aad)
  }

  function TagOpen(key: seq<byte>, nonce: seq<byte>, sealed: seq<byte>, aad: seq<byte>): Option<seq<byte>> {
    if |sealed| >= 16 && sealed[|sealed| - 16..] == Tag(nonce, aad) then Some(sealed[..|sealed| - 16]) else None
  }

  /** A suite that does not encrypt but tags, with masks that start with m. */
  function Tagging(m: byte): Suite {
    Suite((_, _) => Blank() + Blank(), (_, _) => MaskOf(m), TagSeal, TagOpen)
  }

  lemma TaggingLaws(m: byte)
    ensures Laws(Tagging(m))
  {
    var c := Tagging(m);
    forall key, nonce, text, aad
      ensures c.open(key, nonce, c.seal(key, nonce, text, aad), aad) == Some(text)
    {
      DropAppend<byte>(text, Tag(nonce, aad));
    }
    forall key, nonce, sealed, aad | c.open(key, nonce, sealed, aad).Some?
      ensures sealed == c.seal(key, nonce, c.open(key, nonce, sealed, aad).value, aad)
    {
      assert sealed == sealed[..|sealed| - 16] + sealed[|sealed| - 16..];
    }
  }

  lemma TagsDiffer(n1: seq<byte>, a1: seq<byte>, n2: seq<byte>, a2: seq<byte>)
    requires |n1| == |n2| == 12 && a1 != [] && a2 != [] && (n1 != n2 || a1[0] != a2[0])
    ensures Tag(n1, a1) != Tag(n2, a2)
  {
    DropAppend<byte>(n1, [a1[0], 0, 0, 0]);
    DropAppend<byte>(n2, [a2[0], 0, 0, 0]);
    assert [a1[0], 0, 0, 0][0] == a1[0] && [a2[0], 0, 0, 0][0] == a2[0];
  }

  /** What ReadIff asks of a cipher can be had, for every packet and every mask, faithful or not. */
  lemma BindsHasModel(m: byte, p: Packet)
    requires ValidPacket(p)
    ensures Laws(Tagging(m)) && Binds(Tagging(m), p)
    ensures Faithful(Tagging(m), p) <==> And(m, 0x10) == 0 && p.number < Radix(|Pn(p)|)
  {
    TaggingLaws(m);
    var c := Tagging(m);
    assert Mask(c, p)[0] == m;
    hide Bits.Xor, Bits.And, InitialKeys, SentKeys, Laws, LongHeader, Nonce, Bytes.ToBE, Bytes.Radix;
    var first := Xor(p.first, And(m, 0x10));
    HeaderFirst(p, first, Pn(p));
    HeaderHead(p, Pn(p));
    DropAppend<byte>(p.plaintext, Tag(SentNonce(c, p), SentAad(p)));
    if FormedNonce(c, p) != SentNonce(c, p) || FormedAad(c, p) != SentAad(p) {
      TagsDiffer(FormedNonce(c, p), FormedAad(c, p), SentNonce(c, p), SentAad(p));
    }
  }

  /** A faithful packet ends the program iff the scan of its plaintext reaches a CRYPTO frame that overruns. */
  lemma PacketPanicsIff(c: Suite, p: Packet, rest: seq<byte>)
    requires Laws(c) && ValidPacket(p) && Faithful(c, p)
    ensures SniOfPacket(c, Wire(c, p, rest)) == Panic <==> exists t :: Reaches(p.plaintext, t) && Overruns(t)
  {
    FaithfulPacketIsRead(c, p, rest);
    PanicsIff(p.plaintext);
  }

  /** One such packet. */
  lemma ShortPacketPanics() returns (c: Suite, p: Packet)
    ensures Laws(c) && ValidPacket(p) && p.plaintext == [0x06, 0x00, 0x01]
    ensures SniOfPacket(c, Wire(c, p, [])) == Panic
  {
    c, p := Tagging(0), Packet(0xc0, [], [], 1, [], 1, 0, [0x06, 0x00, 0x01]);
    Radixes();
    assert ValidPacket(p);
    BindsHasModel(0, p);
    NoMask();
    hide *;
    FaithfulPacketIsRead(c, p, []);
    ShortCryptoPanics();
  }

  lemma NoMask()
    ensures And(0, 0x10) == 0
  {
    Constants();
    assert ToBits(0) & ToBits(0x10) == 0;
    OctetInverse(0);
  }

  /** From the frames of the client to the name: whatever legal frames, varint widths, connection IDs and
      token it chose. */
  lemma NameReachesProxy(c: Suite, p: Packet, fs: seq<Frame>, rest: seq<byte>)
    requires Laws(c) && ValidPacket(p) && Faithful(c, p)
    requires (forall f <- fs :: LegalFrame(f)) && PingsPadded(fs) && p.plaintext == FramesBytes(fs, [])
    ensures SniOfPacket(c, Wire(c, p, rest)) == FirstCryptoName(fs)
  {
    FaithfulPacketIsRead(c, p, rest);
    ScanPacket(fs);
  }
}
