/** The QUIC Initial packet: header parsing, removal of protection and the name inside. */
module Initial {
  import opened Bytes
  import opened Bits
  import opened Vectors
  import opened Varint
  import opened Hkdf
  import opened Frames

  const SALT: seq<byte> := [0x38, 0x76, 0x2c, 0xf7, 0xf5, 0x59, 0x34, 0xb3, 0x4d, 0x17,
                            0x9a, 0xe6, 0xa4, 0xc8, 0x0c, 0xad, 0xcc, 0xbb, 0x7f, 0x0a]

  // ----- What extractSNI computes -------------------------------------------

  datatype Keys = Keys(key: seq<byte>, iv: seq<byte>, hp: seq<byte>)

  /** Section 5.2 of RFC 9001. */
  function ClientSecret(c: Suite, dcid: seq<byte>): seq<byte>
    requires Laws(c)
  {
    Expand(c, c.hmac(SALT, dcid), HkdfLabel(Ascii("client in"), [], 32), 32)
  }

  function InitialKeys(c: Suite, dcid: seq<byte>): (k: Keys)
    requires Laws(c)
    ensures |k.key| == 16 && |k.iv| == 12 && |k.hp| == 16
  {
    var secret := ClientSecret(c, dcid);
    Keys(Expand(c, secret, HkdfLabel(Ascii("quic key"), [], 16), 16),
         Expand(c, secret, HkdfLabel(Ascii("quic iv"), [], 12), 12),
         Expand(c, secret, HkdfLabel(Ascii("quic hp"), [], 16), 16))
  }

  /** Connection ID, offset of the packet number, and the protected part. */
  datatype Header = Header(dcid: seq<byte>, off: nat, protected: seq<byte>)

  function ParseHeader(data: seq<byte>): (r: Option<Header>)
    ensures r.Some? ==> 5 < r.value.off && r.value.off + |r.value.protected| <= |data|
  {
    if |data| < 5 || data[0] < 0x80 || data[1..5] != [0, 0, 0, 1] || data[0] as int / 0x10 % 4 != 0 then None
    else
      match Vec8(data[5..])
      case None => None
      case Some((dcid, s)) =>
        match Vec8(s)
        case None => None
        case Some((_, t)) => Tail(|data|, dcid, t)
  }

  /** Token and Length, at the end of a packet of the given size. */
  function Tail(size: nat, dcid: seq<byte>, t: seq<byte>): (r: Option<Header>)
    requires |t| + 5 < size
    ensures r.Some? ==> 5 < r.value.off && r.value.off + |r.value.protected| <= size
  {
    var (tokenLen, n) := ReadVarint(t);
    if n == 0 || |t| < n + tokenLen then None
    else
      var u := t[n + tokenLen..];
      var (length, m) := ReadVarint(u);
      if m == 0 || |u| < m + length then None
      else Some(Header(dcid, size - |u| + m, u[m..m + length]))
  }

  /** The 16 octets header protection samples: from offset 4, or from 0 when the packet is short. */
  function Sample(protected: seq<byte>): (r: Option<seq<byte>>)
    ensures r.Some? ==> |r.value| == 16 && |protected| >= 16
  {
    if |protected| >= 20 then Some(protected[4..20])
    else if |protected| >= 16 then Some(protected[..16])
    else None
  }

  function XorAll(a: seq<byte>, b: seq<byte>): (r: seq<byte>)
    requires |a| <= |b|
    ensures |r| == |a|
  {
    seq(|a|, i requires 0 <= i < |a| => Xor(a[i], b[i]))
  }

  function PnLen(first: byte): (n: nat)
    ensures 1 <= n <= 4
  {
    first as int % 4 + 1
  }

  /** The IV with pn xored into its last octets. */
  function Nonce(iv: seq<byte>, pn: seq<byte>): (r: seq<byte>)
    requires |pn| <= |iv|
    ensures |r| == |iv|
  {
    var k := |iv| - |pn|;
    seq(|iv|, i requires 0 <= i < |iv| => if i < k then iv[i] else Xor(iv[i], pn[i - k]))
  }

  /** The packet with protection of its header removed. */
  datatype Opened = Opened(first: byte, pn: seq<byte>, aad: seq<byte>, ciphertext: seq<byte>)

  function Unprotect(data: seq<byte>, h: Header, mask: seq<byte>): (o: Opened)
    requires |mask| == 16 && 5 < h.off <= |data| && |h.protected| >= 16
    ensures 1 <= |o.pn| <= 4
  {
    var first := Xor(data[0], And(mask[0], 0x1f));
    var pnLen := PnLen(first);
    var pn := XorAll(h.protected[..pnLen], mask[1..]);
    Opened(first, pn, [first] + data[1..h.off] + pn, h.protected[pnLen..])
  }

  function SniOfPacket(c: Suite, data: seq<byte>): Outcome
    requires Laws(c)
  {
    match ParseHeader(data)
    case None => NotFound
    case Some(h) =>
      match Sample(h.protected)
      case None => NotFound
      case Some(sample) =>
        var k := InitialKeys(c, h.dcid);
        OpenAndScan(c, k, Unprotect(data, h, c.block(k.hp, sample)))
  }

  function OpenAndScan(c: Suite, k: Keys, o: Opened): Outcome
    requires |k.iv| == 12 && |o.pn| <= 4
  {
    if |o.ciphertext| < 16 then NotFound
    else
      match c.open(k.key, Nonce(k.iv, o.pn), o.ciphertext, o.aad)
      case None => NotFound
      case Some(plaintext) => Scan(plaintext)
  }

  // ----- extractSNI ----------------------------------------------------------

  method DeriveKeys(c: Suite, dcid: seq<byte>) returns (k: Keys)
    requires Laws(c)
    ensures k == InitialKeys(c, dcid)
  {
    var initialSecret := c.hmac(SALT, dcid);
    var clientInitialSecret := HkdfExpandLabel(c, initialSecret, Ascii("client in"), [], 32);
    var key := HkdfExpandLabel(c, clientInitialSecret, Ascii("quic key"), [], 16);
    var iv := HkdfExpandLabel(c, clientInitialSecret, Ascii("quic iv"), [], 12);
    var hp := HkdfExpandLabel(c, clientInitialSecret, Ascii("quic hp"), [], 16);
    k := Keys(key, iv, hp);
  }

  /** The part of extractSNI up to the protected bytes. */
  method FindProtected(data: seq<byte>) returns (r: Option<Header>)
    ensures r == ParseHeader(data)
  {
    hide Varint.ReadVarint;
    if |data| < 5 {
      return None;
    }
    if data[0] < 0x80 {
      return None;
    }
    if data[1..5] != [0, 0, 0, 1] {
      return None;
    }
    if data[0] as int / 0x10 % 4 != 0 {
      return None;
    }
    var off := 5;
    if |data| < off + 1 {
      return None;
    }
    Vec8At(data, off);
    var dcidLen := data[off] as int;
    off := off + 1;
    if |data| < off + dcidLen {
      return None;
    }
    var dcid := data[off..off + dcidLen];
    off := off + dcidLen;
    if |data| < off + 1 {
      return None;
    }
    Vec8At(data, off);
    var scidLen := data[off] as int;
    off := off + 1;
    if |data| < off + scidLen {
      return None;
    }
    off := off + scidLen;
    r := FindTail(data, off, dcid);
  }

  method FindTail(data: seq<byte>, start: nat, dcid: seq<byte>) returns (r: Option<Header>)
    requires 5 < start <= |data|
    ensures r == Tail(|data|, dcid, data[start..])
  {
    hide Varint.ReadVarint;
    var off := start;
    var (tokenLen, n) := ReadVarint(data[off..]);
    if n == 0 || |data| < off + n + tokenLen {
      return None;
    }
    off := off + n + tokenLen;
    SliceSlice(data, start, n + tokenLen, n + tokenLen);
    var (length, m) := ReadVarint(data[off..]);
    if m == 0 || |data| - off < length {
      return None;
    }
    if off + m + length > |data| {
      return None;
    }
    SliceSlice(data, off, m, m + length);
    off := off + m;
    return Some(Header(dcid, off, data[off..off + length]));
  }

  method ExtractSni(c: Suite, data: seq<byte>) returns (r: Outcome)
    requires Laws(c)
    ensures r == SniOfPacket(c, data)
  {
    hide ParseHeader, InitialKeys, Scan, XorAll, Nonce, Bits.Xor, Bits.And;
    var header := FindProtected(data);
    if header.None? {
      return NotFound;
    }
    var off, protected := header.value.off, header.value.protected;
    var k := DeriveKeys(c, header.value.dcid);
    if |protected| < 5 {
      return NotFound;
    }
    var sampleOffset := 4;
    if |protected| < sampleOffset + 16 {
      sampleOffset := 0;
    }
    if sampleOffset + 16 > |protected| {
      return NotFound;
    }
    var sample := protected[sampleOffset..sampleOffset + 16];
    var mask := c.block(k.hp, sample);
    var firstByte := Xor(data[0], And(mask[0], 0x1f));
    var pnLen := PnLen(firstByte);
    var packetNumber := UnmaskNumber(protected, mask, pnLen);
    var nonce := FormNonce(k.iv, packetNumber);
    var aad := FormAad(data, off, firstByte, packetNumber);
    var ciphertext := protected[pnLen..];
    if |ciphertext| < 16 {
      return NotFound;
    }
    var plaintext := c.open(k.key, nonce, ciphertext, aad);
    if plaintext.None? {
      return NotFound;
    }
    r := ParseCryptoFrames(plaintext.value);
  }

  method UnmaskNumber(protected: seq<byte>, mask: seq<byte>, pnLen: nat) returns (pn: seq<byte>)
    requires 1 <= pnLen <= 4 && |protected| >= 16 && |mask| == 16
    ensures pn == XorAll(protected[..pnLen], mask[1..])
  {
    hide Bits.Xor;
    var packetNumber := new byte[pnLen];
    for i := 0 to pnLen
      invariant forall j :: 0 <= j < i ==> packetNumber[j] == Xor(protected[j], mask[1 + j])
    {
      packetNumber[i] := Xor(protected[i], mask[1 + i]);
    }
    pn := packetNumber[..];
  }

  method FormNonce(iv: seq<byte>, packetNumber: seq<byte>) returns (r: seq<byte>)
    requires |iv| == 12 && |packetNumber| <= 4
    ensures r == Nonce(iv, packetNumber)
  {
    hide Bits.Xor;
    var pnLen := |packetNumber|;
    var nonce := new byte[12](i requires 0 <= i < 12 => iv[i]);
    for i := 0 to pnLen
      invariant forall j :: 0 <= j < 12 - i ==> nonce[j] == iv[j]
      invariant forall j :: 12 - i <= j < 12 ==> nonce[j] == Xor(iv[j], packetNumber[j - (12 - pnLen)])
    {
      nonce[11 - i] := Xor(nonce[11 - i], packetNumber[pnLen - 1 - i]);
    }
    r := nonce[..];
  }

  method FormAad(data: seq<byte>, off: nat, firstByte: byte, packetNumber: seq<byte>) returns (r: seq<byte>)
    requires 0 < off && off + |packetNumber| <= |data|
    ensures r == [firstByte] + data[1..off] + packetNumber
  {
    var aad := new byte[off + |packetNumber|](i requires 0 <= i < off + |packetNumber| => data[i]);
    aad[0] := firstByte;
    for i := 0 to |packetNumber|
      invariant aad[0] == firstByte
      invariant forall j :: 0 < j < off ==> aad[j] == data[j]
      invariant forall j :: 0 <= j < i ==> aad[off + j] == packetNumber[j]
    {
      aad[off + i] := packetNumber[i];
    }
    r := aad[..];
    assert r[..off] == [firstByte] + data[1..off];
    assert r[off..] == packetNumber;
  }

  // ----- Short packets ---------------------------------------------------------

  lemma TwoOctets(s: seq<byte>)
    requires |s| <= 2
    ensures Scan(s) == NotFound
    decreases |s|
  {
    if s != [] {
      if FrameTurn(s[0], s[1..]).Skip? {
        ShorterTurn(s[0], s[1..]);
        TwoOctets(FrameTurn(s[0], s[1..]).rest);
      } else {
        ShortVerdict(s[0], s[1..]);
      }
    }
  }

  lemma ShorterTurn(frameType: byte, s: seq<byte>)
    requires FrameTurn(frameType, s).Skip?
    ensures |FrameTurn(frameType, s).rest| <= |s|
  {
    hide Varint.ReadVarint, ClientHello.SniOf;
  }

  lemma ShortVerdict(frameType: byte, s: seq<byte>)
    requires |s| <= 1 && FrameTurn(frameType, s).Return?
    ensures FrameTurn(frameType, s).outcome == NotFound
  {
    hide Varint.ReadVarint, ClientHello.SniOf;
  }

  /** What the protected part must hold before anything but NotFound comes of it: 20 octets, the sample of section
      5.4.2 of RFC 9001. The sample taken from the start of a shorter part therefore never serves a name, and never
      leads to a panic; Sealed.ShortPacketPanics has a part of 20. */
  lemma ShortPacketNotFound(c: Suite, data: seq<byte>)
    requires Laws(c)
    requires ParseHeader(data).None? || |ParseHeader(data).value.protected| < 20
    ensures SniOfPacket(c, data) == NotFound
  {
    hide ParseHeader, InitialKeys, Scan, XorAll, Bits.Xor, Bits.And;
    if ParseHeader(data).Some? && Sample(ParseHeader(data).value.protected).Some? {
      var h, k := ParseHeader(data).value, InitialKeys(c, ParseHeader(data).value.dcid);
      var o := Unprotect(data, h, c.block(k.hp, Sample(h.protected).value));
      var text := c.open(k.key, Nonce(k.iv, o.pn), o.ciphertext, o.aad);
      if text.Some? {
        assert o.ciphertext == c.seal(k.key, Nonce(k.iv, o.pn), text.value, o.aad);
        TwoOctets(text.value);
      }
    }
  }

  // ----- Bytes behind the packet ---------------------------------------------

  /** Whatever stands behind the bytes counted by Length changes nothing: another coalesced packet, or
      padding of the datagram. */
  lemma TrailingBytesIgnored(c: Suite, data: seq<byte>, rest: seq<byte>)
    requires Laws(c) && ParseHeader(data).Some?
    ensures var end := ParseHeader(data).value.off + |ParseHeader(data).value.protected|;
            SniOfPacket(c, data[..end] + rest) == SniOfPacket(c, data)
  {
    hide ParseHeader, InitialKeys, OpenAndScan, Sample, XorAll, Bits.Xor, Bits.And;
    var h := ParseHeader(data).value;
    HeaderLocal(data, rest);
    var end := h.off + |h.protected|;
    var other := data[..end] + rest;
    assert other[0] == data[0] && other[1..h.off] == data[1..h.off];
  }

  lemma HeaderLocal(data: seq<byte>, rest: seq<byte>)
    requires ParseHeader(data).Some?
    ensures var h := ParseHeader(data).value;
            ParseHeader(data[..h.off + |h.protected|] + rest) == Some(h)
  {
    hide Tail;
    var h := ParseHeader(data).value;
    var dcid, scid, t := CutLong(data);
    hide ParseHeader, LongHeader;
    ParseLong(data[..5], dcid, scid, t);
    TailLocal(|data|, dcid, t, rest);
    var cut := h.off + |h.protected| - (|data| - |t|);
    LongHeaderCut(data[..5], dcid, scid, t, cut, rest);
    ParseLong(data[..5], dcid, scid, t[..cut] + rest);
  }

  lemma CutLong(data: seq<byte>) returns (dcid: seq<byte>, scid: seq<byte>, t: seq<byte>)
    requires ParseHeader(data).Some?
    ensures |data| >= 5 && |dcid| < 0x100 && |scid| < 0x100
    ensures data == LongHeader(data[..5], dcid, scid, t) && |data| == 7 + |dcid| + |scid| + |t|
  {
    hide Tail;
    var s;
    dcid, s := Vec8(data[5..]).value.0, Vec8(data[5..]).value.1;
    scid, t := Vec8(s).value.0, Vec8(s).value.1;
    PutRead8(data[5..]);
    PutRead8(s);
    assert data == data[..5] + data[5..];
  }

  /** The first five octets and two connection IDs, then t. */
  function LongHeader(five: seq<byte>, dcid: seq<byte>, scid: seq<byte>, t: seq<byte>): seq<byte>
    requires |five| == 5 && |dcid| < 0x100 && |scid| < 0x100
  {
    five + PutVec8(dcid, PutVec8(scid, t))
  }

  lemma LongHeaderCut(five: seq<byte>, dcid: seq<byte>, scid: seq<byte>, t: seq<byte>, cut: nat, rest: seq<byte>)
    requires |five| == 5 && |dcid| < 0x100 && |scid| < 0x100 && cut <= |t|
    ensures |LongHeader(five, dcid, scid, t)| == 7 + |dcid| + |scid| + |t|
    ensures LongHeader(five, dcid, scid, t)[..7 + |dcid| + |scid| + cut] + rest
         == LongHeader(five, dcid, scid, t[..cut] + rest)
  {
    var front := five + [U8(|dcid|)] + dcid + [U8(|scid|)] + scid;
    assert LongHeader(five, dcid, scid, t) == front + t;
    assert LongHeader(five, dcid, scid, t[..cut] + rest) == front + t[..cut] + rest;
  }

  /** A v1 Initial long header. */
  predicate IsInitial(five: seq<byte>)
    requires |five| == 5
  {
    five[0] >= 0x80 && five[1..5] == [0, 0, 0, 1] && five[0] as int / 0x10 % 4 == 0
  }

  lemma ParseLong(five: seq<byte>, dcid: seq<byte>, scid: seq<byte>, t: seq<byte>)
    requires |five| == 5 && |dcid| < 0x100 && |scid| < 0x100
    ensures ParseHeader(LongHeader(five, dcid, scid, t))
         == if IsInitial(five) then Tail(7 + |dcid| + |scid| + |t|, dcid, t) else None
  {
    hide Tail;
    var data := LongHeader(five, dcid, scid, t);
    DropAppend(five, PutVec8(dcid, PutVec8(scid, t)));
    assert data[1..5] == five[1..5];
    ReadPut8(dcid, PutVec8(scid, t));
    ReadPut8(scid, t);
  }

  lemma TailLocal(size: nat, dcid: seq<byte>, t: seq<byte>, rest: seq<byte>)
    requires |t| + 5 < size && Tail(size, dcid, t).Some?
    ensures var h := Tail(size, dcid, t).value;
            var cut := h.off + |h.protected| - (size - |t|);
            0 <= cut <= |t| && Tail(size - |t| + cut + |rest|, dcid, t[..cut] + rest) == Some(h)
  {
    hide Varint.ReadVarint;
    var h := Tail(size, dcid, t).value;
    var (tokenLen, n) := ReadVarint(t);
    var k := n + tokenLen;
    var u := t[k..];
    var (length, m) := ReadVarint(u);
    var cut := k + m + length;
    var t' := t[..cut] + rest;
    assert t'[..n] == t[..n];
    VarintLocal(t, t');
    var u' := u[..m + length] + rest;
    assert t'[k..] == u';
    assert u'[..m] == u[..m];
    VarintLocal(u, u');
    assert u'[m..m + length] == u[m..m + length];
  }

  /** A varint is read from its own octets only. */
  lemma VarintLocal(s: seq<byte>, t: seq<byte>)
    requires var n := ReadVarint(s).1; n != 0 && |t| >= n && t[..n] == s[..n]
    ensures ReadVarint(t) == ReadVarint(s)
  {
    assert t[0] == t[..ReadVarint(s).1][0] == s[0];
    ReadIsBE(s);
    var n := ReadVarint(s).1;
    assert ReadVarint(t).1 == n;
    ReadIsBE(t);
    assert t[1..n] == t[..n][1..] && s[1..n] == s[..n][1..];
  }
}
