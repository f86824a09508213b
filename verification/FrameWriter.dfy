/** Frames as section 19 of RFC 9000 writes them, and what the scan makes of them. */
module FrameWriter {
  import opened Bytes
  import opened Varint
  import opened Frames
  import ClientHello

  /** A value and the width its sender chose for it. */
  datatype Vi = Vi(v: nat, w: nat)

  datatype Frame =
    | Padding(n: nat)
    | Ping
    | Ack(ecn: bool, largest: Vi, delay: Vi, countWidth: nat, first: Vi, ranges: seq<(Vi, Vi)>, counts: seq<Vi>)
    | Crypto(offset: Vi, lengthWidth: nat, data: seq<byte>)
    | Stream(fin: bool, id: Vi, streamOffset: Option<Vi>, lengthWidth: nat, payload: seq<byte>)

  ghost predicate Legal(x: Vi) {
    Fits(x.v, x.w)
  }

  function PutVi(x: Vi, rest: seq<byte>): seq<byte>
    requires Legal(x)
  {
    EncodeVarint(x.v, x.w) + rest
  }

  function PutVis(xs: seq<Vi>, rest: seq<byte>): seq<byte>
    requires forall x <- xs :: Legal(x)
  {
    if xs == [] then rest
    else
      assert Legal(xs[0]);
      PutVi(xs[0], PutVis(xs[1..], rest))
  }

  function Zeros(n: nat, rest: seq<byte>): seq<byte> {
    if n == 0 then rest else [0x00] + Zeros(n - 1, rest)
  }

  /** Gap and length of every ACK range. */
  function Flat(ranges: seq<(Vi, Vi)>): (r: seq<Vi>)
    ensures |r| == 2 * |ranges|
  {
    if ranges == [] then [] else [ranges[0].0, ranges[0].1] + Flat(ranges[1..])
  }

  /** Every varint behind the range count of an ACK frame. */
  function AckTail(f: Frame): seq<Vi>
    requires f.Ack?
  {
    [f.first] + Flat(f.ranges) + f.counts
  }

  ghost predicate LegalFrame(f: Frame) {
    match f
    case Padding(n) => n > 0
    case Ping => true
    case Ack(ecn, largest, delay, countWidth, _, ranges, counts) =>
      && Legal(largest) && Legal(delay) && Legal(Vi(|ranges|, countWidth))
      && |counts| == (if ecn then 3 else 0)
      && (forall x <- AckTail(f) :: Legal(x))
    case Crypto(offset, lengthWidth, data) => Legal(offset) && Legal(Vi(|data|, lengthWidth))
    case Stream(_, id, offset, lengthWidth, payload) =>
      Legal(id) && (offset.Some? ==> Legal(offset.value)) && Legal(Vi(|payload|, lengthWidth))
  }

  function StreamHead(f: Frame): seq<Vi>
    requires f.Stream?
  {
    [f.id] + if f.streamOffset.Some? then [f.streamOffset.value] else []
  }

  /** The type octet: OFF is 0x04, LEN 0x02, FIN 0x01. */
  function StreamType(f: Frame): byte
    requires f.Stream?
  {
    0x08 + (if f.streamOffset.Some? then 0x04 else 0) + 0x02 + (if f.fin then 0x01 else 0)
  }

  /** A frame, then rest. */
  function FrameBytes(f: Frame, rest: seq<byte>): seq<byte>
    requires LegalFrame(f)
  {
    match f
    case Padding(n) => Zeros(n, rest)
    case Ping => [0x01] + rest
    case Ack(ecn, largest, delay, countWidth, _, ranges, _) =>
      [if ecn then 0x03 else 0x02]
        + PutVis([largest, delay], PutVi(Vi(|ranges|, countWidth), PutVis(AckTail(f), rest)))
    case Crypto(offset, lengthWidth, data) =>
      [0x06] + PutVis([offset], PutVi(Vi(|data|, lengthWidth), data + rest))
    case Stream(_, _, _, lengthWidth, payload) =>
      [StreamType(f)] + PutVis(StreamHead(f), PutVi(Vi(|payload|, lengthWidth), payload + rest))
  }

  function FramesBytes(fs: seq<Frame>, rest: seq<byte>): seq<byte>
    requires forall f <- fs :: LegalFrame(f)
  {
    if fs == [] then rest
    else
      assert LegalFrame(fs[0]);
      FrameBytes(fs[0], FramesBytes(fs[1..], rest))
  }

  /** The name in the first CRYPTO frame whose data yields a non-empty one. */
  function FirstCryptoName(fs: seq<Frame>): Outcome {
    if fs == [] then NotFound
    else
      match NameOf(fs[0])
      case Some(name) => Found(name)
      case None => FirstCryptoName(fs[1..])
  }

  function NameOf(f: Frame): Option<seq<byte>> {
    if f.Crypto? && ClientHello.SniOf(f.data) != Some([]) then ClientHello.SniOf(f.data) else None
  }

  /** Up to the CRYPTO frame that yields the name, every PING has at least four octets of PADDING behind it. */
  ghost predicate PingsPadded(fs: seq<Frame>)
    decreases |fs|
  {
    fs == [] || NameOf(fs[0]).Some?
    || ((fs[0].Ping? ==> |fs| > 1 && fs[1].Padding? && fs[1].n >= 4) && PingsPadded(fs[1..]))
  }

  // ----- Reading back what is written --------------------------------------

  lemma ReadVi(x: Vi, rest: seq<byte>)
    requires Legal(x)
    ensures ReadVarint(PutVi(x, rest)) == (x.v, x.w)
    ensures PutVi(x, rest)[x.w..] == rest
  {
    ReadInverse(x.v, x.w, rest);
  }

  /** A vector behind its length. */
  lemma ReadViVector(x: Vi, v: seq<byte>, rest: seq<byte>)
    requires Legal(x) && |v| == x.v
    ensures var s := PutVi(x, v + rest);
            && ReadVarint(s) == (x.v, x.w) && |s| == x.w + x.v + |rest|
            && s[x.w..x.w + x.v] == v && s[x.w + x.v..] == rest
  {
    hide Varint.ReadVarint, Legal;
    var s := PutVi(x, v + rest);
    ReadVi(x, v + rest);
    hide Varint.EncodeVarint, PutVi;
    SliceSlice(s, x.w, 0, |v|);
    SliceSlice(s, x.w, |v|, |v|);
    DropAppend(v, rest);
  }

  lemma {:induction false} SkipVis(xs: seq<Vi>, rest: seq<byte>)
    requires forall x <- xs :: Legal(x)
    ensures SkipVarints(PutVis(xs, rest), |xs|) == Some(rest)
  {
    hide Varint.ReadVarint, Varint.EncodeVarint;
    if xs != [] {
      ReadVi(xs[0], PutVis(xs[1..], rest));
      SkipVis(xs[1..], rest);
    }
  }

  lemma {:induction false} ScanZeros(n: nat, rest: seq<byte>)
    ensures Scan(Zeros(n, rest)) == Scan(rest)
  {
    hide FrameTurn, SkipZeros;
    if n > 0 {
      var tail := Zeros(n - 1, rest);
      ScanZeros(n - 1, rest);
      DropAppend([0x00], tail);
      ScanSkipZeros(tail);
      ZeroTurn(tail);
    }
  }

  lemma ZeroTurn(s: seq<byte>)
    ensures FrameTurn(0x00, s) == Skip(SkipZeros(s))
  {
  }

  lemma ScanSkipZeros(s: seq<byte>)
    ensures Scan(SkipZeros(s)) == Scan(s)
  {
    hide FrameTurn;
    if s != [] && s[0] == 0 {
      ZeroTurn(s[1..]);
    }
  }

  lemma AckTurn(f: Frame, rest: seq<byte>)
    requires f.Ack? && LegalFrame(f)
    ensures var s := FrameBytes(f, rest); FrameTurn(s[0], s[1..]) == Skip(rest)
  {
    hide Varint.ReadVarint, Varint.EncodeVarint, SkipVarints, PutVis, CryptoData, StreamData, SkipZeros;
    var tail := PutVis(AckTail(f), rest);
    var count := PutVi(Vi(|f.ranges|, f.countWidth), tail);
    var s := FrameBytes(f, rest);
    assert s[1..] == PutVis([f.largest, f.delay], count);
    SkipVis([f.largest, f.delay], count);
    ReadVi(Vi(|f.ranges|, f.countWidth), tail);
    SkipVis(AckTail(f), rest);
    assert |AckTail(f)| == 1 + 2 * |f.ranges| + if f.ecn then 3 else 0;
  }

  lemma StreamBits(f: Frame)
    requires f.Stream?
    ensures var t := StreamType(f);
            t > 0x06 && Bit(t, 0x08) && Bit(t, 0x02) && (Bit(t, 0x04) <==> f.streamOffset.Some?)
  {
  }

  lemma StreamDataRead(width: nat, payload: seq<byte>, rest: seq<byte>)
    requires Legal(Vi(|payload|, width))
    ensures StreamData(PutVi(Vi(|payload|, width), payload + rest)) == Skip(rest)
  {
    hide Varint.ReadVarint, Varint.EncodeVarint;
    var s := PutVi(Vi(|payload|, width), payload + rest);
    ReadVi(Vi(|payload|, width), payload + rest);
    SliceSlice(s, width, 0, |payload|);
    DropAppend(payload, rest);
  }

  lemma StreamTurn(f: Frame, rest: seq<byte>)
    requires f.Stream? && LegalFrame(f)
    ensures var s := FrameBytes(f, rest); FrameTurn(s[0], s[1..]) == Skip(rest)
  {
    StreamBits(f);
    hide Varint.ReadVarint, Varint.EncodeVarint, SkipVarints, PutVis, CryptoData, StreamData, AckRanges, SkipZeros,
         Bit, StreamType;
    var data := PutVi(Vi(|f.payload|, f.lengthWidth), f.payload + rest);
    var head := StreamHead(f);
    assert forall x <- head :: Legal(x);
    DropAppend([StreamType(f)], PutVis(head, data));
    SkipVis(head, data);
    StreamDataRead(f.lengthWidth, f.payload, rest);
  }

  lemma CryptoTurn(f: Frame, rest: seq<byte>)
    requires f.Crypto? && LegalFrame(f)
    ensures var s := FrameBytes(f, rest);
            FrameTurn(s[0], s[1..]) == (match NameOf(f) case Some(name) => Return(Found(name)) case None => Skip(rest))
  {
    hide Varint.ReadVarint, Varint.EncodeVarint, SkipVarints, PutVis, AckRanges, StreamData, SkipZeros,
         ClientHello.SniOf;
    var length := Vi(|f.data|, f.lengthWidth);
    var data := PutVi(length, f.data + rest);
    var s := FrameBytes(f, rest);
    assert s[1..] == PutVis([f.offset], data);
    SkipVis([f.offset], data);
    ReadVi(length, f.data + rest);
    SliceSlice(data, length.w, 0, |f.data|);
  }

  lemma ZeroVarint(t: seq<byte>)
    ensures ReadVarint([0x00] + t) == (0, 1) && ([0x00] + t)[1..] == t
  {
    PutOne(0, t);
    ReadVi(Vi(0, 1), t);
  }

  lemma {:induction false} SkipZeroVarints(n: nat, rest: seq<byte>, k: nat)
    requires k <= n
    ensures SkipVarints(Zeros(n, rest), k) == Some(Zeros(n - k, rest))
    decreases k
  {
    hide Varint.ReadVarint;
    if k > 0 {
      ZeroVarint(Zeros(n - 1, rest));
      SkipZeroVarints(n - 1, rest, k - 1);
    }
  }

  /** Read as an ACK, a PING takes four octets of PADDING for its fields, and the scan goes on behind them. */
  lemma PingBeforePadding(n: nat, rest: seq<byte>)
    requires n >= 4
    ensures Scan([0x01] + Zeros(n, rest)) == Scan(rest)
  {
    hide FrameTurn, Scan, Zeros;
    ZerosTurn(n, rest);
    var s := [0x01] + Zeros(n, rest);
    DropAppend([0x01], Zeros(n, rest));
    ScanAt(s, 0);
    assert s[0..] == s;
    ScanZeros(n - 4, rest);
  }

  lemma ZerosTurn(n: nat, rest: seq<byte>)
    requires n >= 4
    ensures FrameTurn(0x01, Zeros(n, rest)) == Skip(Zeros(n - 4, rest))
  {
    hide Varint.ReadVarint, SkipVarints, SkipZeros, CryptoData, StreamData, Bit;
    SkipZeroVarints(n, rest, 2);
    ZeroVarint(Zeros(n - 3, rest));
    SkipZeroVarints(n - 3, rest, 1);
  }

  /** For every list of legal frames, with every legal choice of varint widths and every PING in front of the name
      padded: the scan returns the name in the first CRYPTO frame that yields one, and otherwise goes on behind the
      list. */
  lemma {:induction false} ScanFrames(fs: seq<Frame>, rest: seq<byte>)
    requires (forall f <- fs :: LegalFrame(f)) && PingsPadded(fs)
    ensures Scan(FramesBytes(fs, rest)) == if FirstCryptoName(fs).Found? then FirstCryptoName(fs) else Scan(rest)
    decreases |fs|
  {
    hide FrameTurn, NameOf, LegalFrame;
    if fs != [] {
      var f := fs[0];
      assert LegalFrame(f);
      if f.Ping? {
        PaddedPing(fs, rest);
        ScanFrames(fs[2..], rest);
      } else {
        if NameOf(f).None? {
          ScanFrames(fs[1..], rest);
        }
        FrameDone(f, FramesBytes(fs[1..], rest));
      }
    }
  }

  /** A PING and its PADDING at the head of a list change nothing. */
  lemma PaddedPing(fs: seq<Frame>, rest: seq<byte>)
    requires (forall f <- fs :: LegalFrame(f)) && PingsPadded(fs) && fs != [] && fs[0].Ping?
    ensures |fs| >= 2 && FirstCryptoName(fs) == FirstCryptoName(fs[2..]) && PingsPadded(fs[2..])
    ensures Scan(FramesBytes(fs, rest)) == Scan(FramesBytes(fs[2..], rest))
  {
    hide FrameTurn, ClientHello.SniOf, Scan;
    var n := fs[1].n;
    assert fs[1..][1..] == fs[2..] && fs[1..][0] == fs[1];
    PingBeforePadding(n, FramesBytes(fs[2..], rest));
  }

  lemma FrameBytesNonEmpty(f: Frame, rest: seq<byte>)
    requires LegalFrame(f)
    ensures FrameBytes(f, rest) != []
  {
  }

  lemma FrameDone(f: Frame, rest: seq<byte>)
    requires LegalFrame(f) && !f.Ping?
    ensures Scan(FrameBytes(f, rest)) == match NameOf(f) case Some(name) => Found(name) case None => Scan(rest)
  {
    hide FrameTurn;
    var s := FrameBytes(f, rest);
    FrameBytesNonEmpty(f, rest);
    match f
    case Padding(n) => ScanZeros(n, rest);
    case Ack(_, _, _, _, _, _, _) => AckTurn(f, rest);
    case Crypto(_, _, _) => CryptoTurn(f, rest);
    case Stream(_, _, _, _, _) => StreamTurn(f, rest);
  }

  /** A packet of legal frames never makes the scan panic, and yields a name iff a CRYPTO frame holds one. */
  lemma ScanPacket(fs: seq<Frame>)
    requires (forall f <- fs :: LegalFrame(f)) && PingsPadded(fs)
    ensures Scan(FramesBytes(fs, [])) == FirstCryptoName(fs)
    ensures FirstCryptoName(fs).Found? <==> exists f <- fs :: NameOf(f).Some?
  {
    ScanFrames(fs, []);
    NamedIff(fs);
  }

  lemma {:induction false} NamedIff(fs: seq<Frame>)
    ensures FirstCryptoName(fs).Found? <==> exists f <- fs :: NameOf(f).Some?
    ensures !FirstCryptoName(fs).Panic?
  {
    hide NameOf;
    if fs != [] {
      assert fs == [fs[0]] + fs[1..];
      NamedIff(fs[1..]);
    }
  }

  // ----- Where the scan departs from the standard --------------------------

  /** t is what is left of s at the start of some turn. */
  ghost predicate Reaches(s: seq<byte>, t: seq<byte>)
    decreases |s|
  {
    || s == t
    || (s != [] && FrameTurn(s[0], s[1..]).Skip? && Reaches(FrameTurn(s[0], s[1..]).rest, t))
  }

  /** A CRYPTO frame whose declared length fits the bytes left in front of the length field but not those
      left behind it. */
  ghost predicate Overruns(t: seq<byte>) {
    && t != [] && t[0] == 0x06
    && SkipVarints(t[1..], 1).Some?
    && var u := SkipVarints(t[1..], 1).value;
       var (len, n) := ReadVarint(u);
       n != 0 && |u| - n < len <= |u|
  }

  /** The length check in front of the advance lets the slice run past the end exactly on the plaintexts in
      which the scan meets such a frame. */
  lemma {:induction false} PanicsIff(s: seq<byte>)
    ensures Scan(s) == Panic <==> exists t :: Reaches(s, t) && Overruns(t)
    decreases |s|
  {
    hide Varint.ReadVarint, SkipVarints, SkipZeros, ClientHello.SniOf;
    if s != [] {
      assert Reaches(s, s);
      var turn := FrameTurn(s[0], s[1..]);
      assert Overruns(s) <==> turn == Return(Panic);
      if turn.Skip? {
        PanicsIff(turn.rest);
        assert forall t :: Reaches(turn.rest, t) ==> Reaches(s, t);
        assert forall t :: Reaches(s, t) && Overruns(t) ==> Reaches(turn.rest, t);
      } else {
        assert forall t :: Reaches(s, t) ==> t == s;
      }
    } else {
      assert forall t :: Reaches(s, t) ==> t == [];
    }
  }

  /** Three octets are enough: type CRYPTO, offset 0, length 1. */
  lemma ShortCryptoPanics()
    ensures Scan([0x06, 0x00, 0x01]) == Panic
  {
    var s: seq<byte> := [0x06, 0x00, 0x01];
    assert s[1..] == [0x00, 0x01];
    SkipAt(s[1..], 0);
    assert s[1..][0..] == s[1..] && s[1..][1..] == [0x01];
  }

  /** PING, which has no fields in section 19.2 of RFC 9000, is scanned as an ACK frame. */
  lemma PingScannedAsAck(rest: seq<byte>)
    ensures Scan([0x01] + rest) == Scan([0x02] + rest)
  {
    hide AckRanges, SkipVarints;
    assert ([0x01] + rest)[1..] == rest && ([0x02] + rest)[1..] == rest;
  }

  lemma {:induction false} SkipLeavesTail(s: seq<byte>, k: nat) returns (n: nat)
    requires SkipVarints(s, k).Some?
    ensures k <= n <= |s| && SkipVarints(s, k).value == s[n..]
    decreases k
  {
    hide Varint.ReadVarint;
    if k == 0 {
      n := 0;
    } else {
      var w := ReadVarint(s).1;
      var i := SkipLeavesTail(s[w..], k - 1);
      n := w + i;
      SliceSlice(s, w, i, i);
    }
  }

  lemma {:induction false} ZerosTail(m: nat, i: nat)
    requires i <= m
    ensures |Zeros(m, [])| == m && Zeros(m, [])[i..] == Zeros(m - i, [])
  {
    if m > 0 {
      ZerosTail(m - 1, if i > 0 then i - 1 else 0);
    }
  }

  /** So a PING right in front of the CRYPTO frame hides it, whatever its offset, widths and ClientHello, and
      however much PADDING follows. */
  lemma PingHidesCrypto(f: Frame, m: nat)
    requires f.Crypto? && LegalFrame(f)
    ensures Scan(FrameBytes(f, Zeros(m, []))) == FirstCryptoName([f])
    ensures Scan([0x01] + FrameBytes(f, Zeros(m, []))) == NotFound
  {
    var padding := Zeros(m, []);
    hide FrameTurn, AckRanges, ClientHello.SniOf, NameOf;
    ScanZeros(m, []);
    FrameDone(f, padding);
    hide Varint.ReadVarint, Varint.EncodeVarint, Zeros;
    var length := Vi(|f.data|, f.lengthWidth);
    var tail := PutVi(length, f.data + padding);
    var s := [0x01] + FrameBytes(f, padding);
    assert PutVis([f.offset], tail) == PutVi(f.offset, tail) by {
      assert [f.offset][1..] == [];
    }
    PutOne(6, PutVi(f.offset, tail));
    assert s[1..] == PutVis([Vi(6, 1), f.offset], tail) by {
      assert [Vi(6, 1), f.offset][1..] == [f.offset];
    }
    ScanAt(s, 0);
    assert s[0..] == s;
    PingTurn(Vi(6, 1), f.offset, length, f.data, m);
  }

  /** Read as an ACK range count, the length of the data asks for more varints than start in the data: the scan
      fails there, or goes on within the PADDING. */
  lemma PingTurn(a: Vi, b: Vi, length: Vi, data: seq<byte>, m: nat)
    requires Legal(a) && Legal(b) && Legal(length) && length.v == |data|
    ensures var turn := FrameTurn(0x01, PutVis([a, b], PutVi(length, data + Zeros(m, []))));
            turn == Return(NotFound) || (turn.Skip? && Scan(turn.rest) == NotFound)
  {
    hide Varint.ReadVarint, Varint.EncodeVarint, SkipVarints, PutVis, PutVi, Zeros, CryptoData, StreamData, SkipZeros,
         Bit, Scan;
    var s := data + Zeros(m, []);
    var tail := PutVi(length, s);
    SkipVis([a, b], tail);
    ReadVi(length, s);
    if SkipVarints(s, 1 + 2 * |data|).Some? {
      WithinPadding(data, m);
    }
  }

  lemma WithinPadding(data: seq<byte>, m: nat)
    requires SkipVarints(data + Zeros(m, []), 1 + 2 * |data|).Some?
    ensures Scan(SkipVarints(data + Zeros(m, []), 1 + 2 * |data|).value) == NotFound
  {
    hide *;
    ScanNothing();
    var n := SkipLeavesTail(data + Zeros(m, []), 1 + 2 * |data|);
    ZerosTail(m, 0);
    DropPast(data, Zeros(m, []), n);
    ZerosTail(m, n - |data|);
    ScanZeros(m - (n - |data|), []);
  }

  lemma ScanNothing()
    ensures Scan([]) == NotFound
  {
  }

  lemma DropPast(a: seq<byte>, b: seq<byte>, n: nat)
    requires |a| <= n <= |a| + |b|
    ensures (a + b)[n..] == b[n - |a|..]
  {
  }

  lemma PutOne(v: nat, rest: seq<byte>)
    requires v < 0x40
    ensures Fits(v, 1) && PutVi(Vi(v, 1), rest) == [v as byte] + rest
  {
    assert Radix(1) == 0x100;
    assert ToBE(v / 256, 0) == [];
    assert ToBE(v, 1) == [v as byte];
  }
}
