/** The frames of a QUIC Initial packet, section 19 of RFC 9000, and the scan for the ClientHello. */
module Frames {
  import opened Bytes
  import opened Varint
  import ClientHello

  /** What the scan ends with. Panic is a slice expression out of range. */
  datatype Outcome = Found(name: seq<byte>) | NotFound | Panic

  /** What one frame makes the scan do. */
  datatype Turn = Skip(rest: seq<byte>) | Return(outcome: Outcome)

  // ----- The scan as a function of the remaining bytes ----------------------

  /** s without its first k varints; None when it has fewer. */
  function SkipVarints(s: seq<byte>, k: nat): (r: Option<seq<byte>>)
    ensures r.Some? ==> |r.value| + k <= |s|
    decreases k
  {
    if k == 0 then Some(s)
    else
      var n := ReadVarint(s).1;
      if n == 0 then None else SkipVarints(s[n..], k - 1)
  }

  lemma {:induction false} SkipSum(s: seq<byte>, a: nat, b: nat)
    ensures SkipVarints(s, a + b)
         == match SkipVarints(s, a) case None => None case Some(u) => SkipVarints(u, b)
    decreases a
  {
    if a > 0 {
      var n := ReadVarint(s).1;
      if n != 0 {
        SkipSum(s[n..], a - 1, b);
      }
    }
  }

  /** s without its leading zeros. */
  function SkipZeros(s: seq<byte>): (r: seq<byte>)
    ensures |r| <= |s|
  {
    if s != [] && s[0] == 0 then SkipZeros(s[1..]) else s
  }

  /** The verdict on the data of a CRYPTO frame. */
  function Inspect(data: seq<byte>, rest: seq<byte>): Turn {
    match ClientHello.SniOf(data)
    case Some(name) => if name != [] then Return(Found(name)) else Skip(rest)
    case None => Skip(rest)
  }

  /** A CRYPTO frame from its length on: the length is checked against the bytes that include it. */
  function CryptoData(s: seq<byte>): Turn {
    var (len, n) := ReadVarint(s);
    if n == 0 || |s| < len then Return(NotFound)
    else if |s| < n + len then Return(Panic)
    else Inspect(s[n..n + len], s[n + len..])
  }

  function Continue(r: Option<seq<byte>>): Turn {
    match r
    case None => Return(NotFound)
    case Some(rest) => Skip(rest)
  }

  /** An ACK frame from its range count on. */
  function AckRanges(s: seq<byte>, ecn: bool): Turn {
    var (count, n) := ReadVarint(s);
    if n == 0 then Return(NotFound)
    else Continue(SkipVarints(s[n..], 1 + 2 * count + if ecn then 3 else 0))
  }

  /** A STREAM frame with an explicit length, from that length on. */
  function StreamData(s: seq<byte>): Turn {
    var (len, n) := ReadVarint(s);
    if n == 0 || |s| < n + len then Return(NotFound)
    else Skip(s[n + len..])
  }

  /** Bit k of a frame type. */
  predicate Bit(frameType: byte, mask: nat)
    requires mask > 0
  {
    frameType as int / mask % 2 == 1
  }

  /** The frame behind frameType. */
  function FrameTurn(frameType: byte, s: seq<byte>): Turn {
    if frameType == 0x00 then Skip(SkipZeros(s))
    else if frameType == 0x06 then
      match SkipVarints(s, 1)
      case None => Return(NotFound)
      case Some(u) => CryptoData(u)
    else if 0x01 <= frameType <= 0x03 then
      match SkipVarints(s, 2)
      case None => Return(NotFound)
      case Some(u) => AckRanges(u, frameType == 0x03)
    else if Bit(frameType, 0x08) then
      match SkipVarints(s, if Bit(frameType, 0x04) then 2 else 1)
      case None => Return(NotFound)
      case Some(u) => if Bit(frameType, 0x02) then StreamData(u) else Skip([])
    else Return(NotFound)
  }

  function Scan(s: seq<byte>): Outcome
    decreases |s|
  {
    if s == [] then NotFound
    else
      match FrameTurn(s[0], s[1..])
      case Skip(rest) => Scan(rest)
      case Return(outcome) => outcome
  }

  // ----- The scan ----------------------------------------------------------

  /** Reads and drops the varint at off. */
  method Drop(plaintext: seq<byte>, off: nat) returns (ok: bool, next: nat)
    requires off <= |plaintext|
    ensures ok ==> off < next <= |plaintext|
    ensures SkipVarints(plaintext[off..], 1) == if ok then Some(plaintext[next..]) else None
  {
    var (_, n) := ReadVarint(plaintext[off..]);
    SkipAt(plaintext, off);
    if n == 0 {
      return false, off;
    }
    return true, off + n;
  }

  lemma SkipAt(s: seq<byte>, off: nat)
    requires off <= |s|
    ensures var n := ReadVarint(s[off..]).1;
            SkipVarints(s[off..], 1) == if n == 0 then None else Some(s[off + n..])
  {
    var n := ReadVarint(s[off..]).1;
    assert s[off..][n..] == s[off + n..];
    assert SkipVarints(s[off + n..], 0) == Some(s[off + n..]);
  }

  /** n more varints behind the first i; without them there is no run of k. */
  lemma SkipMore(s: seq<byte>, i: nat, t: seq<byte>, n: nat, k: nat)
    requires SkipVarints(s, i) == Some(t) && i + n <= k
    ensures SkipVarints(s, i + n) == SkipVarints(t, n)
    ensures SkipVarints(t, n) == None ==> SkipVarints(s, k) == None
  {
    hide SkipVarints;
    SkipSum(s, i, n);
    SkipSum(s, i, k - i);
    SkipSum(t, n, k - i - n);
  }

  /** Drops k varints: the fields in front of and behind the ACK ranges, and each range with its gap. */
  method DropEach(plaintext: seq<byte>, off: nat, k: nat) returns (ok: bool, next: nat)
    requires off <= |plaintext|
    ensures ok ==> off + k <= next <= |plaintext|
    ensures SkipVarints(plaintext[off..], k) == if ok then Some(plaintext[next..]) else None
  {
    next := off;
    ghost var s := plaintext[off..];
    assert SkipVarints(s, 0) == Some(s);
    hide SkipVarints, Varint.ReadVarint;
    for i := 0 to k
      invariant off + i <= next <= |plaintext|
      invariant SkipVarints(s, i) == Some(plaintext[next..])
    {
      SkipMore(s, i, plaintext[next..], 1, k);
      ok, next := Drop(plaintext, next);
      if !ok {
        return false, next;
      }
    }
    ok := true;
  }

  /** The loop over the ACK ranges. However large the count, it makes at most half as many full turns as
      there are bytes left. */
  method DropRanges(plaintext: seq<byte>, off: nat, count: nat) returns (ok: bool, next: nat, turns: nat)
    requires off <= |plaintext|
    ensures off <= next <= |plaintext|
    ensures turns <= count && 2 * turns <= |plaintext| - off
    ensures SkipVarints(plaintext[off..], 2 * count) == if ok then Some(plaintext[next..]) else None
  {
    next, turns := off, 0;
    ghost var s := plaintext[off..];
    assert SkipVarints(s, 0) == Some(s);
    hide SkipVarints, Varint.ReadVarint;
    while turns < count
      invariant off + 2 * turns <= next <= |plaintext| && turns <= count
      invariant SkipVarints(s, 2 * turns) == Some(plaintext[next..])
    {
      SkipMore(s, 2 * turns, plaintext[next..], 2, 2 * count);
      var gapAndRange, behind := DropEach(plaintext, next, 2);
      if !gapAndRange {
        return false, next, turns;
      }
      next, turns := behind, turns + 1;
    }
    ok := true;
  }

  /** An ACK frame behind its type. */
  method DropAck(plaintext: seq<byte>, start: nat, frameType: byte) returns (ok: bool, off: nat)
    requires start <= |plaintext| && 0x01 <= frameType <= 0x03
    ensures ok ==> start < off <= |plaintext|
    ensures FrameTurn(frameType, plaintext[start..]) == Continued(ok, plaintext, off)
  {
    hide SkipVarints, Varint.ReadVarint, SkipZeros, CryptoData, StreamData;
    ok, off := DropEach(plaintext, start, 2);
    if ok {
      ok, off := DropRangesAndCounts(plaintext, off, frameType == 0x03);
    }
  }

  /** What a method that drops a frame reports. */
  ghost function Continued(ok: bool, s: seq<byte>, off: nat): Turn
    requires ok ==> off <= |s|
  {
    if ok then Skip(s[off..]) else Return(NotFound)
  }

  method DropRangesAndCounts(plaintext: seq<byte>, start: nat, ecn: bool) returns (ok: bool, off: nat)
    requires start <= |plaintext|
    ensures ok ==> start < off <= |plaintext|
    ensures AckRanges(plaintext[start..], ecn) == Continued(ok, plaintext, off)
  {
    hide SkipVarints, Varint.ReadVarint;
    var (ackRangeCount, n) := ReadVarint(plaintext[start..]);
    if n == 0 {
      return false, start;
    }
    off := start + n;
    assert plaintext[start..][n..] == plaintext[off..];
    ghost var s := plaintext[off..];
    ghost var tail := if ecn then 3 else 0;
    SkipSum(s, 1, 2 * ackRangeCount);
    SkipSum(s, 1 + 2 * ackRangeCount, tail);
    ok, off := Drop(plaintext, off);
    if !ok {
      return;
    }
    var turns;
    ok, off, turns := DropRanges(plaintext, off, ackRangeCount);
    if !ok {
      return;
    }
    SkipNone(plaintext[off..]);
    if ecn {
      ok, off := DropEach(plaintext, off, 3);
    }
  }

  lemma SkipNone(s: seq<byte>)
    ensures SkipVarints(s, 0) == Some(s)
  {
  }

  /** A frame of the default case, whose type has bit 0x08 set. */
  method DropStream(plaintext: seq<byte>, start: nat, frameType: byte) returns (ok: bool, off: nat)
    requires start <= |plaintext| && frameType > 0x06 && Bit(frameType, 0x08)
    ensures ok ==> start < off <= |plaintext|
    ensures FrameTurn(frameType, plaintext[start..]) == Continued(ok, plaintext, off)
  {
    hide SkipVarints, Varint.ReadVarint, SkipZeros, CryptoData, AckRanges;
    ok, off := DropEach(plaintext, start, if Bit(frameType, 0x04) then 2 else 1);
    if !ok {
      return;
    }
    var dataLen := |plaintext| - off;
    if Bit(frameType, 0x02) {
      var (len, n) := ReadVarint(plaintext[off..]);
      StreamAt(plaintext, off);
      if n == 0 {
        ok := false;
        return;
      }
      dataLen := len;
      off := off + n;
    }
    if |plaintext| - off < dataLen {
      ok := false;
      return;
    }
    off := off + dataLen;
  }

  lemma StreamAt(s: seq<byte>, off: nat)
    requires off <= |s|
    ensures var (len, n) := ReadVarint(s[off..]);
            StreamData(s[off..]) == Continued(n != 0 && off + n + len <= |s|, s, off + n + len)
  {
    hide Varint.ReadVarint;
    var (len, n) := ReadVarint(s[off..]);
    if n != 0 && off + n + len <= |s| {
      assert s[off..][n + len..] == s[off + n + len..];
    }
  }

  /** A CRYPTO frame behind its type: a verdict, or the offset to go on from. */
  method TryCrypto(plaintext: seq<byte>, start: nat) returns (verdict: Option<Outcome>, off: nat)
    requires start <= |plaintext|
    ensures verdict.None? ==> start < off <= |plaintext|
    ensures FrameTurn(0x06, plaintext[start..])
         == match verdict case None => Skip(plaintext[off..]) case Some(outcome) => Return(outcome)
  {
    hide SkipVarints, Varint.ReadVarint, SkipZeros, StreamData, AckRanges, ClientHello.SniOf;
    var ok;
    ok, off := Drop(plaintext, start);
    if !ok {
      return Some(NotFound), off;
    }
    var (dataLen, n) := ReadVarint(plaintext[off..]);
    CryptoAt(plaintext, off);
    if n == 0 || |plaintext| - off < dataLen {
      return Some(NotFound), off;
    }
    off := off + n;
    if off + dataLen > |plaintext| {
      // The slice of the CRYPTO data would end behind the plaintext.
      return Some(Panic), off;
    }
    var data := plaintext[off..off + dataLen];
    var sni := ClientHello.ExtractSniFromClientHello(data);
    if sni.Some? && sni.value != [] {
      return Some(Found(sni.value)), off;
    }
    off := off + dataLen;
    verdict := None;
  }

  lemma CryptoAt(s: seq<byte>, off: nat)
    requires off <= |s|
    ensures var (len, n) := ReadVarint(s[off..]);
            CryptoData(s[off..]) == if n == 0 || |s| - off < len then Return(NotFound)
                                    else if off + n + len > |s| then Return(Panic)
                                    else Inspect(s[off + n..off + n + len], s[off + n + len..])
  {
    hide Varint.ReadVarint, Inspect;
    var (len, n) := ReadVarint(s[off..]);
    if n != 0 && off + n + len <= |s| {
      SliceSlice(s, off, n, n + len);
    }
  }

  method SkipPadding(plaintext: seq<byte>, start: nat) returns (off: nat)
    requires start <= |plaintext|
    ensures start <= off <= |plaintext|
    ensures FrameTurn(0x00, plaintext[start..]) == Skip(plaintext[off..])
  {
    off := start;
    while off < |plaintext| && plaintext[off] == 0x00
      invariant start <= off <= |plaintext|
      invariant SkipZeros(plaintext[off..]) == SkipZeros(plaintext[start..])
    {
      assert plaintext[off..][1..] == plaintext[off + 1..];
      off := off + 1;
    }
  }

  lemma ScanAt(s: seq<byte>, off: nat)
    requires off < |s|
    ensures Scan(s[off..]) == match FrameTurn(s[off], s[off + 1..])
                              case Skip(rest) => Scan(rest)
                              case Return(outcome) => outcome
  {
    hide FrameTurn;
    assert s[off..][1..] == s[off + 1..];
  }

  /** What the switch over the frame type reports: a verdict, or the offset of the next frame. */
  ghost function Reported(verdict: Option<Outcome>, s: seq<byte>, off: nat): Turn
    requires verdict.None? ==> off <= |s|
  {
    if verdict.Some? then Return(verdict.value) else Skip(s[off..])
  }

  /** One turn of the scan. */
  method ScanFrame(plaintext: seq<byte>, start: nat) returns (verdict: Option<Outcome>, off: nat)
    requires start < |plaintext|
    ensures verdict.None? ==> start < off <= |plaintext|
    ensures FrameTurn(plaintext[start], plaintext[start + 1..]) == Reported(verdict, plaintext, off)
  {
    hide SkipVarints, SkipZeros, CryptoData, StreamData, AckRanges;
    verdict, off := None, start + 1;
    var frameType := plaintext[start];
    if frameType == 0x00 {
      off := SkipPadding(plaintext, off);
    } else if frameType == 0x06 {
      verdict, off := TryCrypto(plaintext, off);
    } else {
      var ok;
      if 0x01 <= frameType <= 0x03 {
        ok, off := DropAck(plaintext, off, frameType);
      } else if Bit(frameType, 0x08) {
        ok, off := DropStream(plaintext, off, frameType);
      } else {
        ok := false;
      }
      if !ok {
        verdict := Some(NotFound);
      }
    }
  }

  /** The offset moves forward on every turn, so the scan ends on every input. */
  method ParseCryptoFrames(plaintext: seq<byte>) returns (r: Outcome)
    ensures r == Scan(plaintext)
  {
    var off := 0;
    assert plaintext[0..] == plaintext;
    assert Scan([]) == NotFound;
    hide Scan, FrameTurn;
    while off < |plaintext|
      invariant 0 <= off <= |plaintext|
      invariant Scan(plaintext[off..]) == Scan(plaintext)
    {
      ScanAt(plaintext, off);
      var verdict, next := ScanFrame(plaintext, off);
      if verdict.Some? {
        return verdict.value;
      }
      off := next;
    }
    return NotFound;
  }
}
