/** DNS messages: which response fits a query, and the SERVFAIL built from a query (RFC 1035, sections 4.1.1, 4.1.2). */
module DnsMessage {
  import opened Bytes

  /** The bit of value 0x80. */
  predicate TopBit(b: byte) {
    b >= 0x80
  }

  /** validDNSResponse: the ID of the query, and QR set. */
  predicate ValidResponse(query: seq<byte>, response: seq<byte>) {
    && 2 <= |query| && 12 <= |response|
    && response[..2] == query[..2] && TopBit(response[2])
  }

  /** In the octets of section 4.1.1 of RFC 1035: the same ID, and the QR bit. */
  lemma ValidIff(query: seq<byte>, response: seq<byte>)
    ensures ValidResponse(query, response) <==>
            |query| >= 2 && |response| >= 12 && U16(response[0..2]) == U16(query[0..2])
            && response[2] as bv8 & 0x80 != 0
  {
    if |query| >= 2 && |response| >= 12 {
      PutU16Inverse(response[0..2]);
      PutU16Inverse(query[0..2]);
      hide PutU16;
      TopBitIff(response[2]);
    }
  }

  lemma TopBitIff(b: byte)
    ensures TopBit(b) <==> b as bv8 & 0x80 != 0
  {
    var v := b as bv8;
    assert v & 0x80 != 0 <==> v >= 0x80;
    assert v as int == b as int;
  }

  // ----- The question section ------------------------------------------------

  /** What follows the name at the head of s: labels of 1 to 63 octets, then a zero octet or a pointer. */
  function SkipName(s: seq<byte>): (r: Option<seq<byte>>)
    ensures r.Some? ==> |r.value| < |s|
    decreases |s|
  {
    if s == [] then None
    else if s[0] == 0 then Some(s[1..])
    else if s[0] >= 0xc0 then if |s| < 2 then None else Some(s[2..])
    else if s[0] >= 0x40 || |s| < 1 + s[0] as int then None
    else SkipName(s[1 + s[0] as int..])
  }

  function SkipQuestions(s: seq<byte>, n: nat): (r: Option<seq<byte>>)
    ensures r.Some? ==> |r.value| + 5 * n <= |s|
    decreases n
  {
    if n == 0 then Some(s)
    else
      var r := SkipName(s);
      if r.None? || |r.value| < 4 then None else SkipQuestions(r.value[4..], n - 1)
  }

  function QdCount(query: seq<byte>): nat
    requires |query| >= 12
  {
    query[4] as int * 256 + query[5] as int
  }

  /** The header of the answer: QR set, response code replaced, the three record counts zero. */
  function ErrorHeader(h: seq<byte>, rcode: byte): (r: seq<byte>)
    requires |h| == 12
    ensures |r| == 12
  {
    [h[0], h[1], U8(0x80 + h[2] as int % 0x80), U8(h[3] as int / 16 * 16 + rcode as int % 16), h[4], h[5],
     0, 0, 0, 0, 0, 0]
  }

  /** The value dnsErrorResponse computes. */
  function ErrorResponse(query: seq<byte>, rcode: byte): Option<seq<byte>> {
    if |query| < 12 then None
    else
      var rest := SkipQuestions(query[12..], QdCount(query));
      if rest.None? then None
      else Some(ErrorHeader(query[..12], rcode) + query[12..|query| - |rest.value|])
  }

  // ----- dnsErrorResponse ----------------------------------------------------

  /** Offsets of the whole query against suffixes of it. */
  lemma SkipNameAt(s: seq<byte>, end: nat)
    requires end < |s| && 0 < s[end] < 0x40 && end + 1 + s[end] as int <= |s|
    ensures SkipName(s[end..]) == SkipName(s[end + 1 + s[end] as int..])
  {
    var l := s[end] as int;
    assert s[end..][0] == s[end] && s[end..][1 + l..] == s[end + 1 + l..];
  }

  method SkipNameFrom(query: seq<byte>, start: nat) returns (ok: bool, end: nat)
    requires start <= |query|
    ensures var r := SkipName(query[start..]); ok == r.Some? && (ok ==> end <= |query| && query[end..] == r.value)
  {
    end := start;
    while true
      invariant start <= end <= |query|
      invariant SkipName(query[end..]) == SkipName(query[start..])
      decreases |query| - end
    {
      if end >= |query| {
        return false, end;
      }
      var labelLen := query[end] as int;
      assert query[end..][0] == query[end];
      if labelLen == 0 {
        end := end + 1;
        return true, end;
      }
      if labelLen >= 0xc0 {
        if end + 1 >= |query| {
          return false, end;
        }
        end := end + 2;
        return true, end;
      }
      if labelLen >= 0x40 || end + 1 + labelLen > |query| {
        return false, end;
      }
      SkipNameAt(query, end);
      end := end + 1 + labelLen;
    }
  }

  /** The flags as one 16-bit number, octet by octet. */
  lemma FlagOctets(high: byte, low: byte, rcode: byte)
    ensures var flags := high as int * 256 + low as int;
            var qr := if flags < 0x8000 then flags + 0x8000 else flags;
            var r := qr - qr % 16 + rcode as int % 16;
            0 <= r < 0x1_0000 && r / 256 == 0x80 + high as int % 0x80
            && r % 256 == low as int / 16 * 16 + rcode as int % 16
  {
    var flags := high as int * 256 + low as int;
    var qr := if flags < 0x8000 then flags + 0x8000 else flags;
    var r := qr - qr % 16 + rcode as int % 16;
    assert qr % 16 == low as int % 16;
    assert r == (0x80 + high as int % 0x80) * 256 + (low as int / 16 * 16 + rcode as int % 16);
  }

  /** The part of the answer that is rewritten in place. */
  method MarkAsError(response: array<byte>, rcode: byte)
    requires response.Length >= 12
    modifies response
    ensures response[..] == ErrorHeader(old(response[..12]), rcode) + old(response[12..])
  {
    FlagOctets(response[2], response[3], rcode);
    var flags := response[2] as int * 256 + response[3] as int;
    if flags < 0x8000 {
      flags := flags + 0x8000;
    }
    flags := flags - flags % 16;
    flags := flags + rcode as int % 16;
    response[2] := U8(flags / 256);
    response[3] := U8(flags % 256);
    response[6] := 0;
    response[7] := 0;
    response[8] := 0;
    response[9] := 0;
    response[10] := 0;
    response[11] := 0;
    assert response[12..] == old(response[12..]);
    assert response[..12] == ErrorHeader(old(response[..12]), rcode);
  }

  /** The offset after the question section. */
  method QuestionsEnd(query: seq<byte>, qdCount: nat) returns (ok: bool, end: nat)
    requires |query| >= 12
    ensures var r := SkipQuestions(query[12..], qdCount); ok == r.Some? && (ok ==> end == |query| - |r.value|)
    ensures 12 <= end <= |query|
  {
    hide SkipName;
    end := 12;
    for i := 0 to qdCount
      invariant 12 <= end <= |query|
      invariant SkipQuestions(query[end..], qdCount - i) == SkipQuestions(query[12..], qdCount)
    {
      var found, next := SkipNameFrom(query, end);
      if !found || next + 4 > |query| {
        return false, end;
      }
      assert query[next..][4..] == query[next + 4..];
      end := next + 4;
    }
    ok := true;
  }

  method DnsErrorResponse(query: seq<byte>, rcode: byte) returns (r: Option<seq<byte>>)
    ensures r == ErrorResponse(query, rcode)
  {
    hide SkipQuestions, ErrorHeader;
    if |query| < 12 {
      return None;
    }
    var ok, end := QuestionsEnd(query, query[4] as int * 256 + query[5] as int);
    if !ok {
      return None;
    }
    var response := new byte[end](i requires 0 <= i < end => query[i]);
    assert response[..12] == query[..12] && response[12..] == query[12..end];
    MarkAsError(response, rcode);
    return Some(response[..]);
  }
}
