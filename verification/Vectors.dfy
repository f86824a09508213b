/** Length-prefixed vectors of TLS and RFC 1035. Writers take the bytes that follow. */
module Vectors {
  import opened Bytes

  /** The vector at the head of s behind a one-octet length, and what follows it. */
  function Vec8(s: seq<byte>): (r: Option<(seq<byte>, seq<byte>)>)
    ensures r.Some? ==> |r.value.1| < |s| && |r.value.0| < 0x100
  {
    if |s| < 1 || |s| < 1 + s[0] as int then None
    else Some((s[1..1 + s[0] as int], s[1 + s[0] as int..]))
  }

  function PutVec8(v: seq<byte>, rest: seq<byte>): seq<byte>
    requires |v| < 0x100
  {
    [U8(|v|)] + (v + rest)
  }

  /** The same behind a two-octet length. */
  function Vec16(s: seq<byte>): (r: Option<(seq<byte>, seq<byte>)>)
    ensures r.Some? ==> |r.value.1| < |s| && |r.value.0| < 0x1_0000
  {
    if |s| < 2 || |s| < 2 + U16(s[..2]) then None
    else Some((s[2..2 + U16(s[..2])], s[2 + U16(s[..2])..]))
  }

  function PutVec16(v: seq<byte>, rest: seq<byte>): seq<byte>
    requires |v| < 0x1_0000
  {
    PutU16(|v|) + (v + rest)
  }

  /** What is written is read back. */
  lemma ReadPut8(v: seq<byte>, rest: seq<byte>)
    requires |v| < 0x100
    ensures Vec8(PutVec8(v, rest)) == Some((v, rest))
  {
    var t := PutVec8(v, rest);
    assert t[1..1 + |v|] == v && t[1 + |v|..] == rest;
  }

  lemma ReadPut16(v: seq<byte>, rest: seq<byte>)
    requires |v| < 0x1_0000
    ensures Vec16(PutVec16(v, rest)) == Some((v, rest))
  {
    var t := PutVec16(v, rest);
    assert t[..2] == PutU16(|v|) && t[2..2 + |v|] == v && t[2 + |v|..] == rest;
  }

  /** What is read spells its input out again. */
  lemma PutRead8(s: seq<byte>)
    requires Vec8(s).Some?
    ensures s == PutVec8(Vec8(s).value.0, Vec8(s).value.1)
  {
  }

  lemma PutRead16(s: seq<byte>)
    requires Vec16(s).Some?
    ensures s == PutVec16(Vec16(s).value.0, Vec16(s).value.1)
  {
    PutU16Inverse(s[..2]);
    assert s == s[..2] + s[2..];
  }

  /** Reads at an offset, in terms of slices of the whole input. */
  lemma Vec8At(s: seq<byte>, off: nat)
    requires off < |s|
    ensures var end := off + 1 + s[off] as int;
            Vec8(s[off..]) == if end <= |s| then Some((s[off + 1..end], s[end..])) else None
  {
    var t := s[off..];
    var n := s[off] as int;
    if off + 1 + n <= |s| {
      assert t[1..1 + n] == s[off + 1..off + 1 + n] && t[1 + n..] == s[off + 1 + n..];
    }
  }

  lemma Vec16At(s: seq<byte>, off: nat)
    requires off + 2 <= |s|
    ensures var end := off + 2 + U16(s[off..off + 2]);
            Vec16(s[off..]) == if end <= |s| then Some((s[off + 2..end], s[end..])) else None
  {
    var t := s[off..];
    assert t[..2] == s[off..off + 2];
    var n := U16(t[..2]);
    if off + 2 + n <= |s| {
      assert t[2..2 + n] == s[off + 2..off + 2 + n] && t[2 + n..] == s[off + 2 + n..];
    }
  }
}
