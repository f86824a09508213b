/** The server name of a TLS ClientHello: section 4.1.2 of RFC 8446, section 3 of RFC 6066. */
module ClientHello {
  import opened Bytes
  import opened Vectors

  // ----- What the parser looks for -----------------------------------------

  /** The first entry of a server name list, which must be a host_name. */
  function FirstEntry(list: seq<byte>): Option<seq<byte>> {
    if list == [] || list[0] != 0 then None
    else
      match Vec16(list[1..])
      case None => None
      case Some((name, _)) => Some(name)
  }

  /** The name in the body of a server_name extension. */
  function HostName(body: seq<byte>): Option<seq<byte>> {
    match Vec16(body)
    case None => None
    case Some((list, _)) => FirstEntry(list)
  }

  /** The host name of the first server_name extension of an extension block. */
  function BlockName(block: seq<byte>): Option<seq<byte>>
    decreases |block|
  {
    if |block| < 2 then None
    else
      match Vec16(block[2..])
      case None => None
      case Some((body, rest)) => if U16(block[..2]) == 0 then HostName(body) else BlockName(rest)
  }

  /** The extension block of a ClientHello body: version and random, then four vectors. */
  function Block(hello: seq<byte>): Option<seq<byte>> {
    if |hello| < 34 then None
    else
      match Vec8(hello[34..])
      case None => None
      case Some((_, s1)) => SuitesOn(s1)
  }

  function SuitesOn(s: seq<byte>): Option<seq<byte>> {
    match Vec16(s)
    case None => None
    case Some((_, rest)) => CompressionOn(rest)
  }

  function CompressionOn(s: seq<byte>): Option<seq<byte>> {
    match Vec8(s)
    case None => None
    case Some((_, rest)) => LastVector(rest)
  }

  function LastVector(s: seq<byte>): Option<seq<byte>> {
    match Vec16(s)
    case None => None
    case Some((block, _)) => Some(block)
  }

  /** The handshake message of a TLS record or of bare CRYPTO bytes. */
  function Handshake(data: seq<byte>): Option<seq<byte>> {
    if |data| < 5 then None
    else if data[0] == 0x16 then
      match Vec16(data[3..])
      case None => None
      case Some((hs, _)) => Some(hs)
    else Some(data)
  }

  function NameIn(block: Option<seq<byte>>): Option<seq<byte>> {
    match block
    case None => None
    case Some(b) => BlockName(b)
  }

  /** The server name carried by data. */
  function SniOf(data: seq<byte>): Option<seq<byte>> {
    match Handshake(data)
    case None => None
    case Some(hs) =>
      if |hs| < 4 || hs[0] != 0x01 then None
      else NameIn(Block(hs[4..]))
  }

  // ----- The parser --------------------------------------------------------

  /** Addition of two uint16 values. */
  function Add16(a: nat, b: nat): nat {
    (a + b) % 0x1_0000
  }

  method ExtractSniFromClientHello(data: seq<byte>) returns (r: Option<seq<byte>>)
    ensures r == SniOf(data)
  {
    if |data| < 5 {
      return None;
    }
    var hs := data;
    if data[0] == 0x16 {
      var recordLen := U16(data[3..5]);
      assert data[3..][..2] == data[3..5];
      if |data| < 5 + recordLen {
        return None;
      }
      hs := data[5..5 + recordLen];
      assert data[3..][2..2 + recordLen] == hs;
    } else if data[0] != 0x01 {
      return None;
    }
    if |hs| < 4 || hs[0] != 0x01 {
      return None;
    }
    r := HelloName(hs[4..]);
  }

  /** The part of ExtractSniFromClientHello after the handshake header. */
  method HelloName(hello: seq<byte>) returns (r: Option<seq<byte>>)
    ensures r == NameIn(Block(hello))
  {
    if |hello| < 34 {
      return None;
    }
    var off := 34;
    if |hello| < off + 1 {
      return None;
    }
    Vec8At(hello, off);
    var sessionIDLen := hello[off] as int;
    off := off + 1;
    if |hello| < off + sessionIDLen + 2 {
      return None;
    }
    off := off + sessionIDLen;
    assert Block(hello) == SuitesOn(hello[off..]);
    r := AfterSession(hello, off);
  }

  lemma SuitesAt(s: seq<byte>, off: nat, end: nat)
    requires off + 2 <= |s| && end == off + 2 + U16(s[off..off + 2])
    ensures end < |s| ==> SuitesOn(s[off..]) == CompressionOn(s[end..])
    ensures end >= |s| ==> SuitesOn(s[off..]) == None
  {
    Vec16At(s, off);
  }

  lemma CompressionAt(s: seq<byte>, off: nat, end: nat)
    requires off < |s| && end == off + 1 + s[off] as int
    ensures end + 2 <= |s| ==> CompressionOn(s[off..]) == LastVector(s[end..])
    ensures end + 2 > |s| ==> CompressionOn(s[off..]) == None
  {
    Vec8At(s, off);
  }

  /** The rest of HelloName, from the cipher suites on. */
  method AfterSession(hello: seq<byte>, start: nat) returns (r: Option<seq<byte>>)
    requires start + 2 <= |hello|
    ensures r == NameIn(SuitesOn(hello[start..]))
  {
    var off := start;
    var csLen := U16(hello[off..off + 2]);
    SuitesAt(hello, off, off + 2 + csLen);
    off := off + 2;
    if |hello| < off + csLen + 1 {
      return None;
    }
    off := off + csLen;
    r := AfterSuites(hello, off);
  }

  /** The rest of HelloName, from the compression methods on. */
  method AfterSuites(hello: seq<byte>, start: nat) returns (r: Option<seq<byte>>)
    requires start + 1 <= |hello|
    ensures r == NameIn(CompressionOn(hello[start..]))
  {
    var off := start;
    var cmLen := hello[off] as int;
    CompressionAt(hello, off, off + 1 + cmLen);
    off := off + 1;
    if |hello| < off + cmLen + 2 {
      return None;
    }
    off := off + cmLen;
    Vec16At(hello, off);
    var extLen := U16(hello[off..off + 2]);
    off := off + 2;
    if |hello| < off + extLen {
      return None;
    }
    var extensions := hello[off..off + extLen];
    r := FirstName(extensions);
  }

  /** The loop of ExtractSniFromClientHello over the extension block. */
  method FirstName(extensions: seq<byte>) returns (r: Option<seq<byte>>)
    requires |extensions| < 0x1_0000
    ensures r == BlockName(extensions)
  {
    var eo := 0;
    assert extensions[0..] == extensions;
    while eo + 4 <= |extensions|
      invariant 0 <= eo <= |extensions|
      invariant BlockName(extensions[eo..]) == BlockName(extensions)
    {
      var done, name, next := ExtensionAt(extensions, eo);
      if done {
        return name;
      }
      eo := next;
    }
    return None;
  }

  /** One turn of that loop: return with a verdict, or go on behind this extension. */
  method ExtensionAt(extensions: seq<byte>, eo: nat) returns (done: bool, r: Option<seq<byte>>, next: nat)
    requires eo + 4 <= |extensions| < 0x1_0000
    ensures done ==> r == BlockName(extensions[eo..])
    ensures !done ==> eo < next <= |extensions| && BlockName(extensions[next..]) == BlockName(extensions[eo..])
  {
    var extType := U16(extensions[eo..eo + 2]);
    var extDataLen := U16(extensions[eo + 2..eo + 4]);
    BlockAt(extensions, eo, extType, eo + 4 + extDataLen);
    if eo + 4 + extDataLen > |extensions| {
      return true, None, 0;
    }
    var extData := extensions[eo + 4..eo + 4 + extDataLen];
    if extType == 0x0000 {
      var name := EntryName(extData);
      return true, name, 0;
    }
    return false, None, eo + 4 + extDataLen;
  }

  lemma BlockAt(s: seq<byte>, off: nat, typ: nat, end: nat)
    requires off + 4 <= |s| && end == off + 4 + U16(s[off + 2..off + 4]) && typ == U16(s[off..off + 2])
    ensures end > |s| ==> BlockName(s[off..]) == None
    ensures end <= |s| && typ == 0 ==> BlockName(s[off..]) == HostName(s[off + 4..end])
    ensures end <= |s| && typ != 0 ==> BlockName(s[off..]) == BlockName(s[end..])
  {
    var t := s[off..];
    assert t[..2] == s[off..off + 2] && t[2..] == s[off + 2..];
    Vec16At(s, off + 2);
  }

  /** The branch of ExtractSniFromClientHello for a server_name extension. */
  method EntryName(extData: seq<byte>) returns (r: Option<seq<byte>>)
    requires |extData| < 0x1_0000
    ensures r == HostName(extData)
  {
    if |extData| < 2 {
      return None;
    }
    var sniListLen := U16(extData[0..2]);
    Vec16At(extData, 0);
    assert extData[0..] == extData;
    if sniListLen > |extData| - 2 {
      return None;
    }
    var sniData := extData[2..Add16(2, sniListLen)];
    r := EntryHost(sniData);
  }

  method EntryHost(sniData: seq<byte>) returns (r: Option<seq<byte>>)
    requires |sniData| < 0x1_0000
    ensures r == FirstEntry(sniData)
  {
    if |sniData| < 3 {
      return None;
    }
    if sniData[0] != 0x00 {
      return None;
    }
    var sniLen := U16(sniData[1..3]);
    Vec16At(sniData, 1);
    if sniLen > |sniData| - 3 {
      return None;
    }
    return Some(sniData[3..Add16(3, sniLen)]);
  }

  // ----- What clients send -------------------------------------------------

  datatype Name = Name(kind: byte, name: seq<byte>)

  datatype Extension =
    | ServerName(names: seq<Name>)
    | Other(typ: nat, body: seq<byte>)

  /** legacy_version and random are `fixed`; suites and compression are the bytes of their vectors. */
  datatype Hello = Hello(fixed: seq<byte>, sessionId: seq<byte>, suites: seq<byte>, compression: seq<byte>,
                         extensions: seq<Extension>)

  datatype Framing = Bare | Record(version: seq<byte>)

  ghost predicate ValidName(n: Name) {
    |n.name| < 0x1_0000
  }

  /** The entries of a server name list, then rest. */
  function NamesBytes(names: seq<Name>, rest: seq<byte>): seq<byte>
    requires forall n <- names :: ValidName(n)
  {
    if names == [] then rest
    else
      assert ValidName(names[0]);
      [names[0].kind] + PutVec16(names[0].name, NamesBytes(names[1..], rest))
  }

  ghost predicate ValidExtension(e: Extension) {
    match e
    case ServerName(names) => (forall n <- names :: ValidName(n)) && |NamesBytes(names, [])| < 0xfffe
    case Other(typ, body) => 0 < typ < 0x1_0000 && |body| < 0x1_0000
  }

  function Body(e: Extension): (s: seq<byte>)
    requires ValidExtension(e)
    ensures |s| < 0x1_0000
  {
    match e
    case ServerName(names) => PutVec16(NamesBytes(names, []), [])
    case Other(_, body) => body
  }

  function PutExtension(typ: nat, body: seq<byte>, rest: seq<byte>): seq<byte>
    requires |body| < 0x1_0000
  {
    PutU16(typ) + PutVec16(body, rest)
  }

  /** The extensions of a block, then rest. */
  function BlockBytes(es: seq<Extension>, rest: seq<byte>): seq<byte>
    requires forall e <- es :: ValidExtension(e)
  {
    if es == [] then rest
    else PutExtension(if es[0].ServerName? then 0 else es[0].typ, Body(es[0]), BlockBytes(es[1..], rest))
  }

  ghost predicate ValidHello(h: Hello) {
    && |h.fixed| == 34 && |h.sessionId| < 0x100 && |h.suites| < 0x1_0000 && |h.compression| < 0x100
    && (forall e <- h.extensions :: ValidExtension(e))
    && |BlockBytes(h.extensions, [])| < 0x1_0000
  }

  /** A ClientHello body around an extension block, then rest. */
  function Envelope(fixed: seq<byte>, sessionId: seq<byte>, suites: seq<byte>, compression: seq<byte>,
                    block: seq<byte>, rest: seq<byte>): seq<byte>
    requires |fixed| == 34 && |sessionId| < 0x100 && |suites| < 0x1_0000 && |compression| < 0x100
    requires |block| < 0x1_0000
  {
    fixed + PutVec8(sessionId, PutVec16(suites, PutVec8(compression, PutVec16(block, rest))))
  }

  function HelloBytes(h: Hello, rest: seq<byte>): seq<byte>
    requires ValidHello(h)
  {
    Envelope(h.fixed, h.sessionId, h.suites, h.compression, BlockBytes(h.extensions, []), rest)
  }

  /** Handshake type client_hello, the length, the body. */
  function Message(length: seq<byte>, hello: seq<byte>): seq<byte> {
    [0x01] + (length + hello)
  }

  function InRecord(version: seq<byte>, message: seq<byte>, rest: seq<byte>): seq<byte>
    requires |message| < 0x1_0000
  {
    [0x16] + (version + PutVec16(message, rest))
  }

  ghost predicate ValidFraming(f: Framing, h: Hello)
    requires ValidHello(h)
  {
    f.Record? ==> |f.version| == 2 && 4 + |HelloBytes(h, [])| < 0x1_0000
  }

  /** A ClientHello as a client sends it, then rest. */
  function Serialize(f: Framing, h: Hello, rest: seq<byte>): seq<byte>
    requires ValidHello(h) && ValidFraming(f, h)
  {
    var length := ToBE(|HelloBytes(h, [])|, 3);
    match f
    case Bare => Message(length, HelloBytes(h, rest))
    case Record(version) => InRecord(version, Message(length, HelloBytes(h, [])), rest)
  }

  /** The first server_name extension's first entry, when that is a host_name. */
  function SentName(es: seq<Extension>): Option<seq<byte>> {
    if es == [] then None
    else if es[0].ServerName? then
      if es[0].names == [] || es[0].names[0].kind != 0 then None else Some(es[0].names[0].name)
    else SentName(es[1..])
  }

  // ----- Parsing inverts serialising ---------------------------------------

  lemma ReadEnvelope(fixed: seq<byte>, sessionId: seq<byte>, suites: seq<byte>, compression: seq<byte>,
                     block: seq<byte>, rest: seq<byte>)
    requires |fixed| == 34 && |sessionId| < 0x100 && |suites| < 0x1_0000 && |compression| < 0x100
    requires |block| < 0x1_0000
    ensures Block(Envelope(fixed, sessionId, suites, compression, block, rest)) == Some(block)
  {
    var s3 := PutVec16(block, rest);
    var s2 := PutVec8(compression, s3);
    var s1 := PutVec16(suites, s2);
    DropAppend(fixed, PutVec8(sessionId, s1));
    ReadPut8(sessionId, s1);
    ReadPut16(suites, s2);
    ReadPut8(compression, s3);
    ReadPut16(block, rest);
  }

  lemma ReadHostName(names: seq<Name>, listRest: seq<byte>, rest: seq<byte>)
    requires forall n <- names :: ValidName(n)
    requires |NamesBytes(names, listRest)| < 0x1_0000
    ensures names != [] && names[0].kind == 0 ==>
              HostName(PutVec16(NamesBytes(names, listRest), rest)) == Some(names[0].name)
    ensures (if names == [] then listRest == [] else names[0].kind != 0) ==>
              HostName(PutVec16(NamesBytes(names, listRest), rest)) == None
  {
    var list := NamesBytes(names, listRest);
    ReadPut16(list, rest);
    if names != [] {
      var more := NamesBytes(names[1..], listRest);
      DropAppend([names[0].kind], PutVec16(names[0].name, more));
      ReadPut16(names[0].name, more);
    }
  }

  /** One extension in front of a block: its name when it is a server_name, the block's otherwise. */
  lemma ReadExtension(typ: nat, body: seq<byte>, rest: seq<byte>)
    requires typ < 0x1_0000 && |body| < 0x1_0000
    ensures BlockName(PutExtension(typ, body, rest)) == if typ == 0 then HostName(body) else BlockName(rest)
  {
    var tail := PutVec16(body, rest);
    DropAppend(PutU16(typ), tail);
    assert PutExtension(typ, body, rest)[..2] == PutU16(typ);
    ReadPut16(body, rest);
  }

  lemma {:induction false} ReadBlock(es: seq<Extension>)
    requires forall e <- es :: ValidExtension(e)
    ensures BlockName(BlockBytes(es, [])) == SentName(es)
  {
    if es != [] {
      var e := es[0];
      ReadExtension(if e.ServerName? then 0 else e.typ, Body(e), BlockBytes(es[1..], []));
      ReadBlock(es[1..]);
      if e.ServerName? {
        ReadHostName(e.names, [], []);
      }
    }
  }

  lemma ReadMessage(length: seq<byte>, hello: seq<byte>)
    requires |length| == 3
    ensures SniOf(Message(length, hello))
         == NameIn(Block(hello))
  {
    assert Message(length, hello)[4..] == hello;
  }

  lemma ReadRecord(version: seq<byte>, length: seq<byte>, hello: seq<byte>, rest: seq<byte>)
    requires |version| == 2 && |length| == 3 && 4 + |hello| < 0x1_0000
    ensures SniOf(InRecord(version, Message(length, hello), rest))
         == NameIn(Block(hello))
  {
    var message := Message(length, hello);
    assert InRecord(version, message, rest)[3..] == PutVec16(message, rest);
    ReadPut16(message, rest);
    assert message[4..] == hello;
  }

  /** For every ClientHello, bare or in one record and with any bytes after it, the parser returns the
      name the client put first, whatever extensions precede it, and nothing when there is none. */
  lemma ParseInvertsSerialize(f: Framing, h: Hello, rest: seq<byte>)
    requires ValidHello(h) && ValidFraming(f, h)
    ensures SniOf(Serialize(f, h, rest)) == SentName(h.extensions)
  {
    var block := BlockBytes(h.extensions, []);
    var length := ToBE(|HelloBytes(h, [])|, 3);
    ReadBlock(h.extensions);
    match f
    case Bare =>
      ReadMessage(length, HelloBytes(h, rest));
      ReadEnvelope(h.fixed, h.sessionId, h.suites, h.compression, block, rest);
    case Record(version) =>
      ReadRecord(version, length, HelloBytes(h, []), rest);
      ReadEnvelope(h.fixed, h.sessionId, h.suites, h.compression, block, []);
  }

  // ----- The first host_name -----------------------------------------------

  /** The first host_name entry of the first server_name extension, as section 3 of RFC 6066 means it. */
  function FirstHostName(es: seq<Extension>): Option<seq<byte>> {
    if es == [] then None
    else if es[0].ServerName? then FirstHost(es[0].names)
    else FirstHostName(es[1..])
  }

  function FirstHost(names: seq<Name>): Option<seq<byte>> {
    if names == [] then None
    else if names[0].kind == 0 then Some(names[0].name)
    else FirstHost(names[1..])
  }

  /** The names of the first server_name extension; none when there is no such extension. */
  function FirstList(es: seq<Extension>): seq<Name> {
    if es == [] then []
    else if es[0].ServerName? then es[0].names
    else FirstList(es[1..])
  }

  /** The parser looks at the first entry only: it returns the first host_name exactly when no entry of
      another type stands in front of one. */
  lemma ReturnsFirstHostNameIff(f: Framing, h: Hello, rest: seq<byte>)
    requires ValidHello(h) && ValidFraming(f, h)
    ensures SniOf(Serialize(f, h, rest)) == FirstHostName(h.extensions)
       <==> var names := FirstList(h.extensions);
            names == [] || names[0].kind == 0 || forall n <- names :: n.kind != 0
  {
    ParseInvertsSerialize(f, h, rest);
    SentIsFirstList(h.extensions);
    HostIffKind(FirstList(h.extensions));
  }

  lemma {:induction false} SentIsFirstList(es: seq<Extension>)
    ensures var names := FirstList(es);
            SentName(es) == if names == [] || names[0].kind != 0 then None else Some(names[0].name)
    ensures FirstHostName(es) == FirstHost(FirstList(es))
  {
    if es != [] && !es[0].ServerName? {
      SentIsFirstList(es[1..]);
    }
  }

  lemma {:induction false} HostIffKind(names: seq<Name>)
    ensures FirstHost(names).None? <==> forall n <- names :: n.kind != 0
  {
    if names != [] {
      assert names == [names[0]] + names[1..];
      HostIffKind(names[1..]);
    }
  }

  /** The entry in front of the host_name hides it. */
  lemma EarlierEntryHidesHostName()
    ensures var h := Hello(seq(34, _ => 0), [], [], [], [ServerName([Name(1, [7]), Name(0, [8])])]);
            && ValidHello(h)
            && SniOf(Serialize(Bare, h, [])) == None
            && FirstHostName(h.extensions) == Some([8])
  {
    var names := [Name(1, [7]), Name(0, [8])];
    var h := Hello(seq(34, _ => 0), [], [], [], [ServerName(names)]);
    assert names[1..] == [Name(0, [8])];
    assert |NamesBytes([Name(0, [8])], [])| == 4;
    assert |NamesBytes(names, [])| == 8;
    assert h.extensions[1..] == [];
    ParseInvertsSerialize(Bare, h, []);
    assert FirstHost(names[1..]) == Some([8]);
  }

  // ----- Exactly which inputs carry a name ---------------------------------

  /** An input cut at the fields the parser reads; every other field is unconstrained. */
  datatype Parts = Parts(f: Framing, length: seq<byte>, fixed: seq<byte>, sessionId: seq<byte>,
                         suites: seq<byte>, compression: seq<byte>, before: seq<Extension>,
                         name: seq<byte>, listRest: seq<byte>, bodyRest: seq<byte>,
                         blockRest: seq<byte>, helloRest: seq<byte>, dataRest: seq<byte>)

  /** The body of a server_name extension that starts with a host_name. */
  function SniBody(name: seq<byte>, listRest: seq<byte>, bodyRest: seq<byte>): seq<byte>
    requires |name| < 0x1_0000 && |NamesBytes([Name(0, name)], listRest)| < 0x1_0000
  {
    PutVec16(NamesBytes([Name(0, name)], listRest), bodyRest)
  }

  ghost predicate Fits(p: Parts) {
    && |p.name| < 0x1_0000 && |NamesBytes([Name(0, p.name)], p.listRest)| < 0x1_0000
    && |SniBody(p.name, p.listRest, p.bodyRest)| < 0x1_0000
    && (forall e <- p.before :: e.Other? && ValidExtension(e))
    && |PartsBlock(p)| < 0x1_0000
    && |p.fixed| == 34 && |p.sessionId| < 0x100 && |p.suites| < 0x1_0000 && |p.compression| < 0x100
    && |p.length| == 3
    && (p.f.Record? ==> |p.f.version| == 2 && 4 + |PartsHello(p)| < 0x1_0000)
  }

  function PartsBlock(p: Parts): seq<byte>
    requires |p.name| < 0x1_0000 && |NamesBytes([Name(0, p.name)], p.listRest)| < 0x1_0000
    requires |SniBody(p.name, p.listRest, p.bodyRest)| < 0x1_0000
    requires forall e <- p.before :: e.Other? && ValidExtension(e)
  {
    BlockBytes(p.before, PutExtension(0, SniBody(p.name, p.listRest, p.bodyRest), p.blockRest))
  }

  function PartsHello(p: Parts): seq<byte>
    requires |p.name| < 0x1_0000 && |NamesBytes([Name(0, p.name)], p.listRest)| < 0x1_0000
    requires |SniBody(p.name, p.listRest, p.bodyRest)| < 0x1_0000
    requires forall e <- p.before :: e.Other? && ValidExtension(e)
    requires |PartsBlock(p)| < 0x1_0000
    requires |p.fixed| == 34 && |p.sessionId| < 0x100 && |p.suites| < 0x1_0000 && |p.compression| < 0x100
  {
    Envelope(p.fixed, p.sessionId, p.suites, p.compression, PartsBlock(p), p.helloRest)
  }

  function PartsBytes(p: Parts): seq<byte>
    requires Fits(p)
  {
    match p.f
    case Bare => Message(p.length, PartsHello(p))
    case Record(version) => InRecord(version, Message(p.length, PartsHello(p)), p.dataRest)
  }

  ghost predicate Carries(data: seq<byte>, name: seq<byte>) {
    exists p: Parts :: Fits(p) && p.name == name && PartsBytes(p) == data
  }

  /** On arbitrary bytes the parser succeeds exactly on the inputs that can be cut this way, and returns
      the name so found. */
  lemma ParseExact(data: seq<byte>, name: seq<byte>)
    ensures SniOf(data) == Some(name) <==> Carries(data, name)
  {
    if SniOf(data) == Some(name) {
      var p := Cut(data);
      assert Fits(p) && p.name == name && PartsBytes(p) == data;
    }
    if Carries(data, name) {
      var p: Parts :| Fits(p) && p.name == name && PartsBytes(p) == data;
      ReadParts(p);
    }
  }

  lemma {:induction false} BlockSkips(before: seq<Extension>, rest: seq<byte>)
    requires forall e <- before :: e.Other? && ValidExtension(e)
    ensures BlockName(BlockBytes(before, rest)) == BlockName(rest)
  {
    if before != [] {
      ReadExtension(before[0].typ, before[0].body, BlockBytes(before[1..], rest));
      BlockSkips(before[1..], rest);
    }
  }

  lemma ReadParts(p: Parts)
    requires Fits(p)
    ensures SniOf(PartsBytes(p)) == Some(p.name)
  {
    var body := SniBody(p.name, p.listRest, p.bodyRest);
    ReadHostName([Name(0, p.name)], p.listRest, p.bodyRest);
    ReadExtension(0, body, p.blockRest);
    BlockSkips(p.before, PutExtension(0, body, p.blockRest));
    ReadEnvelope(p.fixed, p.sessionId, p.suites, p.compression, PartsBlock(p), p.helloRest);
    match p.f
    case Bare => ReadMessage(p.length, PartsHello(p));
    case Record(version) => ReadRecord(version, p.length, PartsHello(p), p.dataRest);
  }

  lemma Cut(data: seq<byte>) returns (p: Parts)
    requires SniOf(data).Some?
    ensures Fits(p) && PartsBytes(p) == data && SniOf(data) == Some(p.name)
  {
    var hs := Handshake(data).value;
    CutMessage(hs);
    if data[0] == 0x16 {
      CutRecord(data);
      p := CutHello(hs[4..], hs[1..4], Record(data[1..3]), Vec16(data[3..]).value.1);
    } else {
      p := CutHello(hs[4..], hs[1..4], Bare, []);
    }
  }

  lemma CutMessage(hs: seq<byte>)
    requires |hs| >= 4 && hs[0] == 0x01
    ensures hs == Message(hs[1..4], hs[4..])
  {
  }

  lemma CutRecord(data: seq<byte>)
    requires |data| >= 5 && data[0] == 0x16 && Vec16(data[3..]).Some?
    ensures data == InRecord(data[1..3], Vec16(data[3..]).value.0, Vec16(data[3..]).value.1)
  {
    PutRead16(data[3..]);
    assert data == [0x16] + (data[1..3] + data[3..]);
  }

  lemma CutHello(hello: seq<byte>, length: seq<byte>, f: Framing, dataRest: seq<byte>) returns (p: Parts)
    requires Block(hello).Some? && BlockName(Block(hello).value).Some?
    requires |length| == 3 && (f.Record? ==> |f.version| == 2 && 4 + |hello| < 0x1_0000)
    ensures Fits(p) && PartsHello(p) == hello && BlockName(Block(hello).value) == Some(p.name)
    ensures p.f == f && p.length == length && p.dataRest == dataRest
  {
    var sid, suites, compression, helloRest := CutEnvelope(hello);
    var before, body, blockRest := CutBlock(Block(hello).value);
    var name, listRest, bodyRest := CutBody(body);
    p := Parts(f, length, hello[..34], sid, suites, compression, before,
               name, listRest, bodyRest, blockRest, helloRest, dataRest);
  }

  lemma CutEnvelope(hello: seq<byte>)
    returns (sid: seq<byte>, suites: seq<byte>, compression: seq<byte>, rest: seq<byte>)
    requires Block(hello).Some?
    ensures |hello| >= 34 && |sid| < 0x100 && |suites| < 0x1_0000 && |compression| < 0x100
    ensures |Block(hello).value| < 0x1_0000
    ensures hello == Envelope(hello[..34], sid, suites, compression, Block(hello).value, rest)
  {
    var s0 := hello[34..];
    var s1 := Vec8(s0).value.1;
    var s2 := Vec16(s1).value.1;
    var s3 := Vec8(s2).value.1;
    sid, suites, compression, rest := Vec8(s0).value.0, Vec16(s1).value.0, Vec8(s2).value.0, Vec16(s3).value.1;
    PutRead8(s0);
    PutRead16(s1);
    PutRead8(s2);
    PutRead16(s3);
    assert hello == hello[..34] + s0;
  }

  lemma CutBody(body: seq<byte>) returns (name: seq<byte>, listRest: seq<byte>, bodyRest: seq<byte>)
    requires HostName(body).Some?
    ensures HostName(body) == Some(name) && |name| < 0x1_0000
    ensures |NamesBytes([Name(0, name)], listRest)| < 0x1_0000 && body == SniBody(name, listRest, bodyRest)
  {
    var list := Vec16(body).value.0;
    bodyRest := Vec16(body).value.1;
    name, listRest := Vec16(list[1..]).value.0, Vec16(list[1..]).value.1;
    PutRead16(body);
    PutRead16(list[1..]);
    assert list == [list[0]] + list[1..];
    assert [Name(0, name)][1..] == [];
    assert list == NamesBytes([Name(0, name)], listRest);
  }

  lemma {:induction false} CutBlock(block: seq<byte>)
    returns (before: seq<Extension>, body: seq<byte>, rest: seq<byte>)
    requires BlockName(block).Some?
    ensures forall e <- before :: e.Other? && ValidExtension(e)
    ensures |body| < 0x1_0000 && HostName(body) == BlockName(block)
    ensures block == BlockBytes(before, PutExtension(0, body, rest))
    decreases |block|
  {
    var typ := U16(block[..2]);
    var (b, tail) := Vec16(block[2..]).value;
    CutExtension(block);
    if typ == 0 {
      before, body, rest := [], b, tail;
    } else {
      var more;
      more, body, rest := CutBlock(tail);
      before := [Other(typ, b)] + more;
      assert before[1..] == more;
    }
  }

  lemma CutExtension(block: seq<byte>)
    requires |block| >= 2 && Vec16(block[2..]).Some?
    ensures block == PutExtension(U16(block[..2]), Vec16(block[2..]).value.0, Vec16(block[2..]).value.1)
  {
    PutRead16(block[2..]);
    PutU16Inverse(block[..2]);
    assert block == block[..2] + block[2..];
  }
}
