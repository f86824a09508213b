/** Upstream exchanges and the request loop of a TCP client (RFC 1035, section 4.2.2). */
module DnsTcp {
  import opened Bytes
  import opened Vectors
  import opened DnsMessage
  import opened DnsQuestions

  // ----- One upstream ----------------------------------------------------------

  datatype Network = Udp | Tcp

  function Min(a: nat, b: nat): nat {
    if a < b then a else b
  }

  /** What queryUpstream returns. heard is the datagram, or all that arrives on the connection before the
      deadline; None stands for every dial, write or read error. */
  function Exchange(network: Network, query: seq<byte>, heard: Option<seq<byte>>): (r: Option<seq<byte>>)
    ensures r.Some? ==> |r.value| <= 65535
  {
    if heard.None? then None
    else
      match network
      case Udp => Some(heard.value[..Min(4096, |heard.value|)])
      case Tcp => if |query| > 65535 then None else Message(heard.value)
  }

  /** One length-framed message of at least a header. */
  function Message(s: seq<byte>): (r: Option<seq<byte>>)
    ensures r.Some? ==> 12 <= |r.value| <= 65535
  {
    var v := Vec16(s);
    if v.None? || |v.value.0| < 12 then None else Some(v.value.0)
  }

  /** An upstream that frames its answer is heard, whatever it sends afterwards. */
  lemma FramedAnswerHeard(query: seq<byte>, answer: seq<byte>, more: seq<byte>)
    requires |query| <= 65535 && 12 <= |answer| <= 65535
    ensures Exchange(Tcp, query, Some(PutVec16(answer, more))) == Some(answer)
  {
    ReadPut16(answer, more);
  }

  /** Over TCP a response is heard iff the query fits the length prefix of 16 bits, and what arrives starts with a
      length of at least 12 and as many octets; nothing is sent of a query that is too long. */
  lemma TcpHeardIff(query: seq<byte>, heard: Option<seq<byte>>)
    ensures Exchange(Tcp, query, heard).Some? <==>
              && |query| < 0x1_0000
              && heard.Some? && |heard.value| >= 2
              && 12 <= heard.value[0] as int * 0x100 + heard.value[1] as int <= |heard.value| - 2
    ensures Exchange(Tcp, query, heard).Some? ==>
              PutVec16(Exchange(Tcp, query, heard).value, []) <= heard.value
  {
    if heard.Some? && Vec16(heard.value).Some? {
      PutRead16(heard.value);
    }
  }

  /** A datagram that fits the buffer of 4096 octets is heard whole, a longer one up to that size. */
  lemma DatagramHeard(query: seq<byte>, datagram: seq<byte>)
    ensures var heard := Exchange(Udp, query, Some(datagram));
            if |datagram| <= 4096 then heard == Some(datagram) else heard == Some(datagram[..4096])
  {
    assert datagram[..|datagram|] == datagram;
  }

  // ----- The stream of a client ---------------------------------------------------

  /** What happens around the loop: the outcome of the i-th race, and how many octets of the i-th answer went
      out before its Write failed (None when it did not fail). */
  datatype World = World(race: (nat, seq<byte>) -> Option<seq<byte>>, cut: nat -> Option<nat>)

  /** What holds of every race: see DnsRace.AnswerIsValid. */
  ghost predicate Lawful(w: World) {
    forall i, q :: w.race(i, q).Some? ==> ValidResponse(q, w.race(i, q).value) && |w.race(i, q).value| <= 65535
  }

  /** The answer to the i-th query; None closes the connection. */
  function Answer(w: World, i: nat, query: seq<byte>): Option<seq<byte>> {
    var won := w.race(i, query);
    if won.Some? then won else ErrorResponse(query, 2)
  }

  /** The queries in a stream, up to the first that is short or incomplete. */
  function Queries(input: seq<byte>): (qs: seq<seq<byte>>)
    decreases |input|
  {
    var v := Vec16(input);
    if v.None? || |v.value.0| < 12 then [] else [v.value.0] + Queries(v.value.1)
  }

  /** The messages in a stream. */
  function Messages(s: seq<byte>): seq<seq<byte>>
    decreases |s|
  {
    var v := Vec16(s);
    if v.None? then [] else [v.value.0] + Messages(v.value.1)
  }

  predicate Fit(rs: seq<seq<byte>>) {
    forall i :: 0 <= i < |rs| ==> |rs[i]| <= 65535
  }

  function Frames(rs: seq<seq<byte>>, rest: seq<byte>): seq<byte>
    requires Fit(rs)
  {
    if rs == [] then rest else PutVec16(rs[0], Frames(rs[1..], rest))
  }

  /** The answers that go out whole, to queries number i and later. */
  function Served(w: World, i: nat, qs: seq<seq<byte>>): seq<seq<byte>>
    decreases |qs|
  {
    if qs == [] || Answer(w, i, qs[0]).None? || w.cut(i).Some? then []
    else [Answer(w, i, qs[0]).value] + Served(w, i + 1, qs[1..])
  }

  /** The octets of an answer whose Write failed. */
  function Torn(w: World, i: nat, qs: seq<seq<byte>>): seq<byte>
    decreases |qs|
  {
    if qs == [] || Answer(w, i, qs[0]).None? then []
    else if w.cut(i).Some? then Cut(Answer(w, i, qs[0]).value, w.cut(i).value)
    else Torn(w, i + 1, qs[1..])
  }

  function Cut(response: seq<byte>, n: nat): seq<byte> {
    (PutU16(|response|) + response)[..Min(n, |response| + 1)]
  }

  /** Everything written from the i-th query on. */
  function Output(w: World, i: nat, qs: seq<seq<byte>>): seq<byte>
    decreases |qs|
  {
    if qs == [] then []
    else
      var r := Answer(w, i, qs[0]);
      if r.None? then []
      else if w.cut(i).Some? then Cut(r.value, w.cut(i).value)
      else PutU16(|r.value|) + r.value + Output(w, i + 1, qs[1..])
  }

  // ----- handleTCPConnection --------------------------------------------------------

  lemma AnswerFits(w: World, i: nat, query: seq<byte>)
    requires Lawful(w) && 12 <= |query| <= 65535 && Answer(w, i, query).Some?
    ensures var r := Answer(w, i, query).value; ValidResponse(query, r) && |r| <= 65535
  {
    if w.race(i, query).None? {
      ErrorIsValid(query, 2);
    }
  }

  /** A race that fails is answered with response code 2 and the questions of the query, or not at all when these are
      malformed; a race that is won is answered with its response. */
  lemma FailedRaceIsServfail(w: World, i: nat, query: seq<byte>)
    requires Lawful(w) && 12 <= |query|
    ensures w.race(i, query).Some? ==> Answer(w, i, query) == w.race(i, query)
    ensures w.race(i, query).None? && Answer(w, i, query).Some? ==>
              var r := Answer(w, i, query).value;
              ValidResponse(query, r) && r[3] as int % 16 == 2 && r[12..] <= query[12..]
    ensures w.race(i, query).None? ==>
              (Answer(w, i, query).Some? <==> exists qs, trailing :: Announced(query, qs, trailing))
  {
    AnswersIff(query, 2);
    if w.race(i, query).None? && Answer(w, i, query).Some? {
      ErrorIsValid(query, 2);
      HeaderFields(query[..12], 2);
      hide SkipQuestions, ErrorHeader;
      var r, rest := Answer(w, i, query).value, SkipQuestions(query[12..], QdCount(query)).value;
      assert r[12..] == query[12..|query| - |rest|] == query[12..][..|query| - |rest| - 12];
    }
  }

  /** The two reads of the loop. */
  method ReadQuery(input: seq<byte>, off: nat) returns (query: Option<seq<byte>>)
    requires off <= |input|
    ensures query.None? ==> Queries(input[off..]) == []
    ensures query.Some? ==> (var next := off + 2 + |query.value|;
                             12 <= |query.value| <= 65535 && next <= |input|
                             && Queries(input[off..]) == [query.value] + Queries(input[next..]))
  {
    if |input| - off < 2 {
      return None;
    }
    var queryLen := U16(input[off..off + 2]);
    Vec16At(input, off);
    if queryLen < 12 || off + 2 + queryLen > |input| {
      return None;
    }
    return Some(input[off + 2..off + 2 + queryLen]);
  }

  lemma NoQuery(w: World, i: nat)
    ensures Output(w, i, []) == []
  {
  }

  /** What one query adds. */
  lemma OneQuery(w: World, i: nat, q: seq<byte>, qs: seq<seq<byte>>)
    ensures var r := Answer(w, i, q);
            Output(w, i, [q] + qs) ==
            if r.None? then []
            else if w.cut(i).Some? then Cut(r.value, w.cut(i).value)
            else (PutU16(|r.value|) + r.value) + Output(w, i + 1, qs)
  {
    hide Answer, Cut;
    assert ([q] + qs)[1..] == qs;
  }

  method Respond(w: World, i: nat, query: seq<byte>) returns (response: Option<seq<byte>>)
    requires Lawful(w) && 12 <= |query| <= 65535
    ensures response == Answer(w, i, query)
    ensures response.Some? ==> ValidResponse(query, response.value) && |response.value| <= 65535
  {
    response := w.race(i, query);
    if response.None? {
      response := DnsErrorResponse(query, 2);
    }
    if response.Some? {
      AnswerFits(w, i, query);
    }
  }

  /** The framed Write. */
  method WriteAnswer(w: World, i: nat, response: seq<byte>) returns (written: seq<byte>, ok: bool)
    ensures ok == w.cut(i).None?
    ensures written == if ok then PutU16(|response|) + response else Cut(response, w.cut(i).value)
  {
    var framed := PutU16(|response|) + response;
    if w.cut(i).Some? {
      return framed[..Min(w.cut(i).value, |framed| - 1)], false;
    }
    return framed, true;
  }

  /** One round of the loop; `open` tells whether it goes on, `tooLarge` whether its size check fired. */
  method ServeOne(w: World, i: nat, input: seq<byte>, off: nat)
    returns (written: seq<byte>, next: nat, open: bool, tooLarge: bool)
    requires Lawful(w) && off <= |input|
    ensures !tooLarge && off <= next <= |input| && (open ==> off < next)
    ensures Output(w, i, Queries(input[off..])) ==
            if open then written + Output(w, i + 1, Queries(input[next..])) else written
  {
    hide *;
    written, next, open, tooLarge := [], off, false, false;
    var query := ReadQuery(input, off);
    if query.None? {
      NoQuery(w, i);
      return;
    }
    next := off + 2 + |query.value|;
    OneQuery(w, i, query.value, Queries(input[next..]));
    var response := Respond(w, i, query.value);
    if response.None? {
      return;
    }
    if |response.value| > 65535 {
      tooLarge := true;
      return;
    }
    written, open := WriteAnswer(w, i, response.value);
  }

  lemma Reassociate(a: seq<byte>, b: seq<byte>, c: seq<byte>)
    ensures a + (b + c) == a + b + c
  {
  }

  method HandleTcpConnection(w: World, input: seq<byte>) returns (output: seq<byte>, tooLarge: bool)
    requires Lawful(w)
    ensures output == Output(w, 0, Queries(input))
    ensures !tooLarge
  {
    hide *;
    output, tooLarge := [], false;
    var off, i, open := 0, 0, true;
    assert input[0..] == input;
    while open
      invariant off <= |input| && !tooLarge
      invariant Output(w, 0, Queries(input)) == if open then output + Output(w, i, Queries(input[off..])) else output
      decreases |input| - off, open
    {
      var written;
      written, off, open, tooLarge := ServeOne(w, i, input, off);
      Reassociate(output, written, Output(w, i + 1, Queries(input[off..])));
      output := output + written;
      i := i + 1;
    }
  }

  // ----- What the client reads --------------------------------------------------------

  lemma {:induction false} MessagesOfFrames(rs: seq<seq<byte>>, rest: seq<byte>)
    requires Fit(rs)
    ensures Messages(Frames(rs, rest)) == rs + Messages(rest)
  {
    if rs != [] {
      ReadPut16(rs[0], Frames(rs[1..], rest));
      hide Vec16, PutVec16;
      MessagesOfFrames(rs[1..], rest);
    }
  }

  lemma CutIsNoMessage(response: seq<byte>, n: nat)
    requires |response| <= 65535
    ensures Messages(Cut(response, n)) == []
  {
    var f := PutU16(|response|) + response;
    var t := Cut(response, n);
    if |t| >= 2 {
      assert t[..2] == f[..2] == PutU16(|response|);
    }
  }

  ghost predicate Sized(qs: seq<seq<byte>>) {
    forall k :: 0 <= k < |qs| ==> 12 <= |qs[k]| <= 65535
  }

  lemma {:induction false} QueriesSized(input: seq<byte>)
    ensures Sized(Queries(input))
    decreases |input|
  {
    var v := Vec16(input);
    if v.Some? && |v.value.0| >= 12 {
      QueriesSized(v.value.1);
    }
  }

  /** The k-th answer belongs to the k-th query and carries its ID with QR set; the loop stops early only at a
      query without an answer or at a failed Write; a torn answer is never mistaken for a message. */
  lemma {:induction false} ServedInOrder(w: World, i: nat, qs: seq<seq<byte>>)
    requires Lawful(w) && Sized(qs)
    ensures var rs := Served(w, i, qs);
            && |rs| <= |qs| && Fit(rs)
            && (forall k :: 0 <= k < |rs| ==> Answer(w, i + k, qs[k]) == Some(rs[k]) && ValidResponse(qs[k], rs[k]))
            && (|rs| < |qs| ==> Answer(w, i + |rs|, qs[|rs|]).None? || w.cut(i + |rs|).Some?)
    ensures Messages(Torn(w, i, qs)) == []
    decreases |qs|
  {
    hide ErrorResponse, ValidResponse, Cut, Lawful, PutU16;
    if qs != [] && Answer(w, i, qs[0]).Some? {
      AnswerFits(w, i, qs[0]);
      var r := Answer(w, i, qs[0]).value;
      if w.cut(i).Some? {
        CutIsNoMessage(r, w.cut(i).value);
      } else {
        ServedInOrder(w, i + 1, qs[1..]);
        var rest := Served(w, i + 1, qs[1..]);
        assert Served(w, i, qs) == [r] + rest;
        forall k | 0 <= k < |rest| + 1
          ensures Answer(w, i + k, qs[k]) == Some(([r] + rest)[k]) && ValidResponse(qs[k], ([r] + rest)[k])
        {
          if k > 0 {
            assert qs[k] == qs[1..][k - 1] && i + k == i + 1 + (k - 1);
          }
        }
      }
    }
  }

  lemma {:induction false} OutputIsFrames(w: World, i: nat, qs: seq<seq<byte>>)
    requires Lawful(w) && Sized(qs)
    ensures Fit(Served(w, i, qs)) && Output(w, i, qs) == Frames(Served(w, i, qs), Torn(w, i, qs))
    decreases |qs|
  {
    hide Lawful, Answer, Cut, PutU16, ValidResponse;
    if qs != [] && Answer(w, i, qs[0]).Some? && w.cut(i).None? {
      AnswerFits(w, i, qs[0]);
      OutputIsFrames(w, i + 1, qs[1..]);
      var r, rest := Answer(w, i, qs[0]).value, Served(w, i + 1, qs[1..]);
      assert Served(w, i, qs)[1..] == rest;
    }
  }

  /** For every input stream, what the loop writes reads back as one message per answered query, in order. */
  lemma OutputReadsBack(w: World, input: seq<byte>)
    requires Lawful(w)
    ensures Messages(Output(w, 0, Queries(input))) == Served(w, 0, Queries(input))
  {
    QueriesSized(input);
    var qs := Queries(input);
    ServedInOrder(w, 0, qs);
    OutputIsFrames(w, 0, qs);
    MessagesOfFrames(Served(w, 0, qs), Torn(w, 0, qs));
  }

  lemma {:induction false} QueriesOfFrames(qs: seq<seq<byte>>, rest: seq<byte>)
    requires Sized(qs)
    ensures Fit(qs) && Queries(Frames(qs, rest)) == qs + Queries(rest)
  {
    if qs != [] {
      assert forall k :: 0 <= k < |qs[1..]| ==> qs[1..][k] == qs[k + 1];
      QueriesOfFrames(qs[1..], rest);
      QueriesMore(qs[0], Frames(qs[1..], rest));
      assert Frames(qs, rest) == PutVec16(qs[0], Frames(qs[1..], rest));
      hide *;
      assert [qs[0]] + (qs[1..] + Queries(rest)) == qs + Queries(rest);
    }
  }

  lemma QueriesMore(q: seq<byte>, rest: seq<byte>)
    requires 12 <= |q| <= 65535
    ensures Queries(PutVec16(q, rest)) == [q] + Queries(rest)
  {
    ReadPut16(q, rest);
    hide Vec16, PutVec16;
  }

  /** A client that frames queries with well-formed questions gets one answer per query, in order, as long as
      no Write fails: races that fail are answered with SERVFAIL. */
  lemma EveryQueryAnswered(w: World, qs: seq<seq<byte>>)
    requires Lawful(w) && Sized(qs)
    requires forall i :: w.cut(i).None?
    requires forall k :: 0 <= k < |qs| ==> ErrorResponse(qs[k], 2).Some?
    ensures Fit(qs)
    ensures var rs := Served(w, 0, Queries(Frames(qs, [])));
            |rs| == |qs| && forall k :: 0 <= k < |rs| ==> ValidResponse(qs[k], rs[k])
  {
    QueriesOfFrames(qs, []);
    ServedInOrder(w, 0, qs);
    hide Served, Lawful, ErrorResponse, ValidResponse, Frames;
    assert Queries(Frames(qs, [])) == qs;
  }
}
