/** Question sections written out, and what dnsErrorResponse makes of them. */
module DnsQuestions {
  import opened Bytes
  import opened DnsMessage

  /** A name of RFC 1035, section 4.1.4: labels, ended by the root or by a pointer. */
  datatype Name = Name(labels: seq<seq<byte>>, pointer: Option<(byte, byte)>)

  /** kind holds QTYPE and QCLASS. */
  datatype Question = Question(name: Name, kind: seq<byte>)

  ghost predicate WellFormed(q: Question) {
    && (forall i :: 0 <= i < |q.name.labels| ==> 1 <= |q.name.labels[i]| <= 63)
    && (q.name.pointer.Some? ==> q.name.pointer.value.0 >= 0xc0)
    && |q.kind| == 4
  }

  ghost predicate AllWellFormed(qs: seq<Question>) {
    forall i :: 0 <= i < |qs| ==> WellFormed(qs[i])
  }

  function PutLabel(l: seq<byte>, rest: seq<byte>): seq<byte>
    requires |l| <= 63
  {
    [U8(|l|)] + (l + rest)
  }

  ghost function PutName(q: Question, rest: seq<byte>): (s: seq<byte>)
    requires WellFormed(q)
    decreases |q.name.labels|
  {
    if q.name.labels != [] then PutLabel(q.name.labels[0], PutName(Tail(q), rest))
    else if q.name.pointer.Some? then [q.name.pointer.value.0, q.name.pointer.value.1] + rest
    else [0] + rest
  }

  function Tail(q: Question): Question
    requires q.name.labels != []
  {
    q.(name := Name(q.name.labels[1..], q.name.pointer))
  }

  ghost function PutQuestions(qs: seq<Question>, rest: seq<byte>): (s: seq<byte>)
    requires AllWellFormed(qs)
  {
    if qs == [] then rest else PutName(qs[0], qs[0].kind + PutQuestions(qs[1..], rest))
  }

  // ----- Reading inverts writing -----------------------------------------------

  lemma {:induction false} SkipPutName(q: Question, rest: seq<byte>)
    requires WellFormed(q)
    ensures SkipName(PutName(q, rest)) == Some(rest)
    decreases |q.name.labels|
  {
    var s := PutName(q, rest);
    if q.name.labels != [] {
      var l := q.name.labels[0];
      assert s[1 + |l|..] == PutName(Tail(q), rest);
      SkipPutName(Tail(q), rest);
    } else if q.name.pointer.Some? {
      assert s[2..] == rest;
    } else {
      assert s[1..] == rest;
    }
  }

  lemma {:induction false} SkipPutQuestions(qs: seq<Question>, rest: seq<byte>)
    requires AllWellFormed(qs)
    ensures SkipQuestions(PutQuestions(qs, rest), |qs|) == Some(rest)
  {
    hide SkipName, PutName;
    if qs != [] {
      var after := qs[0].kind + PutQuestions(qs[1..], rest);
      SkipPutName(qs[0], after);
      assert after[4..] == PutQuestions(qs[1..], rest);
      SkipPutQuestions(qs[1..], rest);
    }
  }

  lemma LabelSpelled(s: seq<byte>, t: Question, rest: seq<byte>) returns (q: Question)
    requires s != [] && 0 < s[0] < 0x40 && 1 + s[0] as int <= |s|
    requires WellFormed(t) && s[1 + s[0] as int..] == PutName(t, rest)
    ensures WellFormed(q) && q.kind == t.kind && s == PutName(q, rest)
  {
    var l := s[1..1 + s[0] as int];
    q := Question(Name([l] + t.name.labels, t.name.pointer), t.kind);
    assert Tail(q) == t;
    assert s == PutLabel(l, s[1 + |l|..]);
    hide PutLabel;
  }

  /** What SkipName passes over spells a name. */
  lemma {:induction false} NameSpelled(s: seq<byte>, kind: seq<byte>) returns (q: Question)
    requires SkipName(s).Some? && |kind| == 4
    ensures WellFormed(q) && q.kind == kind && s == PutName(q, SkipName(s).value)
    decreases |s|
  {
    if s[0] == 0 {
      q := Question(Name([], None), kind);
    } else if s[0] >= 0xc0 {
      q := Question(Name([], Some((s[0], s[1]))), kind);
    } else {
      var t := NameSpelled(s[1 + s[0] as int..], kind);
      q := LabelSpelled(s, t, SkipName(s).value);
    }
  }

  lemma {:induction false} QuestionsSpelled(s: seq<byte>, n: nat) returns (qs: seq<Question>)
    requires SkipQuestions(s, n).Some?
    ensures |qs| == n && AllWellFormed(qs) && s == PutQuestions(qs, SkipQuestions(s, n).value)
    decreases n
  {
    hide SkipName, PutName;
    if n == 0 {
      qs := [];
    } else {
      var r := SkipName(s).value;
      var t := QuestionsSpelled(r[4..], n - 1);
      var q := NameSpelled(s, r[..4]);
      qs := [q] + t;
      assert qs[1..] == t && r == q.kind + r[4..];
    }
  }

  // ----- Trailing bytes --------------------------------------------------------------

  lemma {:induction false} PutNameAppend(q: Question, a: seq<byte>, b: seq<byte>)
    requires WellFormed(q)
    ensures PutName(q, a + b) == PutName(q, a) + b
    decreases |q.name.labels|
  {
    if q.name.labels != [] {
      PutNameAppend(Tail(q), a, b);
    }
  }

  lemma {:induction false} PutQuestionsAppend(qs: seq<Question>, t: seq<byte>)
    requires AllWellFormed(qs)
    ensures PutQuestions(qs, t) == PutQuestions(qs, []) + t
  {
    hide PutName, WellFormed;
    if qs != [] {
      PutQuestionsAppend(qs[1..], t);
      var p := PutQuestions(qs[1..], []);
      assert qs[0].kind + (p + t) == (qs[0].kind + p) + t;
      PutNameAppend(qs[0], qs[0].kind + p, t);
    }
  }

  // ----- What dnsErrorResponse answers -------------------------------------------------

  /** A header, the questions it announces, and anything after them: the answer is the header marked as an
      error and exactly those questions. */
  lemma ErrorFromQuery(h: seq<byte>, qs: seq<Question>, trailing: seq<byte>, rcode: byte)
    requires |h| == 12 && AllWellFormed(qs) && U16(h[4..6]) == |qs|
    ensures ErrorResponse(h + PutQuestions(qs, trailing), rcode) ==
            Some(ErrorHeader(h, rcode) + PutQuestions(qs, []))
  {
    var query := h + PutQuestions(qs, trailing);
    SkipPutQuestions(qs, trailing);
    PutQuestionsAppend(qs, trailing);
    hide PutQuestions, SkipQuestions, ErrorHeader;
    assert query[..12] == h && query[12..] == PutQuestions(qs, trailing);
    assert query[12..|query| - |trailing|] == PutQuestions(qs, []);
  }

  ghost predicate Announced(query: seq<byte>, qs: seq<Question>, trailing: seq<byte>)
    requires |query| >= 12
  {
    AllWellFormed(qs) && |qs| == U16(query[4..6]) && query[12..] == PutQuestions(qs, trailing)
  }

  /** An answer exists exactly when the announced questions are there and well formed. */
  lemma AnswersIff(query: seq<byte>, rcode: byte)
    ensures ErrorResponse(query, rcode).Some? <==>
            |query| >= 12 && exists qs, trailing :: Announced(query, qs, trailing)
  {
    if |query| >= 12 {
      if SkipQuestions(query[12..], QdCount(query)).Some? {
        var qs := QuestionsSpelled(query[12..], QdCount(query));
        assert Announced(query, qs, SkipQuestions(query[12..], QdCount(query)).value);
      }
      if qs, trailing :| Announced(query, qs, trailing) {
        SkipPutQuestions(qs, trailing);
      }
    }
  }

  /** What the marked header keeps (ID, opcode, AA, TC, RD, the bits above RCODE, QDCOUNT) and what it sets. */
  lemma HeaderFields(h: seq<byte>, rcode: byte)
    requires |h| == 12
    ensures var r := ErrorHeader(h, rcode);
            && r[..2] == h[..2] && TopBit(r[2]) && r[2] as int % 0x80 == h[2] as int % 0x80
            && r[3] as int / 16 == h[3] as int / 16 && r[3] as int % 16 == rcode as int % 16
            && QdCount(r) == QdCount(h) && r[6..] == [0, 0, 0, 0, 0, 0]
  {
  }

  /** Every answer is valid for its query, and never longer. */
  lemma ErrorIsValid(query: seq<byte>, rcode: byte)
    requires ErrorResponse(query, rcode).Some?
    ensures var r := ErrorResponse(query, rcode).value; ValidResponse(query, r) && |r| <= |query|
  {
    HeaderFields(query[..12], rcode);
    hide ErrorHeader, SkipQuestions;
    assert query[..12][..2] == query[..2];
  }

  lemma HeaderTwice(h: seq<byte>, rcode: byte)
    requires |h| == 12
    ensures ErrorHeader(ErrorHeader(h, rcode), rcode) == ErrorHeader(h, rcode)
  {
  }

  /** Applied to its own answer it changes nothing. */
  lemma ErrorTwice(query: seq<byte>, rcode: byte)
    requires ErrorResponse(query, rcode).Some?
    ensures ErrorResponse(ErrorResponse(query, rcode).value, rcode) == ErrorResponse(query, rcode)
  {
    var h := query[..12];
    var qs := QuestionsSpelled(query[12..], QdCount(query));
    var t := SkipQuestions(query[12..], QdCount(query)).value;
    assert query == h + PutQuestions(qs, t);
    HeaderFields(h, rcode);
    HeaderTwice(h, rcode);
    hide ErrorHeader, PutQuestions, SkipQuestions, ErrorResponse;
    ErrorFromQuery(h, qs, t, rcode);
    ErrorFromQuery(ErrorHeader(h, rcode), qs, [], rcode);
  }
}
