/** Lines of text: fields, blanks, substrings. */
module Text {

  function Split(s: string, sep: char): (fields: seq<string>)
    ensures fields != [] && forall i :: 0 <= i < |fields| ==> sep !in fields[i]
    decreases |s|
  {
    if s == "" then [""]
    else if s[0] == sep then [""] + Split(s[1..], sep)
    else
      var rest := Split(s[1..], sep);
      [[s[0]] + rest[0]] + rest[1..]
  }

  function Join(fields: seq<string>, sep: char): string
    requires fields != []
  {
    if |fields| == 1 then fields[0] else fields[0] + [sep] + Join(fields[1..], sep)
  }

  lemma {:induction false} JoinSplit(s: string, sep: char)
    ensures Join(Split(s, sep), sep) == s
    decreases |s|
  {
    if s != "" {
      var rest := Split(s[1..], sep);
      JoinSplit(s[1..], sep);
      if s[0] == sep {
        assert Split(s, sep)[1..] == rest;
        assert s == "" + [sep] + s[1..];
      } else {
        var fields := Split(s, sep);
        assert fields == [[s[0]] + rest[0]] + rest[1..] && fields[1..] == rest[1..];
        assert s == [s[0]] + s[1..];
        if |rest| > 1 {
          assert [s[0]] + (rest[0] + [sep] + Join(rest[1..], sep)) == ([s[0]] + rest[0]) + [sep] + Join(rest[1..], sep);
        }
      }
    }
  }

  /** A field without separators, and what follows its separator. */
  lemma {:induction false} SplitFirst(field: string, sep: char, rest: string)
    requires sep !in field
    ensures Split(field, sep) == [field]
    ensures Split(field + [sep] + rest, sep) == [field] + Split(rest, sep)
    decreases |field|
  {
    var s := field + [sep] + rest;
    if field == "" {
      assert s[1..] == rest;
    } else {
      SplitFirst(field[1..], sep, rest);
      assert s[1..] == field[1..] + [sep] + rest;
      assert [field[0]] + field[1..] == field;
    }
  }

  lemma {:induction false} SplitJoin(fields: seq<string>, sep: char)
    requires fields != [] && forall i :: 0 <= i < |fields| ==> sep !in fields[i]
    ensures Split(Join(fields, sep), sep) == fields
    decreases |fields|
  {
    if |fields| == 1 {
      SplitFirst(fields[0], sep, "");
    } else {
      SplitJoin(fields[1..], sep);
      SplitFirst(fields[0], sep, Join(fields[1..], sep));
    }
  }

  lemma JoinTwo(a: string, b: string)
    ensures Join([a, b], ',') == a + "," + b
  {
    assert [a, b][1..] == [b];
  }

  lemma JoinThree(a: string, b: string, c: string)
    ensures Join([a, b, c], ',') == a + "," + b + "," + c
  {
    assert [a, b, c][1..] == [b, c];
    JoinTwo(b, c);
  }

  predicate IsSpace(c: char) {
    c == ' ' || c == '\t' || c == '\n' || c == '\r' || c == '\U{000b}' || c == '\U{000c}'
  }

  function LeftStrip(s: string): (r: string)
    ensures r == "" || !IsSpace(r[0])
    ensures |r| <= |s|
  {
    if s != "" && IsSpace(s[0]) then LeftStrip(s[1..]) else s
  }

  function RightStrip(s: string): (r: string)
    ensures r == "" || !IsSpace(r[|r| - 1])
    ensures |r| <= |s| && (r != "" ==> r[0] == s[0])
  {
    if s != "" && IsSpace(s[|s| - 1]) then RightStrip(s[..|s| - 1]) else s
  }

  function Strip(s: string): (r: string)
    ensures r == "" || (!IsSpace(r[0]) && !IsSpace(r[|r| - 1]))
  {
    RightStrip(LeftStrip(s))
  }

  lemma {:induction false} LeftStripKeeps(s: string, c: char)
    requires c in s && !IsSpace(c)
    ensures c in LeftStrip(s)
  {
    if IsSpace(s[0]) {
      LeftStripKeeps(s[1..], c);
    }
  }

  lemma {:induction false} RightStripKeeps(s: string, c: char)
    requires c in s && !IsSpace(c)
    ensures c in RightStrip(s)
    decreases |s|
  {
    if IsSpace(s[|s| - 1]) {
      RightStripKeeps(s[..|s| - 1], c);
    }
  }

  lemma StripKeeps(s: string, c: char)
    requires c in s && !IsSpace(c)
    ensures c in Strip(s)
  {
    LeftStripKeeps(s, c);
    RightStripKeeps(LeftStrip(s), c);
  }

  predicate Stripped(s: string) {
    s == "" || (!IsSpace(s[0]) && !IsSpace(s[|s| - 1]))
  }

  lemma StripStripped(s: string)
    requires Stripped(s)
    ensures Strip(s) == s
  {
  }

  predicate Blanks(s: string) {
    forall c <- s :: c in " \t\n\r\U{000b}\U{000c}"
  }

  lemma {:induction false} LeftBlanks(front: string, s: string)
    requires Blanks(front) && (s == "" || !IsSpace(s[0]))
    ensures LeftStrip(front + s) == s
  {
    if front == "" {
      assert front + s == s;
    } else {
      LeftBlanks(front[1..], s);
      assert (front + s)[1..] == front[1..] + s && front[0] in front;
    }
  }

  lemma {:induction false} RightBlanks(s: string, back: string)
    requires Blanks(back) && (s == "" || !IsSpace(s[|s| - 1]))
    ensures RightStrip(s + back) == s
    decreases |back|
  {
    if back == "" {
      assert s + back == s;
    } else {
      var n := |back| - 1;
      assert back[n] in back && forall c <- back[..n] :: c in back;
      RightBlanks(s, back[..n]);
      assert (s + back)[..|s| + n] == s + back[..n] && (s + back)[|s| + n] == back[n];
    }
  }

  /** Blanks go on both sides, and nothing else does. */
  lemma StripBetween(front: string, s: string, back: string)
    requires Blanks(front) && Blanks(back) && Stripped(s) && s != ""
    ensures Strip(front + s + back) == s
  {
    assert front + s + back == front + (s + back);
    LeftBlanks(front, s + back);
    RightBlanks(s, back);
  }

  function LowerChar(c: char): char {
    if 'A' <= c <= 'Z' then c - 'A' + 'a' else c
  }

  function Lower(s: string): (r: string)
    ensures |r| == |s|
  {
    if s == "" then "" else [LowerChar(s[0])] + Lower(s[1..])
  }

  function UpperChar(c: char): char {
    if 'a' <= c <= 'z' then c - 'a' + 'A' else c
  }

  function Upper(s: string): (r: string)
    ensures |r| == |s|
  {
    if s == "" then "" else [UpperChar(s[0])] + Upper(s[1..])
  }

  /** The 26 letters of ASCII change, 65 to 90 and 97 to 122, and nothing else does. */
  lemma {:induction false} LettersChange(s: string, i: nat)
    requires i < |s|
    ensures Lower(s)[i] as int == if 65 <= s[i] as int <= 90 then s[i] as int + 32 else s[i] as int
    ensures Upper(s)[i] as int == if 97 <= s[i] as int <= 122 then s[i] as int - 32 else s[i] as int
  {
    if i > 0 {
      LettersChange(s[1..], i - 1);
    }
  }

  predicate Contains(s: string, part: string) {
    exists i :: 0 <= i <= |s| && part <= s[i..]
  }

  /** The part stands somewhere in s. */
  lemma ContainsIff(s: string, part: string)
    ensures Contains(s, part) <==> exists a, b :: Surrounds(s, a, part, b)
  {
    if i :| 0 <= i <= |s| && part <= s[i..] {
      var a, b := s[..i], s[i + |part|..];
      assert s == a + s[i..] && s[i..] == part + s[i..][|part|..];
      assert Surrounds(s, a, part, b);
    }
    if a, b :| Surrounds(s, a, part, b) {
      assert s[|a|..] == part + b;
      assert part <= s[|a|..];
    }
  }

  predicate Surrounds(s: string, a: string, part: string, b: string) {
    s == a + part + b
  }
}
