/** The text of one line of a rule list: quoted fields, and the parenthesised members of a logical rule. */
module RuleText {
  import opened Bytes
  import opened Text

  // ----- csv_split ------------------------------------------------------------

  /** The fields of s, when cur is the field under way and q tells whether a quote is open. */
  function Csv(s: string, q: bool, cur: string): (r: seq<string>)
    ensures r != []
    decreases |s|
  {
    if s == "" then [cur]
    else if s[0] == '"' then Csv(s[1..], !q, cur)
    else if s[0] == ',' && !q then [cur] + Csv(s[1..], q, "")
    else Csv(s[1..], q, cur + [s[0]])
  }

  function StripAll(fields: seq<string>): (r: seq<string>)
    ensures |r| == |fields| && forall i :: 0 <= i < |r| ==> r[i] == Strip(fields[i])
  {
    if fields == [] then [] else [Strip(fields[0])] + StripAll(fields[1..])
  }

  function CsvSplit(s: string): (r: seq<string>)
    ensures r != []
  {
    StripAll(Csv(s, false, ""))
  }

  method SplitCsv(s: string) returns (fields: seq<string>)
    ensures fields == CsvSplit(s)
  {
    var out, cur, q: bool := [], "", false;
    for i := 0 to |s|
      invariant Csv(s, false, "") == out + Csv(s[i..], q, cur)
    {
      assert s[i..][1..] == s[i + 1..];
      if s[i] == '"' {
        q := !q;
      } else if s[i] == ',' && !q {
        out := out + [cur];
        cur := "";
      } else {
        cur := cur + [s[i]];
      }
    }
    out := out + [cur];
    return StripAll(out);
  }

  /** Reading w from outside or inside of quotes: whether it ends inside; None when a comma stands outside. */
  function Quoting(w: string, q: bool): Option<bool>
    decreases |w|
  {
    if w == "" then Some(q)
    else if w[0] == '"' then Quoting(w[1..], !q)
    else if w[0] == ',' && !q then None
    else Quoting(w[1..], q)
  }

  /** A field as a line may write it, in quotes, with blanks, or both; the last one may leave its quote open. */
  predicate IsField(w: string, last: bool) {
    var q := Quoting(w, false);
    q.Some? && (last || !q.value)
  }

  ghost predicate AreFields(ws: seq<string>) {
    ws != [] && forall i :: 0 <= i < |ws| ==> IsField(ws[i], i == |ws| - 1)
  }

  function Unquoted(w: string): string {
    if w == "" then "" else if w[0] == '"' then Unquoted(w[1..]) else [w[0]] + Unquoted(w[1..])
  }

  /** What a field says, whatever its quotes and blanks. */
  function Value(w: string): string {
    Strip(Unquoted(w))
  }

  function Values(ws: seq<string>): (r: seq<string>)
    ensures |r| == |ws| && forall i :: 0 <= i < |r| ==> r[i] == Value(ws[i])
  {
    if ws == [] then [] else [Value(ws[0])] + Values(ws[1..])
  }

  lemma {:induction false} CsvRun(w: string, rest: string, q: bool, cur: string)
    requires Quoting(w, q).Some?
    ensures Csv(w + rest, q, cur) == Csv(rest, Quoting(w, q).value, cur + Unquoted(w))
    decreases |w|
  {
    if w == "" {
      assert w + rest == rest && cur + Unquoted(w) == cur;
    } else {
      assert (w + rest)[1..] == w[1..] + rest;
      if w[0] == '"' {
        CsvRun(w[1..], rest, !q, cur);
      } else {
        CsvRun(w[1..], rest, q, cur + [w[0]]);
        assert cur + [w[0]] + Unquoted(w[1..]) == cur + ([w[0]] + Unquoted(w[1..]));
      }
    }
  }

  lemma CsvEnds(rest: string, q: bool, cur: string)
    ensures Csv("", q, cur) == [cur]
    ensures Csv("," + rest, false, cur) == [cur] + Csv(rest, false, "")
  {
    assert ("," + rest)[1..] == rest;
  }

  lemma FieldsMore(ws: seq<string>)
    requires |ws| > 1 && AreFields(ws)
    ensures IsField(ws[0], false) && AreFields(ws[1..])
  {
    hide IsField;
    assert forall i :: 0 <= i < |ws[1..]| ==> ws[1..][i] == ws[i + 1];
  }

  /** csv_split gives what the fields of a line say. */
  lemma {:induction false} CsvInverse(ws: seq<string>)
    requires AreFields(ws)
    ensures CsvSplit(Join(ws, ',')) == Values(ws)
    decreases |ws|
  {
    hide Csv, Quoting, Unquoted, Strip;
    var w := ws[0];
    assert IsField(w, |ws| == 1);
    assert "" + Unquoted(w) == Unquoted(w);
    if |ws| == 1 {
      CsvRun(w, "", false, "");
      assert w + "" == w;
      CsvEnds("", Quoting(w, false).value, Unquoted(w));
    } else {
      FieldsMore(ws);
      var line := Join(ws[1..], ',');
      CsvRun(w, "," + line, false, "");
      assert w + [','] + line == w + ("," + line);
      CsvEnds(line, false, Unquoted(w));
      CsvInverse(ws[1..]);
      assert ([Unquoted(w)] + Csv(line, false, ""))[1..] == Csv(line, false, "");
    }
  }

  /** The fields of s as they stand in it. */
  function Cut(s: string, q: bool): (ws: seq<string>)
    ensures ws != []
    decreases |s|
  {
    if s == "" then [""]
    else if s[0] == ',' && !q then [""] + Cut(s[1..], false)
    else
      var rest := Cut(s[1..], if s[0] == '"' then !q else q);
      [[s[0]] + rest[0]] + rest[1..]
  }

  /** Every line is a line of fields. */
  lemma {:induction false} CsvExact(s: string)
    ensures AreFields(Cut(s, false)) && Join(Cut(s, false), ',') == s
  {
    CutFields(s, false);
  }

  ghost predicate CutOk(ws: seq<string>, s: string, q: bool) {
    && ws != [] && Join(ws, ',') == s
    && Quoting(ws[0], q).Some? && (|ws| > 1 ==> !Quoting(ws[0], q).value)
    && forall i :: 1 <= i < |ws| ==> IsField(ws[i], i == |ws| - 1)
  }

  lemma {:induction false} CutFields(s: string, q: bool)
    ensures CutOk(Cut(s, q), s, q)
    decreases |s|
  {
    if s != "" {
      if s[0] == ',' && !q {
        CutFields(s[1..], false);
        CutComma(Cut(s[1..], false), s);
      } else {
        var q' := if s[0] == '"' then !q else q;
        CutFields(s[1..], q');
        CutChar(Cut(s[1..], q'), s, q, q');
      }
    }
  }

  lemma CutComma(rest: seq<string>, s: string)
    requires s != "" && s[0] == ',' && CutOk(rest, s[1..], false)
    ensures CutOk([""] + rest, s, false)
  {
    var ws := [""] + rest;
    assert ws[1..] == rest;
    assert s == "" + [','] + s[1..];
    hide Join;
    assert forall i :: 1 <= i < |ws| ==> ws[i] == rest[i - 1];
    assert IsField(rest[0], |rest| == 1);
  }

  lemma CutChar(rest: seq<string>, s: string, q: bool, q': bool)
    requires s != "" && (s[0] != ',' || q) && q' == (if s[0] == '"' then !q else q) && CutOk(rest, s[1..], q')
    ensures CutOk([[s[0]] + rest[0]] + rest[1..], s, q)
  {
    var ws := [[s[0]] + rest[0]] + rest[1..];
    assert ws[0][1..] == rest[0] && ws[1..] == rest[1..];
    assert s == [s[0]] + s[1..];
    if |rest| > 1 {
      var tail := Join(rest[1..], ',');
      assert [s[0]] + (rest[0] + [','] + tail) == ([s[0]] + rest[0]) + [','] + tail;
    }
    assert forall i :: 1 <= i < |ws| ==> ws[i] == rest[i];
  }

  /** Two ways to write a text: as it is, if it has no comma and no quote, or in quotes. */
  lemma WaysToWrite(text: string, last: bool)
    requires '"' !in text
    ensures ',' !in text ==> IsField(text, last) && Value(text) == Strip(text)
    ensures IsField("\"" + text + "\"", last) && Value("\"" + text + "\"") == Strip(text)
  {
    QuoteFree(text, "", false);
    QuoteFree(text, "\"", true);
    assert text + "" == text;
    var w := "\"" + text + "\"";
    assert w[1..] == text + "\"" && text + "" == text;
    hide Strip;
    assert Quoting("\"", true) == Quoting("", false);
    assert Unquoted("\"") == Unquoted("");
  }

  lemma {:induction false} QuoteFree(t: string, rest: string, q: bool)
    requires '"' !in t
    ensures q || ',' !in t ==> Quoting(t + rest, q) == Quoting(rest, q)
    ensures Unquoted(t + rest) == t + Unquoted(rest)
  {
    if t == "" {
      assert t + rest == rest;
    } else {
      QuoteFree(t[1..], rest, q);
      assert (t + rest)[1..] == t[1..] + rest;
    }
  }

  lemma {:induction false} StripAllStripped(t: seq<string>)
    requires forall i :: 0 <= i < |t| ==> Stripped(t[i])
    ensures StripAll(t) == t
  {
    if t != [] {
      StripStripped(t[0]);
      StripAllStripped(t[1..]);
      hide Strip;
      assert t == [t[0]] + t[1..];
    }
  }

  // ----- Parentheses -----------------------------------------------------------------

  function Turn(c: char): int {
    if c == '(' then 1 else if c == ')' then -1 else 0
  }

  /** Reading s from depth d never goes below zero and ends at zero. */
  predicate Closes(s: string, d: int)
    decreases |s|
  {
    d >= 0 && if s == "" then d == 0 else Closes(s[1..], d + Turn(s[0]))
  }

  predicate Balanced(s: string) {
    Closes(s, 0)
  }

  /** The members of s: cur is the member under way. */
  function Members(s: string, depth: int, cur: Option<string>): seq<string>
    decreases |s|
  {
    if s == "" then []
    else
      var depth' := depth + Turn(s[0]);
      if s[0] == '(' && depth == 0 then Members(s[1..], depth', Some(""))
      else if s[0] == ')' && depth' == 0 && cur.Some? then [cur.value] + Members(s[1..], depth', None)
      else Members(s[1..], depth', if cur.Some? then Some(cur.value + [s[0]]) else None)
  }

  function SplitTopParens(s: string): seq<string> {
    Members(s, 0, None)
  }

  /** lowest is the least depth the scan reached. */
  method TopParens(s: string) returns (members: seq<string>, lowest: int)
    ensures members == SplitTopParens(s)
    ensures Balanced(s) ==> lowest == 0
  {
    members, lowest := [], 0;
    var depth, start: Option<int> := 0, None;
    for i := 0 to |s|
      invariant start.Some? ==> 0 <= start.value <= i
      invariant lowest <= 0 && (Balanced(s) ==> Closes(s[i..], depth) && lowest == 0)
      invariant SplitTopParens(s) ==
                members + Members(s[i..], depth, if start.Some? then Some(s[start.value..i]) else None)
    {
      assert s[i..][1..] == s[i + 1..];
      assert s[i + 1..i + 1] == "";
      assert start.Some? ==> s[start.value..i + 1] == s[start.value..i] + [s[i]];
      if s[i] == '(' {
        if depth == 0 {
          start := Some(i + 1);
        }
        depth := depth + 1;
      } else if s[i] == ')' {
        depth := depth - 1;
        if depth == 0 && start.Some? {
          members := members + [s[start.value..i]];
          start := None;
        }
      }
      if depth < lowest {
        lowest := depth;
      }
    }
  }

  lemma {:induction false} MemberRun(m: string, rest: string, d: int, cur: string)
    requires d >= 1 && Closes(m, d - 1)
    ensures Members(m + ")" + rest, d, Some(cur)) == [cur + m] + Members(rest, 0, None)
    decreases |m|
  {
    var s := m + ")" + rest;
    if m == "" {
      assert s[1..] == rest && cur + m == cur;
    } else {
      assert s[0] == m[0] && s[1..] == m[1..] + ")" + rest;
      assert d + Turn(m[0]) >= 1;
      MemberRun(m[1..], rest, d + Turn(m[0]), cur + [m[0]]);
      assert cur + [m[0]] + m[1..] == cur + m;
    }
  }

  predicate NoParens(s: string) {
    '(' !in s && ')' !in s
  }

  /** A member of a group, and the text in front of its parenthesis. */
  datatype Piece = Piece(gap: string, text: string)

  ghost predicate ArePieces(ps: seq<Piece>) {
    forall i :: 0 <= i < |ps| ==> NoParens(ps[i].gap) && Balanced(ps[i].text)
  }

  function PieceTexts(ps: seq<Piece>): (r: seq<string>)
    ensures |r| == |ps| && forall i :: 0 <= i < |r| ==> r[i] == ps[i].text
  {
    if ps == [] then [] else [ps[0].text] + PieceTexts(ps[1..])
  }

  /** The inside of a logical rule: the members in parentheses, with anything between them. */
  function Group(ps: seq<Piece>, rest: string): string {
    if ps == [] then rest else ps[0].gap + ("(" + (ps[0].text + ")" + Group(ps[1..], rest)))
  }

  lemma {:induction false} GapRun(gap: string, rest: string)
    requires NoParens(gap)
    ensures Members(gap + rest, 0, None) == Members(rest, 0, None)
    ensures Closes(gap + rest, 0) == Closes(rest, 0)
  {
    if gap == "" {
      assert gap + rest == rest;
    } else {
      GapRun(gap[1..], rest);
      assert (gap + rest)[1..] == gap[1..] + rest;
    }
  }

  lemma {:induction false} MembersOfGroup(ps: seq<Piece>, rest: string)
    requires ArePieces(ps) && NoParens(rest)
    ensures SplitTopParens(Group(ps, rest)) == PieceTexts(ps)
    decreases |ps|
  {
    if ps == [] {
      GapRun(rest, "");
      assert rest + "" == rest;
    } else {
      var p, more := ps[0], Group(ps[1..], rest);
      assert NoParens(p.gap) && Balanced(p.text);
      GapRun(p.gap, "(" + (p.text + ")" + more));
      MemberOpens(p.text, more);
      assert forall i :: 0 <= i < |ps[1..]| ==> ps[1..][i] == ps[i + 1];
      MembersOfGroup(ps[1..], rest);
    }
  }

  lemma MemberOpens(m: string, rest: string)
    requires Balanced(m)
    ensures Members("(" + (m + ")" + rest), 0, None) == [m] + Members(rest, 0, None)
    ensures Closes(rest, 0) ==> Closes("(" + (m + ")" + rest), 0)
  {
    assert ("(" + (m + ")" + rest))[1..] == m + ")" + rest;
    MemberRun(m, rest, 1, "");
    assert "" + m == m;
    if Closes(rest, 0) {
      ClosesThen(m, rest, 1);
    }
  }

  lemma {:induction false} GroupBalanced(ps: seq<Piece>, rest: string)
    requires ArePieces(ps) && NoParens(rest)
    ensures Balanced(Group(ps, rest))
    decreases |ps|
  {
    if ps == [] {
      GapRun(rest, "");
      assert rest + "" == rest;
    } else {
      var p, more := ps[0], Group(ps[1..], rest);
      assert NoParens(p.gap) && Balanced(p.text);
      assert forall i :: 0 <= i < |ps[1..]| ==> ps[1..][i] == ps[i + 1];
      GroupBalanced(ps[1..], rest);
      MemberOpens(p.text, more);
      GapRun(p.gap, "(" + (p.text + ")" + more));
    }
  }

  // ----- parse_logical -----------------------------------------------------------------

  /** Where the parenthesis open at depth d closes. */
  function CloseAt(s: string, d: int): (r: Option<nat>)
    ensures r.Some? ==> r.value < |s| && s[r.value] == ')'
    decreases |s|
  {
    if s == "" then None
    else if s[0] == ')' && d == 1 then Some(0)
    else
      var r := CloseAt(s[1..], d + Turn(s[0]));
      if r.None? then None else Some(r.value + 1)
  }

  function DropCommas(s: string): string {
    if s != "" && s[0] == ',' then DropCommas(s[1..]) else s
  }

  function IndexOf(s: string, c: char): (r: Option<nat>)
    ensures r.Some? ==> r.value < |s| && s[r.value] == c && c !in s[..r.value]
    ensures r.None? ==> c !in s
  {
    if s == "" then None
    else if s[0] == c then Some(0)
    else
      var r := IndexOf(s[1..], c);
      if r.None? then None else Some(r.value + 1)
  }

  /** The inside of the group, if it closes, and the members and the policy. A line without a parenthesis raises an
      error; `group` None is a group that never closes. */
  datatype Logical = NoGroup | Logical(group: Option<string>, members: seq<string>, policy: Option<string>)

  function ParseLogical(line: string): Logical {
    var i := IndexOf(line, '(');
    if i.None? then NoGroup
    else
      var inside := line[i.value + 1..];
      var end := CloseAt(inside, 1);
      if end.None? then Logical(None, [], None)
      else
        var tail := DropCommas(inside[end.value + 1..]);
        Logical(Some(inside[..end.value]), SplitTopParens(inside[..end.value]),
                if tail == "" then None else Some(CsvSplit(tail)[0]))
  }

  method ReadLogical(line: string) returns (r: Logical)
    ensures r == ParseLogical(line)
    ensures r.Logical? && r.group.Some? ==> Balanced(r.group.value)
  {
    hide IndexOf, CloseAt, DropCommas, CsvSplit, SplitTopParens, Balanced;
    var i := IndexOf(line, '(');
    if i.None? {
      return NoGroup;
    }
    var end := FindClose(line, i.value);
    if end.None? {
      return Logical(None, [], None);
    }
    InsideSlices(line, i.value, end.value);
    var group := line[i.value + 1..end.value];
    CloseAtOne(line[i.value + 1..]);
    var tail := DropCommas(line[end.value + 1..]);
    var policy := None;
    if tail != "" {
      var fields := SplitCsv(tail);
      policy := Some(fields[0]);
    }
    var members, lowest := TopParens(group);
    return Logical(Some(group), members, policy);
  }

  lemma InsideSlices(line: string, i: nat, end: nat)
    requires i < end < |line|
    ensures line[i + 1..][..end - i - 1] == line[i + 1..end] && line[i + 1..][end - i..] == line[end + 1..]
  {
  }

  lemma CloseAtOne(s: string)
    requires CloseAt(s, 1).Some?
    ensures Balanced(s[..CloseAt(s, 1).value])
  {
    CloseAtCloses(s, 1);
    hide CloseAt, Closes;
  }

  method FindClose(line: string, i: nat) returns (end: Option<nat>)
    requires i < |line| && line[i] == '('
    ensures var r := CloseAt(line[i + 1..], 1);
            end == if r.Some? then Some(i + 1 + r.value) else None
  {
    var depth := 1;
    for j := i + 1 to |line|
      invariant depth >= 1
      invariant var r, s := CloseAt(line[i + 1..], 1), CloseAt(line[j..], depth);
                r == if s.Some? then Some(j - i - 1 + s.value) else None
    {
      assert line[j..][1..] == line[j + 1..];
      if line[j] == '(' {
        depth := depth + 1;
      } else if line[j] == ')' {
        depth := depth - 1;
        if depth == 0 {
          return Some(j);
        }
      }
    }
    return None;
  }

  lemma {:induction false} CloseAtCloses(s: string, d: int)
    requires d >= 1 && CloseAt(s, d).Some?
    ensures Closes(s[..CloseAt(s, d).value], d - 1)
    decreases |s|
  {
    if !(s[0] == ')' && d == 1) {
      var j := CloseAt(s[1..], d + Turn(s[0])).value;
      CloseAtCloses(s[1..], d + Turn(s[0]));
      assert s[..j + 1][1..] == s[1..][..j];
    }
  }

  /** parse_logical hands a balanced group to split_top_parens, whose depth therefore never goes below zero. */
  lemma GroupIsBalanced(line: string)
    requires ParseLogical(line).Logical? && ParseLogical(line).group.Some?
    ensures Balanced(ParseLogical(line).group.value)
  {
    hide IndexOf, CloseAt, DropCommas, CsvSplit, SplitTopParens, Balanced;
    CloseAtOne(line[IndexOf(line, '(').value + 1..]);
  }

  lemma {:induction false} CloseAtRun(g: string, tail: string, d: int)
    requires d >= 1 && Closes(g, d - 1)
    ensures CloseAt(g + ")" + tail, d) == Some(|g|)
    decreases |g|
  {
    var s := g + ")" + tail;
    if g != "" {
      assert s[0] == g[0] && s[1..] == g[1..] + ")" + tail;
      CloseAtRun(g[1..], tail, d + Turn(g[0]));
    }
  }

  lemma {:induction false} ClosesThen(m: string, rest: string, d: int)
    requires d >= 1 && Closes(m, d - 1) && Closes(rest, 0)
    ensures Closes(m + ")" + rest, d)
    decreases |m|
  {
    var s := m + ")" + rest;
    if m == "" {
      assert s[1..] == rest;
    } else {
      assert s[0] == m[0] && s[1..] == m[1..] + ")" + rest;
      ClosesThen(m[1..], rest, d + Turn(m[0]));
    }
  }

  // ----- Logical lines -------------------------------------------------------------------

  /** No parenthesis of s closes the one open in front of it. */
  ghost predicate NeverCloses(s: string) {
    forall k :: 0 <= k < |s| && s[k] == ')' ==> !Balanced(s[..k])
  }

  lemma NeverClosesIff(s: string)
    ensures NeverCloses(s) <==> CloseAt(s, 1).None?
  {
    if CloseAt(s, 1).Some? {
      CloseAtOne(s);
      hide CloseAt, Balanced;
      assert s[CloseAt(s, 1).value] == ')';
    } else {
      forall k | 0 <= k < |s| && s[k] == ')'
        ensures !Balanced(s[..k])
      {
        if Closes(s[..k], 0) {
          assert s == s[..k] + ")" + s[k + 1..];
          CloseAtRun(s[..k], s[k + 1..], 1);
        }
      }
    }
  }

  /** The line opens no group, or one that never closes. */
  ghost predicate Unclosed(line: string) {
    var i := IndexOf(line, '(');
    i.Some? ==> NeverCloses(line[i.value + 1..])
  }

  /** A logical rule written out: what stands in front of the group, the group, commas, the policy, and whatever
      follows behind another comma. */
  datatype Frame = Frame(head: string, ps: seq<Piece>, rest: string, commas: string, policy: string, more: string)

  predicate OnlyCommas(s: string) {
    forall i :: 0 <= i < |s| ==> s[i] == ','
  }

  predicate IsTail(policy: string, more: string) {
    && IsField(policy, more == "") && (policy == "" ==> more == "")
    && (more == "" || more[0] == ',')
  }

  ghost predicate IsFrame(f: Frame) {
    '(' !in f.head && ArePieces(f.ps) && NoParens(f.rest) && OnlyCommas(f.commas) && IsTail(f.policy, f.more)
  }

  function LogicalLine(f: Frame): string {
    f.head + "(" + (Group(f.ps, f.rest) + ")" + (f.commas + (f.policy + f.more)))
  }

  /** Parsing gives back the members and the policy. */
  lemma LogicalInverse(f: Frame)
    requires IsFrame(f)
    ensures ParseLogical(LogicalLine(f)) ==
            Logical(Some(Group(f.ps, f.rest)), PieceTexts(f.ps), if f.policy == "" then None else Some(Value(f.policy)))
  {
    var line, g, tail := LogicalLine(f), Group(f.ps, f.rest), f.commas + (f.policy + f.more);
    var inside := g + ")" + tail;
    IndexFirst(f.head, '(', inside);
    OpensAt(f.head, inside);
    GroupBalanced(f.ps, f.rest);
    CloseAtRun(g, tail, 1);
    MembersOfGroup(f.ps, f.rest);
    TailPolicy(f.commas, f.policy, f.more);
    hide *;
    ParseOpened(line, f.head, g, tail);
  }

  lemma OpensAt(head: string, inside: string)
    ensures (head + "(" + inside)[|head| + 1..] == inside
  {
  }

  lemma ParseOpened(line: string, head: string, g: string, tail: string)
    requires IndexOf(line, '(') == Some(|head|) && |head| + 1 <= |line|
    requires line[|head| + 1..] == g + ")" + tail && CloseAt(g + ")" + tail, 1) == Some(|g|)
    ensures var t := DropCommas(tail);
            ParseLogical(line) ==
            Logical(Some(g), SplitTopParens(g), if t == "" then None else Some(CsvSplit(t)[0]))
  {
    hide IndexOf, CloseAt, DropCommas, SplitTopParens, CsvSplit;
    var inside := g + ")" + tail;
    assert inside[|g| + 1..] == tail && inside[..|g|] == g;
  }

  lemma {:induction false} IndexFirst(before: string, c: char, rest: string)
    requires c !in before
    ensures IndexOf(before + [c] + rest, c) == Some(|before|)
    decreases |before|
  {
    var s := before + [c] + rest;
    if before != "" {
      assert s[0] == before[0] && s[1..] == before[1..] + [c] + rest;
      IndexFirst(before[1..], c, rest);
    }
  }

  lemma {:induction false} DropRun(commas: string, t: string)
    requires OnlyCommas(commas) && (t == "" || t[0] != ',')
    ensures DropCommas(commas + t) == t
  {
    if commas == "" {
      assert commas + t == t;
    } else {
      assert (commas + t)[1..] == commas[1..] + t;
      DropRun(commas[1..], t);
    }
  }

  lemma CsvHead(more: string, q: bool, cur: string)
    requires more == "" || (more[0] == ',' && !q)
    ensures Csv(more, q, cur)[0] == cur
  {
  }

  lemma TailPolicy(commas: string, policy: string, more: string)
    requires OnlyCommas(commas) && IsTail(policy, more)
    ensures var tail := DropCommas(commas + (policy + more));
            (tail == "" <==> policy == "") && (tail != "" ==> CsvSplit(tail)[0] == Value(policy))
  {
    var t := policy + more;
    assert policy != "" ==> t[0] == policy[0] && t != "";
    DropRun(commas, t);
    CsvRun(policy, more, false, "");
    assert "" + Unquoted(policy) == Unquoted(policy);
    CsvHead(more, Quoting(policy, false).value, Unquoted(policy));
    hide Csv, Quoting, Unquoted, DropCommas, Strip;
  }

  // ----- Every logical line has its parts --------------------------------------------------

  lemma {:induction false} CutCommas(s: string) returns (commas: string, t: string)
    ensures OnlyCommas(commas) && s == commas + t && (t == "" || t[0] != ',')
    decreases |s|
  {
    if s != "" && s[0] == ',' {
      commas, t := CutCommas(s[1..]);
      commas := "," + commas;
    } else {
      commas, t := "", s;
    }
  }

  /** The first field of a line and what follows it. */
  lemma CutFirst(t: string) returns (policy: string, more: string)
    requires t == "" || t[0] != ','
    ensures t == policy + more && IsTail(policy, more)
  {
    CsvExact(t);
    var ws := Cut(t, false);
    policy := ws[0];
    assert IsField(ws[0], |ws| == 1);
    if |ws| == 1 {
      more := "";
      assert policy + more == t;
    } else {
      more := "," + Join(ws[1..], ',');
      assert policy + more == policy + [','] + Join(ws[1..], ',');
    }
  }

  lemma {:induction false} CloseAtExists(s: string, d: int)
    requires d >= 1 && Closes(s, d)
    ensures CloseAt(s, d).Some? && Closes(s[CloseAt(s, d).value + 1..], 0)
    decreases |s|
  {
    if !(s[0] == ')' && d == 1) {
      CloseAtExists(s[1..], d + Turn(s[0]));
      var j := CloseAt(s[1..], d + Turn(s[0])).value;
      assert s[1..][j + 1..] == s[j + 2..];
    }
  }

  lemma {:induction false} OnlyOpens(s: string, d: int)
    requires '(' !in s && Closes(s, d) && d == 0
    ensures ')' !in s
  {
    if s != "" {
      OnlyOpens(s[1..], d);
    }
  }

  lemma GroupCons(gap: string, m: string, tail: seq<Piece>, rest: string)
    requires NoParens(gap) && Balanced(m) && ArePieces(tail)
    ensures var ps := [Piece(gap, m)] + tail;
            ArePieces(ps) && Group(ps, rest) == gap + ("(" + (m + ")" + Group(tail, rest)))
  {
    hide Balanced;
    assert ([Piece(gap, m)] + tail)[1..] == tail;
  }

  lemma Around(s: string, i: nat)
    requires i < |s|
    ensures s == s[..i] + ([s[i]] + s[i + 1..]) && s == s[..i] + [s[i]] + s[i + 1..]
  {
  }

  /** What the parenthesis open in front of inside encloses, and what follows. */
  lemma CutMember(inside: string) returns (m: string, t: string)
    requires Closes(inside, 1)
    ensures inside == m + ")" + t && Balanced(m) && Balanced(t)
  {
    CloseAtExists(inside, 1);
    CloseAtOne(inside);
    hide CloseAt, Closes;
    var e := CloseAt(inside, 1).value;
    Around(inside, e);
    m, t := inside[..e], inside[e + 1..];
  }

  lemma CutPiece(s: string, i: nat) returns (gap: string, m: string, t: string)
    requires Balanced(s) && i < |s| && s[i] == '(' && '(' !in s[..i]
    ensures s == gap + ("(" + (m + ")" + t)) && NoParens(gap) && Balanced(m) && Balanced(t)
  {
    Around(s, i);
    gap := s[..i];
    GapIsFlat(gap, "(" + s[i + 1..]);
    assert ("(" + s[i + 1..])[1..] == s[i + 1..];
    assert Closes(s[i + 1..], 1);
    hide *;
    m, t := CutMember(s[i + 1..]);
  }

  lemma Shorter(gap: string, m: string, t: string)
    ensures |t| < |gap + ("(" + (m + ")" + t))|
  {
  }

  /** Every balanced text is a group of members. */
  lemma {:induction false} CutGroup(s: string) returns (ps: seq<Piece>, rest: string)
    requires Balanced(s)
    ensures ArePieces(ps) && NoParens(rest) && Group(ps, rest) == s
    decreases |s|
  {
    var i := IndexOf(s, '(');
    if i.None? {
      ps, rest := [], s;
      OnlyOpens(s, 0);
    } else {
      hide *;
      var gap, m, t := CutPiece(s, i.value);
      Shorter(gap, m, t);
      ps, rest := CutGroup(t);
      GroupCons(gap, m, ps, rest);
      ps := [Piece(gap, m)] + ps;
    }
  }

  /** Text in front of the first parenthesis of a balanced string. */
  lemma {:induction false} GapIsFlat(gap: string, rest: string)
    requires '(' !in gap && Balanced(gap + rest)
    ensures NoParens(gap) && Balanced(rest)
  {
    if gap == "" {
      assert gap + rest == rest;
    } else {
      assert (gap + rest)[1..] == gap[1..] + rest;
      assert !Closes(gap[1..] + rest, -1);
      GapIsFlat(gap[1..], rest);
    }
  }

  /** A line with a group that closes has all parts of a logical rule. */
  lemma LogicalExact(line: string) returns (f: Frame)
    requires '(' in line && !Unclosed(line)
    ensures IsFrame(f) && LogicalLine(f) == line
  {
    var i := IndexOf(line, '(').value;
    var head, inside := line[..i], line[i + 1..];
    Around(line, i);
    NeverClosesIff(inside);
    CloseAtOne(inside);
    var e := CloseAt(inside, 1).value;
    Around(inside, e);
    hide *;
    var ps, rest := CutGroup(inside[..e]);
    var commas, t := CutCommas(inside[e + 1..]);
    var policy, more := CutFirst(t);
    f := Frame(head, ps, rest, commas, policy, more);
    FrameLine(f);
  }

  lemma FrameLine(f: Frame)
    ensures LogicalLine(f) == f.head + ['('] + (Group(f.ps, f.rest) + [')'] + (f.commas + (f.policy + f.more)))
    ensures IsFrame(f) <==> ('(' !in f.head && ArePieces(f.ps) && NoParens(f.rest) && OnlyCommas(f.commas)
                             && IsTail(f.policy, f.more))
  {
    hide Group, IsTail;
  }

  // ----- Clean texts ------------------------------------------------------------------------

  /** Nothing the router would take for blanks around a field, or for a comment. */
  predicate Plain(s: string) {
    Stripped(s) && '#' !in s && ';' !in s
  }

  lemma {:induction false} SplitLacks(s: string, sep: char, c: char)
    requires c !in s
    ensures forall i :: 0 <= i < |Split(s, sep)| ==> c !in Split(s, sep)[i]
    decreases |s|
  {
    if s != "" {
      SplitLacks(s[1..], sep, c);
    }
  }

  lemma {:induction false} StripLacks(s: string, c: char)
    requires c !in s
    ensures c !in LeftStrip(s) && c !in RightStrip(s)
    decreases |s|
  {
    if s != "" {
      StripLacks(s[1..], c);
      StripLacks(s[..|s| - 1], c);
    }
  }

  /** A text that the router can find in a field: nothing it would strip, and no comma or comment sign. */
  predicate Clean(s: string) {
    Plain(s) && ',' !in s
  }

  lemma {:induction false} StrippedLacks(s: string, c: char)
    requires c !in s
    ensures c !in Strip(s)
  {
    StripLacks(s, c);
    StripLacks(LeftStrip(s), c);
  }

  /** Fields of a line, stripped, hold nothing of what separates them. */
  lemma FieldsClean(line: string, i: nat)
    requires '#' !in line && ';' !in line && i < |Split(line, ',')|
    ensures Clean(StripAll(Split(line, ','))[i])
  {
    var field := Split(line, ',')[i];
    SplitLacks(line, ',', '#');
    SplitLacks(line, ',', ';');
    hide Split, LeftStrip, RightStrip;
    StrippedLacks(field, ',');
    StrippedLacks(field, '#');
    StrippedLacks(field, ';');
  }
}
