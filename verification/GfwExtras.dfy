/** Appending local and default-rule domains to the generated GFWList. */
module GfwExtras {
  import opened Bytes
  import opened Text

  const PREFIX := "gfwList:add(newDNSName(\""
  const SUFFIX := "\"))"

  function LuaLine(domain: string): string {
    PREFIX + domain + SUFFIX
  }

  /** The domain a line of the list adds. */
  function Extract(line: string): Option<string> {
    if |line| >= |PREFIX| + |SUFFIX| && line[..|PREFIX|] == PREFIX && line[|line| - |SUFFIX|..] == SUFFIX
    then Some(line[|PREFIX|..|line| - |SUFFIX|])
    else None
  }

  lemma ExtractInverse(domain: string)
    ensures Extract(LuaLine(domain)) == Some(domain)
  {
    var line := LuaLine(domain);
    assert line[..|PREFIX|] == PREFIX;
    assert line[|line| - |SUFFIX|..] == SUFFIX;
    assert line[|PREFIX|..|line| - |SUFFIX|] == domain;
  }

  /** The lines that add a domain, and which one. */
  lemma ExtractIff(line: string, domain: string)
    ensures Extract(line) == Some(domain) <==> line == "gfwList:add(newDNSName(\"" + domain + "\"))"
  {
    ExtractInverse(domain);
    if Extract(line) == Some(domain) {
      assert line == line[..|PREFIX|] + domain + line[|line| - |SUFFIX|..];
    }
  }

  /** The domains a list adds, in order. */
  function Domains(lua: seq<string>): seq<string> {
    if lua == [] then []
    else (if Extract(lua[0]).Some? then [Extract(lua[0]).value] else []) + Domains(lua[1..])
  }

  lemma {:induction false} DomainsAppend(lua: seq<string>, domain: string)
    ensures Domains(lua + [LuaLine(domain)]) == Domains(lua) + [domain]
    decreases |lua|
  {
    ExtractInverse(domain);
    hide Extract, LuaLine;
    if lua == [] {
      assert lua + [LuaLine(domain)] == [LuaLine(domain)];
    } else {
      DomainsAppend(lua[1..], domain);
      assert (lua + [LuaLine(domain)])[1..] == lua[1..] + [LuaLine(domain)];
    }
  }

  // ----- Which domains ------------------------------------------------------------------

  predicate AlphaNum(c: char) {
    'a' <= c <= 'z' || 'A' <= c <= 'Z' || '0' <= c <= '9'
  }

  predicate IsLabel(s: string) {
    s != "" && AlphaNum(s[0]) && AlphaNum(s[|s| - 1])
    && forall i :: 0 <= i < |s| ==> AlphaNum(s[i]) || s[i] == '-' || s[i] == '_'
  }

  /** At least two labels. */
  predicate IsDomain(s: string) {
    var labels := Split(s, '.');
    |labels| >= 2 && forall i :: 0 <= i < |labels| ==> IsLabel(labels[i])
  }

  /** The edits on one line of the local file: comment, blanks, one final dot, a leading www. */
  function Clean(raw: string): string {
    Bare(Strip(Split(raw, '#')[0]))
  }

  function Bare(s: string): string {
    var t := if s != "" && s[|s| - 1] == '.' then s[..|s| - 1] else s;
    if "www." <= t then t[4..] else t
  }

  /** A letter or digit of ASCII. */
  predicate LetterOrDigit(c: char) {
    65 <= c as int <= 90 || 97 <= c as int <= 122 || 48 <= c as int <= 57
  }

  ghost predicate Dotted(s: string, labels: seq<string>) {
    && labels != [] && s == Join(labels, '.')
    && forall l <- labels :: l != "" && LetterOrDigit(l[0]) && LetterOrDigit(l[|l| - 1])
                             && forall c <- l :: LetterOrDigit(c) || c in "-_"
  }

  lemma LabelIff(l: string)
    ensures IsLabel(l) <==> && l != "" && LetterOrDigit(l[0]) && LetterOrDigit(l[|l| - 1])
                            && forall c <- l :: LetterOrDigit(c) || c in "-_"
  {
    if IsLabel(l) {
      forall c | c in l
        ensures LetterOrDigit(c) || c in "-_"
      {
        var i :| 0 <= i < |l| && l[i] == c;
        assert "-_"[0] == '-' && "-_"[1] == '_';
      }
    } else if l != "" && !(forall i :: 0 <= i < |l| ==> AlphaNum(l[i]) || l[i] == '-' || l[i] == '_') {
      var i :| 0 <= i < |l| && !(AlphaNum(l[i]) || l[i] == '-' || l[i] == '_');
      assert l[i] in l;
    }
  }

  /** Two or more labels with dots between them, each of letters, digits, `-` and `_`, with a letter or digit at both
      ends. */
  lemma DomainIff(s: string)
    ensures IsDomain(s) <==> exists labels :: |labels| >= 2 && Dotted(s, labels)
  {
    hide Split, Join, IsLabel;
    if IsDomain(s) {
      JoinSplit(s, '.');
      var labels := Split(s, '.');
      forall l | l in labels
        ensures IsLabel(l)
      {
      }
      forall l { LabelIff(l); }
      assert Dotted(s, labels);
    }
    if labels :| |labels| >= 2 && Dotted(s, labels) {
      forall l { LabelIff(l); }
      forall i | 0 <= i < |labels|
        ensures '.' !in labels[i] && IsLabel(labels[i])
      {
        assert labels[i] in labels;
      }
      SplitJoin(labels, '.');
    }
  }

  /** What the edits take off: blanks, one `www.` in front, one dot behind and any comment. */
  lemma CleanIs(front: string, www: string, d: string, dot: string, back: string, comment: string)
    requires Blanks(front) && Blanks(back) && www in {"", "www."} && dot in {"", "."}
    requires comment == "" || comment[0] == '#'
    requires d != "" && Stripped(d) && '#' !in d && d[|d| - 1] != '.' && (www == "" ==> !("www." <= d))
    ensures Clean(front + www + d + dot + back + comment) == d
  {
    var s := www + d + dot;
    Regroup(front, www, d, dot, back);
    NoSign(front, www, d, dot, back);
    Edges(www, d, dot);
    BareIs(www, d, dot);
    hide Bare, Split, Strip, Blanks, Stripped;
    CommentCut(front + s + back, comment);
    StripBetween(front, s, back);
  }

  lemma Regroup(front: string, www: string, d: string, dot: string, back: string)
    ensures front + www + d + dot + back == front + (www + d + dot) + back
  {
  }

  lemma NoSign(front: string, www: string, d: string, dot: string, back: string)
    requires Blanks(front) && Blanks(back) && www in {"", "www."} && dot in {"", "."} && '#' !in d
    ensures '#' !in front + (www + d + dot) + back
  {
  }

  lemma Edges(www: string, d: string, dot: string)
    requires www in {"", "www."} && dot in {"", "."} && d != "" && Stripped(d)
    ensures Stripped(www + d + dot) && www + d + dot != ""
  {
    var s := www + d + dot;
    assert s[0] == if www == "" then d[0] else 'w';
    assert s[|s| - 1] == if dot == "" then d[|d| - 1] else '.';
  }

  lemma BareIs(www: string, d: string, dot: string)
    requires www in {"", "www."} && dot in {"", "."} && (www == "" ==> !("www." <= d))
    requires d != "" && d[|d| - 1] != '.'
    ensures Bare(www + d + dot) == d
  {
    var s := www + d + dot;
    assert s[|s| - 1] == if dot == "" then d[|d| - 1] else '.';
    assert s[..|www + d|] == www + d;
    if www == "" {
      assert www + d == d;
    } else {
      assert (www + d)[..4] == "www." && (www + d)[4..] == d;
    }
  }

  lemma CommentCut(line: string, comment: string)
    requires '#' !in line && (comment == "" || comment[0] == '#')
    ensures Split(line + comment, '#')[0] == line
  {
    if comment == "" {
      assert line + comment == line;
      SplitFirst(line, '#', "");
    } else {
      assert line + comment == line + ['#'] + comment[1..];
      SplitFirst(line, '#', comment[1..]);
    }
  }

  function Candidates(raws: seq<string>): seq<string> {
    if raws == [] then []
    else (if IsDomain(Clean(raws[0])) then [Clean(raws[0])] else []) + Candidates(raws[1..])
  }

  // ----- Appending ---------------------------------------------------------------------------

  /** The candidates that are new, each once. */
  function News(known: seq<string>, candidates: seq<string>): seq<string>
    decreases |candidates|
  {
    if candidates == [] then []
    else if candidates[0] in known then News(known, candidates[1..])
    else [candidates[0]] + News(known + [candidates[0]], candidates[1..])
  }

  /** What is appended is new, valid if the candidates are, and not repeated; and afterwards every candidate is
      there. */
  lemma {:induction false} NewsFacts(known: seq<string>, candidates: seq<string>)
    ensures var n := News(known, candidates);
            && (forall d <- n :: d in candidates && d !in known)
            && (forall i, j :: 0 <= i < j < |n| ==> n[i] != n[j])
            && (forall d <- candidates :: d in known || d in n)
    decreases |candidates|
  {
    if candidates != [] {
      var d, rest := candidates[0], candidates[1..];
      assert forall c :: c in candidates <==> c == d || c in rest;
      if d in known {
        NewsFacts(known, rest);
      } else {
        NewsFacts(known + [d], rest);
        var tail := News(known + [d], rest);
        assert forall i :: 0 <= i < |tail| ==> tail[i] in tail;
      }
    }
  }

  lemma {:induction false} NothingNew(known: seq<string>, candidates: seq<string>)
    requires forall d <- candidates :: d in known
    ensures News(known, candidates) == []
    decreases |candidates|
  {
    if candidates != [] {
      assert candidates[0] in candidates;
      assert forall d <- candidates[1..] :: d in candidates;
      NothingNew(known, candidates[1..]);
    }
  }

  /** Blank lines are passed over. */
  function NonBlank(lines: seq<string>): seq<string> {
    if lines == [] then []
    else (if lines[0] == "" then [] else [lines[0]]) + NonBlank(lines[1..])
  }

  /** The loop of append_default_rule_domains: the index holds the known domains while the list grows. */
  method AppendNew(lua: seq<string>, lines: seq<string>) returns (out: seq<string>, added: nat)
    ensures lua <= out && Domains(out) == Domains(lua) + News(Domains(lua), NonBlank(lines))
    ensures added == |News(Domains(lua), NonBlank(lines))| && |out| == |lua| + added
  {
    out, added := lua, 0;
    var index := Domains(lua);
    assert lines[0..] == lines;
    for i := 0 to |lines|
      invariant lua <= out && Domains(out) == index && |out| == |lua| + added
      invariant Domains(lua) + News(Domains(lua), NonBlank(lines)) == index + News(index, NonBlank(lines[i..]))
      invariant |News(Domains(lua), NonBlank(lines))| == added + |News(index, NonBlank(lines[i..]))|
    {
      hide *;
      NewsStep(index, lines, i);
      var domain := lines[i];
      if domain != "" && domain !in index {
        DomainsAppend(out, domain);
        out := out + [LuaLine(domain)];
        Reassociate(index, domain, News(index + [domain], NonBlank(lines[i + 1..])));
        index := index + [domain];
        added := added + 1;
      }
    }
  }

  lemma {:induction false} NonBlankMember(lines: seq<string>)
    ensures forall d :: d in NonBlank(lines) <==> d in lines && d != ""
  {
    if lines != [] {
      NonBlankMember(lines[1..]);
      assert forall d :: d in lines <==> d == lines[0] || d in lines[1..];
    }
  }

  /** Of the default rules exactly the domains that the list lacked are appended, none blank or twice; a second pass
      adds nothing. */
  lemma DefaultsOnlyOnce(known: seq<string>, lines: seq<string>)
    ensures var n := News(known, NonBlank(lines));
            && (forall d :: d in n <==> d in lines && d != "" && d !in known)
            && (forall i, j :: 0 <= i < j < |n| ==> n[i] != n[j])
            && News(known + n, NonBlank(lines)) == []
  {
    NonBlankMember(lines);
    NewsFacts(known, NonBlank(lines));
    hide NonBlank, News;
    NothingNew(known + News(known, NonBlank(lines)), NonBlank(lines));
  }

  lemma Reassociate(a: seq<string>, d: string, b: seq<string>)
    ensures a + ([d] + b) == a + [d] + b
  {
  }

  lemma NewsStep(known: seq<string>, lines: seq<string>, i: nat)
    requires i < |lines|
    ensures var d, rest := lines[i], NonBlank(lines[i + 1..]);
            News(known, NonBlank(lines[i..])) ==
            if d == "" || d in known then News(known, rest) else [d] + News(known + [d], rest)
  {
    assert lines[i..][1..] == lines[i + 1..];
    var d, rest := lines[i], NonBlank(lines[i + 1..]);
    assert ([d] + rest)[1..] == rest;
    assert [] + rest == rest;
  }

  lemma ExtraStep(known: seq<string>, raws: seq<string>, i: nat)
    requires i < |raws|
    ensures var d, rest := Clean(raws[i]), Candidates(raws[i + 1..]);
            News(known, Candidates(raws[i..])) ==
            if !IsDomain(d) || d in known then News(known, rest) else [d] + News(known + [d], rest)
  {
    hide Clean, IsDomain;
    assert raws[i..][1..] == raws[i + 1..];
    var d, rest := Clean(raws[i]), Candidates(raws[i + 1..]);
    assert ([d] + rest)[1..] == rest;
    assert [] + rest == rest;
  }

  /** append_local_gfwlist_extras */
  method AppendExtras(lua: seq<string>, raws: seq<string>) returns (out: seq<string>, added: nat)
    ensures lua <= out && Domains(out) == Domains(lua) + News(Domains(lua), Candidates(raws))
    ensures added == |News(Domains(lua), Candidates(raws))| && |out| == |lua| + added
  {
    out, added := lua, 0;
    var index := Domains(lua);
    assert raws[0..] == raws;
    for i := 0 to |raws|
      invariant lua <= out && Domains(out) == index && |out| == |lua| + added
      invariant Domains(lua) + News(Domains(lua), Candidates(raws)) == index + News(index, Candidates(raws[i..]))
      invariant |News(Domains(lua), Candidates(raws))| == added + |News(index, Candidates(raws[i..]))|
    {
      hide *;
      ExtraStep(index, raws, i);
      var domain := Clean(raws[i]);
      if IsDomain(domain) && domain !in index {
        DomainsAppend(out, domain);
        out := out + [LuaLine(domain)];
        Reassociate(index, domain, News(index + [domain], Candidates(raws[i + 1..])));
        index := index + [domain];
        added := added + 1;
      }
    }
  }

  lemma {:induction false} CandidatesValid(raws: seq<string>)
    ensures forall d <- Candidates(raws) :: IsDomain(d) && exists raw <- raws :: d == Clean(raw)
  {
    hide IsDomain, Clean;
    if raws != [] {
      CandidatesValid(raws[1..]);
      assert raws[0] in raws && forall raw <- raws[1..] :: raw in raws;
    }
  }

  /** Only valid domains of the file that the list lacked are appended, none twice; a second pass adds nothing. */
  lemma ExtrasOnlyOnce(known: seq<string>, raws: seq<string>)
    ensures var n := News(known, Candidates(raws));
            && (forall d <- n :: IsDomain(d) && d !in known && exists raw <- raws :: d == Clean(raw))
            && (forall i, j :: 0 <= i < j < |n| ==> n[i] != n[j])
            && News(known + n, Candidates(raws)) == []
  {
    CandidatesValid(raws);
    NewsFacts(known, Candidates(raws));
    hide IsDomain, Clean, Candidates, News;
    NothingNew(known + News(known, Candidates(raws)), Candidates(raws));
  }
}
