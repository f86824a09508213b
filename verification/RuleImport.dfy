/** Converting a client's rule list into gateway rules. */
module RuleImport {
  import opened Bytes
  import opened Text
  import opened RuleText

  /** The matchers the gateway applies. */
  const KEEP: set<string> :=
    {"DOMAIN", "DOMAIN-SUFFIX", "DOMAIN-KEYWORD", "IP-CIDR", "IP-CIDR6", "RULE-SET", "GEOIP", "GEOSITE"}

  /** One emitted rule; its line is `typ,value,category`. */
  datatype Emitted = Emitted(typ: string, value: string, category: string)

  /** What one line does: an error, rules, or a new default. */
  datatype Effect = Crash | Emits(rules: seq<Emitted>) | SetsFinal(category: Option<string>)

  datatype Conversion = Crashed | Converted(rules: seq<Emitted>, final: Option<string>)

  function StripQuotes(s: string): string
    decreases |s|
  {
    if s != "" && s[0] == '"' then StripQuotes(s[1..])
    else if s != "" && s[|s| - 1] == '"' then StripQuotes(s[..|s| - 1])
    else s
  }

  // ----- Categories -------------------------------------------------------------------

  /** word: letters, digits, `_` and Chinese characters; keep and direct: the categories named in the environment. */
  datatype Settings = Settings(word: char -> bool, keep: set<string>, direct: set<string>)

  function FromWord(word: char -> bool, s: string): string {
    if s != "" && !word(s[0]) then FromWord(word, s[1..]) else s
  }

  /** norm_category */
  function Normal(word: char -> bool, policy: string): (r: string)
    ensures r != ""
  {
    var name := Strip(FromWord(word, Strip(StripQuotes(Strip(policy)))));
    if name == "" then "Proxy" else name
  }

  predicate IsLocal(low: string) {
    low == "dir" || low == "direct" || low == "china" || low == "lan" || low == "domestic"
  }

  predicate IsUnwanted(low: string) {
    Contains(low, "advert") || Contains(low, "hijack") || Contains(low, "privacy") || Contains(low, "reject")
    || Contains(low, "广告") || Contains(low, "malware")
  }

  /** category_of: never empty; and once categories to keep are named, there are no others but three. */
  function CategoryOf(s: Settings, policy: string): (r: string)
    ensures r != ""
    ensures s.keep != {} ==> r in s.keep + {"direct", "block", "Proxy"}
    ensures Lower(Normal(s.word, policy)) in s.direct ==> r == "direct"
  {
    var name := Normal(s.word, policy);
    if Lower(name) in s.direct then "direct"
    else if s.keep == {} || name in s.keep then name
    else if IsLocal(Lower(name)) then "direct"
    else if IsUnwanted(Lower(name)) then "block"
    else "Proxy"
  }

  const LOCAL_NAMES: set<string> := {"dir", "direct", "china", "lan", "domestic"}
  const UNWANTED_PARTS: set<string> := {"advert", "hijack", "privacy", "reject", "广告", "malware"}

  /** The category of a policy: forced ones are direct; without categories to keep, or for one of them, it is the normal
      name; else local names are direct, names with an unwanted part are blocked, and all others are Proxy. */
  lemma CategoryWords(s: Settings, policy: string)
    ensures var name := Normal(s.word, policy);
            CategoryOf(s, policy) ==
            if Lower(name) in s.direct then "direct"
            else if s.keep == {} || name in s.keep then name
            else if Lower(name) in LOCAL_NAMES then "direct"
            else if exists part <- UNWANTED_PARTS :: Contains(Lower(name), part) then "block"
            else "Proxy"
  {
    hide Contains, Normal, Lower;
    var low := Lower(Normal(s.word, policy));
    if IsUnwanted(low) {
      var part := if Contains(low, "advert") then "advert" else if Contains(low, "hijack") then "hijack"
                  else if Contains(low, "privacy") then "privacy" else if Contains(low, "reject") then "reject"
                  else if Contains(low, "广告") then "广告" else "malware";
      assert part in UNWANTED_PARTS && Contains(low, part);
    } else {
      forall part | part in UNWANTED_PARTS
        ensures !Contains(low, part)
      {
        assert part == "advert" || part == "hijack" || part == "privacy" || part == "reject" || part == "广告"
               || part == "malware";
      }
    }
  }

  lemma {:induction false} FromWordSkips(word: char -> bool, junk: string, rest: string)
    requires forall c <- junk :: !word(c)
    ensures FromWord(word, junk + rest) == FromWord(word, rest)
  {
    if junk == "" {
      assert junk + rest == rest;
    } else {
      assert (junk + rest)[0] == junk[0] && junk[0] in junk && (junk + rest)[1..] == junk[1..] + rest;
      FromWordSkips(word, junk[1..], rest);
    }
  }

  /** The normal name of a policy, in quotes or not, is what follows anything that is no letter, digit or the like;
      Proxy when nothing does. */
  lemma NormalName(word: char -> bool, junk: string, name: string)
    requires (forall c <- junk :: !word(c)) && (name != "" ==> word(name[0])) && '"' !in junk + name
    requires Stripped(junk + name) && Stripped(name)
    ensures var normal := if name == "" then "Proxy" else name;
            Normal(word, junk + name) == normal && Normal(word, "\"" + (junk + name) + "\"") == normal
  {
    var p := junk + name;
    StripStripped(p);
    FromWordSkips(word, junk, name);
    var quoted := "\"" + p + "\"";
    assert Stripped(quoted);
    StripStripped(quoted);
    assert quoted[1..] == p + "\"" && (p + "\"")[..|p|] == p;
    NoQuotes(p);
    QuoteAtEnd(p);
    StripStripped(name);
    hide StripQuotes, Strip;
    assert FromWord(word, name) == name;
  }

  lemma NoQuotes(p: string)
    requires '"' !in p
    ensures StripQuotes(p) == p
  {
  }

  lemma QuoteAtEnd(p: string)
    requires '"' !in p
    ensures StripQuotes("\"" + p + "\"") == p
  {
    var quoted := "\"" + p + "\"";
    assert quoted[1..] == p + "\"";
    if p == "" {
      assert quoted[1..] == "\"" && "\""[1..] == "";
    } else {
      assert (p + "\"")[0] == p[0] && (p + "\"")[..|p|] == p;
      NoQuotes(p);
    }
  }

  predicate IsModifier(field: string) {
    var f := Lower(StripQuotes(Strip(field)));
    f == "no-resolve" || f == "extended-matching" || f == "dns-failed" || f == "pre-matching"
    || "update-interval=" <= f || "interval=" <= f
  }

  const MODIFIER_WORDS: set<string> := {"no-resolve", "extended-matching", "dns-failed", "pre-matching"}

  /** The fields that are no policy, in any letter case. */
  lemma ModifierIff(field: string)
    ensures var low := Lower(StripQuotes(Strip(field)));
            IsModifier(field) <==>
            low in MODIFIER_WORDS || exists value :: low == "update-interval=" + value || low == "interval=" + value
  {
    hide Lower, Strip, StripQuotes;
    var low := Lower(StripQuotes(Strip(field)));
    if "update-interval=" <= low {
      assert low == "update-interval=" + low[16..];
    }
    if "interval=" <= low {
      assert low == "interval=" + low[9..];
    }
  }

  function FirstPolicy(fields: seq<string>): Option<string> {
    if fields == [] then None else if IsModifier(fields[0]) then FirstPolicy(fields[1..]) else Some(fields[0])
  }

  function Emit(typ: string, value: string, category: string): Emitted {
    Emitted(if typ == "IP-CIDR6" then "IP-CIDR" else typ, value, category)
  }

  function EmitMembers(members: seq<string>, category: string): seq<Emitted> {
    if members == [] then []
    else
      var p := CsvSplit(members[0]);
      (if Upper(p[0]) in KEEP && |p| >= 2 then [Emit(Upper(p[0]), p[1], category)] else [])
      + EmitMembers(members[1..], category)
  }

  predicate Ignored(line: string) {
    line == "" || line[0] == '#' || line[0] == ';' || line[0] == '['
  }

  /** One round of the conversion loop; cat is category_of. AND is dropped: its members would broaden the policy. */
  function Convert(cat: string -> string, raw: string): Effect {
    var line := Strip(raw);
    var typ := Upper(Strip(Split(line, ',')[0]));
    if Ignored(line) || typ == "AND" then Emits([])
    else if typ == "OR" then
      var l := ParseLogical(line);
      if l.NoGroup? then Crash
      else if l.policy.None? || l.policy.value == "" then Emits([])
      else Emits(EmitMembers(l.members, cat(l.policy.value)))
    else
      var parts := CsvSplit(line);
      if typ == "FINAL" then SetsFinal(if |parts| > 1 then Some(cat(parts[1])) else None)
      else if typ !in KEEP || |parts| < 3 || FirstPolicy(parts[2..]).None? then Emits([])
      else Emits([Emit(typ, parts[1], cat(FirstPolicy(parts[2..]).value))])
  }

  /** The whole list, after what came before; a FINAL line replaces the default and moves it to the end. */
  function ConvertAll(cat: string -> string, raws: seq<string>, sofar: Conversion): Conversion {
    if raws == [] || sofar.Crashed? then sofar
    else ConvertAll(cat, raws[1..], Add(sofar, Convert(cat, raws[0])))
  }

  function Add(c: Conversion, e: Effect): Conversion
    requires c.Converted?
  {
    match e
    case Crash => Crashed
    case Emits(rules) => Converted(c.rules + rules, c.final)
    case SetsFinal(category) => Converted(c.rules, category)
  }

  lemma OneLine(cat: string -> string, raws: seq<string>, i: nat, sofar: Conversion)
    requires i < |raws| && sofar.Converted?
    ensures ConvertAll(cat, raws[i..], sofar) == ConvertAll(cat, raws[i + 1..], Add(sofar, Convert(cat, raws[i])))
  {
    hide Convert, Add;
    assert raws[i..][1..] == raws[i + 1..];
  }

  method ConvertFile(cat: string -> string, raws: seq<string>) returns (c: Conversion)
    ensures c == ConvertAll(cat, raws, Converted([], None))
  {
    hide Convert, ConvertAll;
    var rules: seq<Emitted>, final: Option<string> := [], None;
    assert raws[0..] == raws;
    var i := 0;
    while i < |raws|
      invariant 0 <= i <= |raws|
      invariant ConvertAll(cat, raws, Converted([], None)) == ConvertAll(cat, raws[i..], Converted(rules, final))
    {
      OneLine(cat, raws, i, Converted(rules, final));
      i := i + 1;
      match Convert(cat, raws[i - 1]) {
        case Crash =>
          CrashStays(cat, raws[i..]);
          return Crashed;
        case Emits(more) =>
          rules := rules + more;
        case SetsFinal(category) =>
          final := category;
      }
    }
    assert raws[i..] == [];
    NoLines(cat, Converted(rules, final));
    return Converted(rules, final);
  }

  lemma CrashStays(cat: string -> string, raws: seq<string>)
    ensures ConvertAll(cat, raws, Crashed) == Crashed
  {
  }

  lemma NoLines(cat: string -> string, sofar: Conversion)
    ensures ConvertAll(cat, [], sofar) == sofar
  {
  }

  // ----- Source rules ---------------------------------------------------------------

  /** A member of a logical rule, and the text in front of its parenthesis. */
  datatype Member = Member(gap: string, fields: seq<string>)

  /** What follows the name of a logical rule and its comma. */
  datatype Logic = Logic(lead: string, members: seq<Member>, rest: string, commas: string, policy: string, more: string)

  /** The lines of a client's list, as they are spelled; Scrap is a line that is no rule. */
  datatype Source =
    | Atom(name: string, value: string, modifiers: seq<string>, policy: string, more: seq<string>)
    | And(name: string, logic: Logic)
    | Or(name: string, logic: Logic)
    | Final(name: string, fields: seq<string>)
    | Scrap(text: string)

  /** The matcher a name stands for. */
  function TypeOf(name: string): string {
    Upper(Strip(name))
  }

  function MemberType(m: Member): string {
    if m.fields == [] then "" else Upper(Value(m.fields[0]))
  }

  function MemberValue(m: Member): Option<string> {
    if |m.fields| >= 2 then Some(Value(m.fields[1])) else None
  }

  function Pieces(ms: seq<Member>): (r: seq<Piece>)
    requires forall i :: 0 <= i < |ms| ==> ms[i].fields != []
    ensures |r| == |ms| && forall i :: 0 <= i < |r| ==> r[i] == Piece(ms[i].gap, Join(ms[i].fields, ','))
  {
    if ms == [] then [] else [Piece(ms[0].gap, Join(ms[0].fields, ','))] + Pieces(ms[1..])
  }

  ghost predicate AreMembers(ms: seq<Member>) {
    forall i :: 0 <= i < |ms| ==> AreFields(ms[i].fields)
  }

  function FrameOf(name: string, l: Logic): Frame
    requires forall i :: 0 <= i < |l.members| ==> l.members[i].fields != []
  {
    Frame(name + "," + l.lead, Pieces(l.members), l.rest, l.commas, l.policy, l.more)
  }

  /** A name as it stands in front of the first comma. */
  predicate IsName(name: string) {
    ',' !in name && '"' !in name
  }

  ghost predicate WellFormedLogic(name: string, l: Logic) {
    IsName(name) && AreMembers(l.members) && IsFrame(FrameOf(name, l))
  }

  /** Too few fields for a rule, or nothing behind the value that could be a policy. */
  predicate Partial(ws: seq<string>) {
    |ws| < 3 || forall i :: 2 <= i < |ws| ==> IsModifier(Value(ws[i]))
  }

  /** Blank lines, comments, headers; names with quotes; groups that never close; rules without value or policy. */
  ghost predicate IsScrap(text: string) {
    || Ignored(text)
    || var name := Split(text, ',')[0];
       || '"' in name
       || (TypeOf(name) == "AND" && Unclosed(text))
       || (TypeOf(name) == "OR" && '(' in text && Unclosed(text))
       || (TypeOf(name) !in {"AND", "OR", "FINAL"}
           && exists ws :: AreFields(ws) && Join(ws, ',') == text && Partial(ws))
  }

  function AtomFields(s: Source): seq<string>
    requires s.Atom?
  {
    [s.name, s.value] + s.modifiers + [s.policy] + s.more
  }

  ghost predicate WellFormed(s: Source) {
    match s
    case Atom(name, value, modifiers, policy, more) =>
      && IsName(name) && TypeOf(name) !in {"AND", "OR", "FINAL"} && AreFields(AtomFields(s))
      && (forall i :: 0 <= i < |modifiers| ==> IsModifier(Value(modifiers[i]))) && !IsModifier(Value(policy))
      && !Ignored(Join(AtomFields(s), ','))
    case And(name, l) => TypeOf(name) == "AND" && WellFormedLogic(name, l) && !Ignored(LogicalLine(FrameOf(name, l)))
    case Or(name, l) => TypeOf(name) == "OR" && WellFormedLogic(name, l) && !Ignored(LogicalLine(FrameOf(name, l)))
    case Final(name, fields) =>
      IsName(name) && TypeOf(name) == "FINAL" && AreFields([name] + fields) && !Ignored(Join([name] + fields, ','))
    case Scrap(text) => IsScrap(text)
  }

  /** The line of a rule. */
  function Render(s: Source): string
    requires (s.And? || s.Or?) ==> forall i :: 0 <= i < |s.logic.members| ==> s.logic.members[i].fields != []
  {
    match s
    case Atom(_, _, _, _, _) => Join(AtomFields(s), ',')
    case And(name, l) => LogicalLine(FrameOf(name, l))
    case Or(name, l) => LogicalLine(FrameOf(name, l))
    case Final(name, fields) => Join([name] + fields, ',')
    case Scrap(text) => text
  }

  /** The line, without the blanks around it, is that of s. */
  ghost predicate Reads(raw: string, s: Source) {
    WellFormed(s) && Strip(raw) == Render(s)
  }

  /** The policy of a line; a line without one is no rule. */
  function PolicyOf(s: Source): Option<string> {
    match s
    case Atom(_, _, _, policy, _) => Some(Value(policy))
    case And(_, l) => if Value(l.policy) == "" then None else Some(Value(l.policy))
    case Or(_, l) => if Value(l.policy) == "" then None else Some(Value(l.policy))
    case Final(_, fields) => if fields == [] then None else Some(Value(fields[0]))
    case Scrap(_) => None
  }

  /** What a member or a single rule becomes. */
  function Kept(typ: string, value: string, category: string): seq<Emitted> {
    if typ in KEEP then [Emit(typ, value, category)] else []
  }

  function KeptMembers(ms: seq<Member>, category: string): seq<Emitted> {
    if ms == [] then []
    else
      (if MemberValue(ms[0]).Some? then Kept(MemberType(ms[0]), MemberValue(ms[0]).value, category) else [])
      + KeptMembers(ms[1..], category)
  }

  /** What a line should become. */
  function Meaning(cat: string -> string, s: Source): (e: Effect)
    ensures if s.Final? then e.SetsFinal? else e.Emits?
  {
    var policy := PolicyOf(s);
    match s
    case Atom(name, value, _, _, _) => Emits(Kept(TypeOf(name), Value(value), cat(policy.value)))
    case Or(_, l) => Emits(if policy.Some? then KeptMembers(l.members, cat(policy.value)) else [])
    case Final(_, _) => SetsFinal(if policy.Some? then Some(cat(policy.value)) else None)
    case _ => Emits([])
  }

  // ----- From lines to rules ------------------------------------------------------------

  lemma {:induction false} EmitRendered(ms: seq<Member>, category: string)
    requires AreMembers(ms)
    ensures EmitMembers(PieceTexts(Pieces(ms)), category) == KeptMembers(ms, category)
    decreases |ms|
  {
    hide CsvSplit, IsField, Upper, Value, KEEP, Join;
    if ms != [] {
      var m := ms[0];
      assert AreFields(m.fields);
      CsvInverse(m.fields);
      assert forall i :: 0 <= i < |ms[1..]| ==> ms[1..][i] == ms[i + 1];
      EmitRendered(ms[1..], category);
      assert Pieces(ms)[1..] == Pieces(ms[1..]);
      assert PieceTexts(Pieces(ms))[1..] == PieceTexts(Pieces(ms[1..]));
    }
  }

  /** The name in front of the first comma. */
  lemma FirstName(name: string, rest: string)
    requires IsName(name)
    ensures Split(name, ',')[0] == name && Split(name + "," + rest, ',')[0] == name
  {
    hide Split;
    SplitFirst(name, ',', rest);
  }

  lemma JoinName(ws: seq<string>)
    requires ws != [] && IsName(ws[0])
    ensures Split(Join(ws, ','), ',')[0] == ws[0]
  {
    hide Split;
    FirstName(ws[0], if |ws| > 1 then Join(ws[1..], ',') else "");
  }

  lemma LogicalName(name: string, l: Logic)
    requires WellFormedLogic(name, l)
    ensures Split(LogicalLine(FrameOf(name, l)), ',')[0] == name
  {
    hide Split, Group, Pieces, IsFrame, IsField;
    var f := FrameOf(name, l);
    var tail := Group(f.ps, f.rest) + ")" + (f.commas + (f.policy + f.more));
    FirstName(name, l.lead + "(" + tail);
    assert name + "," + l.lead + "(" + tail == name + "," + (l.lead + "(" + tail);
  }

  lemma Names()
    ensures Upper("AND") == "AND" && Upper("OR") == "OR" && Upper("FINAL") == "FINAL"
  {
    UpperAppend("A", "ND");
    UpperAppend("N", "D");
    UpperAppend("O", "R");
    UpperAppend("FI", "NAL");
    UpperAppend("F", "I");
    UpperAppend("NA", "L");
    UpperAppend("N", "A");
    assert Upper("") == "";
  }

  lemma {:induction false} UpperAppend(a: string, b: string)
    ensures Upper(a + b) == Upper(a) + Upper(b)
    decreases |a|
  {
    if a == "" {
      assert a + b == b;
    } else {
      UpperAppend(a[1..], b);
      assert (a + b)[0] == a[0] && (a + b)[1..] == a[1..] + b;
      var c, u, v := UpperChar(a[0]), Upper(a[1..]), Upper(b);
      assert Upper(a + b) == [c] + (u + v) && Upper(a) == [c] + u;
    }
  }

  /** Convert, case by case. */
  lemma ConvertNamed(cat: string -> string, raw: string, line: string, typ: string)
    requires Strip(raw) == line && TypeOf(Split(line, ',')[0]) == typ && !Ignored(line)
    ensures typ == "AND" ==> Convert(cat, raw) == Emits([])
    ensures typ == "OR" ==> (var l := ParseLogical(line); l.Logical? ==>
              Convert(cat, raw) == Emits(if l.policy.None? || l.policy.value == "" then []
                                         else EmitMembers(l.members, cat(l.policy.value))))
    ensures typ == "FINAL" ==>
              (var parts := CsvSplit(line);
               Convert(cat, raw) == SetsFinal(if |parts| > 1 then Some(cat(parts[1])) else None))
    ensures typ !in {"AND", "OR", "FINAL"} ==>
              (var parts := CsvSplit(line);
               Convert(cat, raw) ==
               Emits(if |parts| < 3 || FirstPolicy(parts[2..]).None? then []
                     else Kept(typ, parts[1], cat(FirstPolicy(parts[2..]).value))))
  {
    hide Strip, Upper, Split, ParseLogical, CsvSplit, EmitMembers, FirstPolicy, Ignored, Emit, KEEP;
  }

  /** A line that reads as s becomes what s should. */
  lemma ReadIsConverted(cat: string -> string, s: Source, raw: string)
    requires Reads(raw, s)
    ensures Convert(cat, raw) == Meaning(cat, s)
  {
    match s
    case Atom(_, _, _, _, _) => AtomIsConverted(cat, s, raw);
    case And(name, l) =>
      LogicalName(name, l);
      ConvertNamed(cat, raw, Render(s), "AND");
      hide Convert, LogicalLine, Upper, Strip, Split, CsvSplit, ParseLogical, FrameOf, WellFormedLogic;
    case Or(_, _) => OrIsConverted(cat, s, raw);
    case Final(_, _) => FinalIsConverted(cat, s, raw);
    case Scrap(_) => ScrapIsConverted(cat, s, raw);
  }

  lemma FinalIsConverted(cat: string -> string, s: Source, raw: string)
    requires s.Final? && Reads(raw, s)
    ensures Convert(cat, raw) == Meaning(cat, s)
  {
    var ws := [s.name] + s.fields;
    JoinName(ws);
    CsvInverse(ws);
    ConvertNamed(cat, raw, Render(s), "FINAL");
    hide Convert, Join, Upper, Strip, Split, CsvSplit, Ignored, Value, IsField;
  }

  lemma AtomIsConverted(cat: string -> string, s: Source, raw: string)
    requires s.Atom? && Reads(raw, s)
    ensures Convert(cat, raw) == Meaning(cat, s)
  {
    var ws := AtomFields(s);
    JoinName(ws);
    CsvInverse(ws);
    ConvertNamed(cat, raw, Render(s), TypeOf(s.name));
    hide Convert, Join, Upper, Strip, Split, CsvSplit, Ignored, Value, IsField, IsModifier, FirstPolicy, Kept, KEEP;
    PolicyAt(Values(ws)[2..], |s.modifiers|);
  }

  lemma {:induction false} PolicyAt(fields: seq<string>, k: nat)
    requires k < |fields| && (forall i :: 0 <= i < k ==> IsModifier(fields[i])) && !IsModifier(fields[k])
    ensures FirstPolicy(fields) == Some(fields[k])
  {
    hide IsModifier;
    if k > 0 {
      PolicyAt(fields[1..], k - 1);
    }
  }

  lemma {:induction false} NoPolicy(fields: seq<string>)
    requires forall i :: 0 <= i < |fields| ==> IsModifier(fields[i])
    ensures FirstPolicy(fields) == None
  {
    hide IsModifier;
    if fields != [] {
      NoPolicy(fields[1..]);
    }
  }

  lemma OrIsConverted(cat: string -> string, s: Source, raw: string)
    requires s.Or? && Reads(raw, s)
    ensures Convert(cat, raw) == Meaning(cat, s)
  {
    var l := s.logic;
    LogicalName(s.name, l);
    LogicalInverse(FrameOf(s.name, l));
    assert Value("") == "";
    hide Convert, LogicalLine, Upper, Strip, Split, CsvSplit, ParseLogical, Ignored, EmitMembers, KeptMembers, Group,
         Value, IsFrame, IsName;
    ConvertNamed(cat, raw, Render(s), "OR");
    if PolicyOf(s).Some? {
      EmitRendered(l.members, cat(PolicyOf(s).value));
    }
  }

  lemma ScrapIsConverted(cat: string -> string, s: Source, raw: string)
    requires s.Scrap? && Reads(raw, s)
    ensures Convert(cat, raw) == Emits([])
  {
    var line := s.text;
    if !Ignored(line) {
      var typ := TypeOf(Split(line, ',')[0]);
      ConvertNamed(cat, raw, line, typ);
      if '"' in Split(line, ',')[0] {
        QuotedName(Split(line, ',')[0]);
        hide Convert, Split, Strip, Upper, CsvSplit, FirstPolicy, ParseLogical, EmitMembers, IsScrap, Ignored;
      } else if typ == "AND" {
        hide Convert, Split, Strip, Upper, CsvSplit, FirstPolicy, ParseLogical, EmitMembers, IsScrap, Ignored;
      } else if typ == "OR" {
        UnclosedParses(line);
        hide Convert, Split, Strip, Upper, CsvSplit, FirstPolicy, ParseLogical, EmitMembers, Unclosed, Ignored;
      } else {
        PartialConverted(line);
        hide Convert, Split, Strip, Upper, CsvSplit, FirstPolicy, ParseLogical, EmitMembers, Unclosed, Partial, Kept,
             Ignored;
      }
    }
  }

  lemma UnclosedParses(line: string)
    requires '(' in line && Unclosed(line)
    ensures ParseLogical(line) == Logical(None, [], None)
  {
    NeverClosesIff(line[IndexOf(line, '(').value + 1..]);
    hide IndexOf, CloseAt, DropCommas, CsvSplit, SplitTopParens, NeverCloses;
  }

  lemma PartialConverted(line: string)
    requires exists ws :: AreFields(ws) && Join(ws, ',') == line && Partial(ws)
    ensures var parts := CsvSplit(line); |parts| < 3 || FirstPolicy(parts[2..]).None?
  {
    var ws :| AreFields(ws) && Join(ws, ',') == line && Partial(ws);
    CsvInverse(ws);
    hide CsvSplit, Join, Value, FirstPolicy, IsModifier, IsField;
    if |ws| >= 3 {
      NoPolicy(Values(ws)[2..]);
    }
  }

  lemma {:induction false} UpperKeeps(s: string, c: char)
    requires c in s && UpperChar(c) == c
    ensures c in Upper(s)
  {
    if s[0] != c {
      UpperKeeps(s[1..], c);
    }
  }

  /** A matcher name shows its quotes and parentheses. */
  lemma TypeShows(name: string, c: char)
    requires c in name && !IsSpace(c) && UpperChar(c) == c
    ensures c in TypeOf(name)
  {
    hide Upper, LeftStrip, RightStrip;
    StripKeeps(name, c);
    UpperKeeps(Strip(name), c);
  }

  lemma QuotedName(name: string)
    requires '"' in name
    ensures TypeOf(name) !in KEEP && TypeOf(name) !in {"AND", "OR", "FINAL"}
  {
    TypeShows(name, '"');
    hide TypeOf;
  }

  // ----- Plain lines ------------------------------------------------------------------------

  /** Blank lines, comments and headers, with blanks around them or not, do nothing. */
  lemma SkippedLines(cat: string -> string, raw: string)
    requires var line := Strip(raw); line == "" || line[0] == '#' || line[0] == ';' || line[0] == '['
    ensures Convert(cat, raw) == Emits([])
  {
    hide Strip, Split, Upper, CsvSplit, ParseLogical, EmitMembers, FirstPolicy, KEEP;
  }

  const EIGHT: set<string> :=
    {"DOMAIN", "DOMAIN-SUFFIX", "DOMAIN-KEYWORD", "IP-CIDR", "IP-CIDR6", "RULE-SET", "GEOIP", "GEOSITE"}

  /** A line of three plain fields: one of eight matchers in any letter case is kept, IP-CIDR6 under the name of
      IP-CIDR, and every other matcher is dropped. */
  lemma PlainLine(cat: string -> string, typ: string, value: string, policy: string)
    requires IsName(typ) && IsName(value) && IsName(policy) && !IsModifier(Strip(policy))
    requires var line := typ + "," + value + "," + policy;
             Strip(line) == line && line[0] != '#' && line[0] != ';' && line[0] != '['
    requires TypeOf(typ) !in {"AND", "OR", "FINAL"}
    ensures Convert(cat, typ + "," + value + "," + policy) ==
            Emits(if TypeOf(typ) in EIGHT
                  then [Emitted(if TypeOf(typ) == "IP-CIDR6" then "IP-CIDR" else TypeOf(typ), Strip(value),
                                cat(Strip(policy)))]
                  else [])
  {
    var line := typ + "," + value + "," + policy;
    var s := Atom(typ, value, [], policy, []);
    PlainAtom(typ, value, policy);
    WaysToWrite(value, false);
    WaysToWrite(policy, true);
    EightKept();
    hide IsField, Value, Strip, Upper, Ignored, IsModifier, Convert, KEEP, WellFormed, EIGHT, Render;
    ReadIsConverted(cat, s, line);
  }

  lemma EightKept()
    ensures EIGHT == KEEP
  {
  }

  lemma PlainAtom(typ: string, value: string, policy: string)
    requires IsName(typ) && IsName(value) && IsName(policy) && !IsModifier(Strip(policy))
    requires TypeOf(typ) !in {"AND", "OR", "FINAL"} && !Ignored(typ + "," + value + "," + policy)
    ensures var s := Atom(typ, value, [], policy, []);
            WellFormed(s) && Render(s) == typ + "," + value + "," + policy
  {
    var ws := [typ, value, policy];
    assert AtomFields(Atom(typ, value, [], policy, [])) == ws;
    WaysToWrite(typ, false);
    WaysToWrite(value, false);
    WaysToWrite(policy, true);
    JoinThree(typ, value, policy);
    hide Join, IsField, Value, Strip, Upper, Ignored, IsModifier;
  }

  // ----- Every line has a reading -----------------------------------------------------------

  lemma {:induction false} SplitHead(s: string)
    ensures var name := Split(s, ',')[0];
            ',' !in name && (s == name || (|name| < |s| && s == name + "," + s[|name| + 1..]))
    decreases |s|
  {
    if s != "" && s[0] != ',' {
      SplitHead(s[1..]);
      var name := Split(s[1..], ',')[0];
      assert Split(s, ',')[0] == [s[0]] + name;
      assert s == [s[0]] + s[1..];
      if s[1..] != name {
        assert s == [s[0]] + name + "," + s[1..][|name| + 1..];
      }
    }
  }

  lemma {:induction false} CutName(name: string, rest: string)
    requires IsName(name)
    ensures Cut(name, false) == [name] && Cut(name + "," + rest, false) == [name] + Cut(rest, false)
  {
    var s := name + "," + rest;
    if name == "" {
      assert s[1..] == rest;
    } else {
      CutName(name[1..], rest);
      assert s[1..] == name[1..] + "," + rest;
      assert [name[0]] + name[1..] == name;
      assert ([name[1..]] + Cut(rest, false))[1..] == Cut(rest, false);
    }
  }

  /** The fields of a line begin with its name. */
  lemma CutLine(line: string)
    requires '"' !in Split(line, ',')[0]
    ensures AreFields(Cut(line, false)) && Join(Cut(line, false), ',') == line
    ensures Cut(line, false)[0] == Split(line, ',')[0] && IsName(Split(line, ',')[0])
  {
    SplitHead(line);
    CsvExact(line);
    var name := Split(line, ',')[0];
    hide Split, Cut, Join, AreFields;
    CutName(name, if line == name then "" else line[|name| + 1..]);
  }

  lemma PiecesCons(m: Member, rest: seq<Member>)
    requires AreFields(m.fields) && AreMembers(rest)
    ensures AreMembers([m] + rest) && Pieces([m] + rest) == [Piece(m.gap, Join(m.fields, ','))] + Pieces(rest)
  {
    hide Join, IsField;
    assert ([m] + rest)[1..] == rest;
  }

  lemma {:induction false} MembersOf(ps: seq<Piece>) returns (ms: seq<Member>)
    ensures AreMembers(ms) && Pieces(ms) == ps
  {
    if ps == [] {
      ms := [];
    } else {
      var p := ps[0];
      var rest := MembersOf(ps[1..]);
      CsvExact(p.text);
      var m := Member(p.gap, Cut(p.text, false));
      PiecesCons(m, rest);
      hide *;
      ms := [m] + rest;
      assert ps == [p] + ps[1..];
    }
  }

  /** The head of a logical line is its name, a comma and more. */
  lemma HeadOfName(line: string, f: Frame) returns (lead: string)
    requires IsFrame(f) && LogicalLine(f) == line && '(' !in Split(line, ',')[0]
    ensures f.head == Split(line, ',')[0] + "," + lead
  {
    SplitHead(line);
    var name := Split(line, ',')[0];
    hide Split, Group, ArePieces, IsTail;
    assert line[|f.head|] == '(' && line[..|f.head|] == f.head;
    assert line != name;
    assert line[..|name|] == name && line[|name|] == ',';
    assert |name| < |f.head|;
    lead := f.head[|name| + 1..];
    assert f.head[..|name|] == line[..|name|] && f.head[|name|] == ',';
    assert f.head == f.head[..|name|] + [f.head[|name|]] + lead;
  }

  lemma LogicOf(line: string) returns (l: Logic)
    requires '(' in line && !Unclosed(line) && '(' !in Split(line, ',')[0] && '"' !in Split(line, ',')[0]
    ensures WellFormedLogic(Split(line, ',')[0], l) && LogicalLine(FrameOf(Split(line, ',')[0], l)) == line
  {
    hide *;
    var f := LogicalExact(line);
    var lead := HeadOfName(line, f);
    var ms := MembersOf(f.ps);
    CutLine(line);
    l := Logic(lead, ms, f.rest, f.commas, f.policy, f.more);
    LogicFrame(Split(line, ',')[0], l, f);
  }

  lemma LogicFrame(name: string, l: Logic, f: Frame)
    requires IsName(name) && AreMembers(l.members) && IsFrame(f)
    requires f == Frame(name + "," + l.lead, Pieces(l.members), l.rest, l.commas, l.policy, l.more)
    ensures WellFormedLogic(name, l) && FrameOf(name, l) == f
  {
    hide IsFrame, Pieces, AreFields;
  }

  /** The first field behind the value that is no modifier. */
  lemma {:induction false} FindPolicy(ws: seq<string>, i: nat) returns (k: nat)
    requires i < |ws| && exists j :: i <= j < |ws| && !IsModifier(Value(ws[j]))
    ensures i <= k < |ws| && !IsModifier(Value(ws[k])) && forall j :: i <= j < k ==> IsModifier(Value(ws[j]))
    decreases |ws| - i
  {
    hide IsModifier, Value;
    if !IsModifier(Value(ws[i])) {
      k := i;
    } else {
      k := FindPolicy(ws, i + 1);
    }
  }

  lemma AtomOf(ws: seq<string>) returns (s: Source)
    requires AreFields(ws) && !Partial(ws) && IsName(ws[0]) && TypeOf(ws[0]) !in {"AND", "OR", "FINAL"}
    requires !Ignored(Join(ws, ','))
    ensures s.Atom? && WellFormed(s) && AtomFields(s) == ws
  {
    hide IsModifier, Value, AreFields, TypeOf, Ignored, Join, IsName;
    var k := FindPolicy(ws, 2);
    s := Atom(ws[0], ws[1], ws[2..k], ws[k], ws[k + 1..]);
    assert AtomFields(s) == ws;
  }

  /** An OR, in any spelling and with any blanks, on a line without a parenthesis. */
  predicate BareOr(raw: string) {
    var line := Strip(raw);
    !Ignored(line) && TypeOf(Split(line, ',')[0]) == "OR" && '(' !in line
  }

  lemma LogicalHasReading(line: string, typ: string) returns (s: Source)
    requires !Ignored(line) && TypeOf(Split(line, ',')[0]) == typ && typ in {"AND", "OR"}
    requires '"' !in Split(line, ',')[0] && (typ == "OR" ==> '(' in line)
    ensures WellFormed(s) && Render(s) == line
  {
    if Unclosed(line) {
      s := Scrap(line);
      hide Ignored, TypeOf, Unclosed, Split;
    } else {
      var name := Split(line, ',')[0];
      if '(' in name {
        TypeShows(name, '(');
      }
      NotUnclosed(line);
      hide Ignored, TypeOf, Unclosed, WellFormedLogic, LogicalLine, FrameOf, Split;
      var l := LogicOf(line);
      s := if typ == "AND" then And(name, l) else Or(name, l);
    }
  }

  lemma NotUnclosed(line: string)
    requires !Unclosed(line)
    ensures '(' in line
  {
    hide NeverCloses;
  }

  lemma FieldsHaveReading(line: string) returns (s: Source)
    requires !Ignored(line) && '"' !in Split(line, ',')[0] && TypeOf(Split(line, ',')[0]) !in {"AND", "OR"}
    ensures WellFormed(s) && Render(s) == line
  {
    CutLine(line);
    var name, ws := Split(line, ',')[0], Cut(line, false);
    hide Split, IsModifier, Ignored, TypeOf, Cut, AreFields, Join, IsName, Partial, Unclosed;
    if TypeOf(name) == "FINAL" {
      s := Final(name, ws[1..]);
      assert [name] + ws[1..] == ws;
    } else if Partial(ws) {
      s := Scrap(line);
    } else {
      s := AtomOf(ws);
    }
  }

  lemma ScrapReads(line: string)
    requires Ignored(line) || '"' in Split(line, ',')[0]
    ensures WellFormed(Scrap(line)) && Render(Scrap(line)) == line
  {
    hide Split, Ignored, TypeOf, Unclosed, Partial, AreFields;
  }

  /** Every line but a bare OR has a reading. */
  lemma LineHasReading(raw: string) returns (s: Source)
    requires !BareOr(raw)
    ensures Reads(raw, s)
  {
    var line := Strip(raw);
    var typ := TypeOf(Split(line, ',')[0]);
    hide Strip, Split, Ignored, TypeOf, WellFormed, Render;
    if Ignored(line) || '"' in Split(line, ',')[0] {
      s := Scrap(line);
      ScrapReads(line);
    } else if typ in {"AND", "OR"} {
      s := LogicalHasReading(line, typ);
    } else {
      s := FieldsHaveReading(line);
    }
  }

  /** The lines of a list and what they read as. */
  ghost predicate Rendered(raws: seq<string>, sources: seq<Source>) {
    |raws| == |sources| && forall i :: 0 <= i < |raws| ==> Reads(raws[i], sources[i])
  }

  lemma {:induction false} ReadList(raws: seq<string>) returns (sources: seq<Source>)
    requires forall raw <- raws :: !BareOr(raw)
    ensures Rendered(raws, sources)
  {
    hide Reads, BareOr;
    if raws == [] {
      sources := [];
    } else {
      assert raws[0] in raws && forall raw <- raws[1..] :: raw in raws;
      var s := LineHasReading(raws[0]);
      var rest := ReadList(raws[1..]);
      sources := [s] + rest;
    }
  }

  // ----- First match ----------------------------------------------------------------------

  /** Whether a matcher with its value matches a request. The gateway writes IP-CIDR6 as IP-CIDR. */
  ghost predicate Matcher<R(!new)>(m: (string, string, R) -> bool) {
    forall v, r :: m("IP-CIDR6", v, r) == m("IP-CIDR", v, r)
  }

  predicate MemberHits<R>(m: (string, string, R) -> bool, member: Member, r: R) {
    MemberValue(member).Some? && m(MemberType(member), MemberValue(member).value, r)
  }

  /** A rule, that is a line with a policy, matches a request. */
  ghost predicate Hits<R>(m: (string, string, R) -> bool, s: Source, r: R) {
    && PolicyOf(s).Some?
    && match s
       case Atom(name, value, _, _, _) => m(TypeOf(name), Value(value), r)
       case And(_, l) => forall i :: 0 <= i < |l.members| ==> MemberHits(m, l.members[i], r)
       case Or(_, l) => exists i :: 0 <= i < |l.members| && MemberHits(m, l.members[i], r)
       case Final(_, _) => true
       case Scrap(_) => false
  }

  /** The category of the first source rule that matches. */
  ghost function SourceRoute<R>(m: (string, string, R) -> bool, cat: string -> string, sources: seq<Source>, r: R)
    : Option<string>
  {
    if sources == [] then None
    else if Hits(m, sources[0], r) then Some(cat(PolicyOf(sources[0]).value))
    else SourceRoute(m, cat, sources[1..], r)
  }

  /** The category of the first emitted rule that matches, else the given one. */
  ghost function Route<R>(m: (string, string, R) -> bool, rules: seq<Emitted>, final: Option<string>, r: R)
    : Option<string>
  {
    if rules == [] then final
    else if m(rules[0].typ, rules[0].value, r) then Some(rules[0].category)
    else Route(m, rules[1..], final, r)
  }

  /** The rule that a member becomes. */
  ghost predicate Becomes(member: Member, category: string, e: Emitted) {
    && MemberValue(member).Some? && MemberType(member) in KEEP
    && e == Emit(MemberType(member), MemberValue(member).value, category)
  }

  lemma {:induction false} KeptMembersOrigin(ms: seq<Member>, category: string, e: Emitted)
    requires e in KeptMembers(ms, category)
    ensures exists member <- ms :: Becomes(member, category, e)
  {
    hide MemberType, MemberValue, KEEP, Emit;
    if Becomes(ms[0], category, e) {
      assert ms[0] in ms;
    } else {
      KeptMembersOrigin(ms[1..], category, e);
      var member :| member in ms[1..] && Becomes(member, category, e);
      assert member in ms;
    }
  }

  /** No rule is broadened: what an emitted rule matches its source matches, with the same category. */
  lemma NeverBroadens<R(!new)>(m: (string, string, R) -> bool, cat: string -> string, s: Source, e: Emitted, r: R)
    requires Matcher(m) && Meaning(cat, s).Emits? && e in Meaning(cat, s).rules
    ensures e.typ in KEEP && PolicyOf(s).Some? && e.category == cat(PolicyOf(s).value)
    ensures m(e.typ, e.value, r) ==> Hits(m, s, r)
  {
    hide TypeOf, Value, MemberType, MemberValue, Upper;
    if s.Or? {
      var ms := s.logic.members;
      KeptMembersOrigin(ms, cat(PolicyOf(s).value), e);
      var member :| member in ms && Becomes(member, cat(PolicyOf(s).value), e);
      var i :| 0 <= i < |ms| && ms[i] == member;
      if m(e.typ, e.value, r) {
        assert MemberHits(m, ms[i], r);
      }
    }
  }

  /** The part of a rule that the gateway can apply matches: of an OR its known members, of an AND nothing. */
  ghost predicate Applied<R>(m: (string, string, R) -> bool, s: Source, r: R) {
    && PolicyOf(s).Some?
    && match s
       case Atom(name, value, _, _, _) => TypeOf(name) in KEEP && m(TypeOf(name), Value(value), r)
       case Or(_, l) => exists i :: 0 <= i < |l.members| && Applies(l.members[i]) && MemberHits(m, l.members[i], r)
       case Final(_, _) => true
       case _ => false
  }

  /** The category of the first source rule of which the gateway can apply a part that matches. */
  ghost function KeptRoute<R>(m: (string, string, R) -> bool, cat: string -> string, sources: seq<Source>, r: R)
    : Option<string>
  {
    if sources == [] then None
    else if Applied(m, sources[0], r) then Some(cat(PolicyOf(sources[0]).value))
    else KeptRoute(m, cat, sources[1..], r)
  }

  /** The gateway can apply the line as it is. A line that is no rule needs nothing. */
  ghost predicate Supported(s: Source) {
    PolicyOf(s).Some? ==>
      match s
      case Atom(name, _, _, _, _) => TypeOf(name) in KEEP
      case Or(_, l) => forall i :: 0 <= i < |l.members| ==> Applies(l.members[i])
      case _ => false
  }

  predicate Applies(member: Member) {
    MemberValue(member).Some? && MemberType(member) in KEEP
  }

  /** No rule and no other FINAL follows a FINAL with a policy. */
  ghost predicate Settled(sources: seq<Source>) {
    forall i, j :: 0 <= i < j < |sources| && sources[i].Final? && PolicyOf(sources[i]).Some? ==> Idle(sources[j])
  }

  predicate Idle(s: Source) {
    PolicyOf(s).None? && !s.Final?
  }

  lemma {:induction false} RouteAppend<R>(m: (string, string, R) -> bool, a: seq<Emitted>, b: seq<Emitted>,
                                          final: Option<string>, r: R)
    ensures Route(m, a + b, final, r) == Route(m, a, Route(m, b, final, r), r)
  {
    if a == [] {
      assert a + b == b;
    } else {
      RouteAppend(m, a[1..], b, final, r);
      assert (a + b)[1..] == a[1..] + b;
    }
  }

  lemma {:induction false} OrRoute<R(!new)>(m: (string, string, R) -> bool, ms: seq<Member>, category: string,
                                            else_: Option<string>, r: R)
    requires Matcher(m)
    ensures Route(m, KeptMembers(ms, category), else_, r) ==
            if exists i :: 0 <= i < |ms| && Applies(ms[i]) && MemberHits(m, ms[i], r) then Some(category) else else_
    decreases |ms|
  {
    hide MemberType, MemberValue, KEEP;
    if ms != [] {
      OrRoute(m, ms[1..], category, else_, r);
      var rest := KeptMembers(ms[1..], category);
      if Applies(ms[0]) {
        var e := Emit(MemberType(ms[0]), MemberValue(ms[0]).value, category);
        assert KeptMembers(ms, category) == [e] + rest;
        assert KeptMembers(ms, category)[1..] == rest;
        assert MemberHits(m, ms[0], r) == m(e.typ, e.value, r);
      } else {
        assert KeptMembers(ms, category) == [] + rest == rest;
      }
      if i :| 0 <= i < |ms[1..]| && Applies(ms[1..][i]) && MemberHits(m, ms[1..][i], r) {
        assert Applies(ms[i + 1]) && MemberHits(m, ms[i + 1], r);
      }
      if i :| 1 <= i < |ms| && Applies(ms[i]) && MemberHits(m, ms[i], r) {
        assert Applies(ms[1..][i - 1]) && MemberHits(m, ms[1..][i - 1], r);
      }
    }
  }

  lemma OneRoute<R(!new)>(m: (string, string, R) -> bool, cat: string -> string, s: Source, else_: Option<string>, r: R)
    requires Matcher(m) && !s.Final?
    ensures Meaning(cat, s).Emits?
    ensures Route(m, Meaning(cat, s).rules, else_, r) ==
            if Applied(m, s, r) then Some(cat(PolicyOf(s).value)) else else_
  {
    hide TypeOf, Value, MemberHits, Applies, KeptMembers;
    if PolicyOf(s).Some? {
      if s.Or? {
        OrRoute(m, s.logic.members, cat(PolicyOf(s).value), else_, r);
      } else if s.Atom? && TypeOf(s.name) in KEEP {
        var e := Emit(TypeOf(s.name), Value(s.value), cat(PolicyOf(s).value));
        assert Meaning(cat, s).rules == [e] && [e][1..] == [];
        assert m(e.typ, e.value, r) == m(TypeOf(s.name), Value(s.value), r);
      }
    }
  }

  lemma IdleMeaning(cat: string -> string, s: Source)
    requires Idle(s)
    ensures Meaning(cat, s) == Emits([])
  {
  }

  /** Lines that are no rules and no FINAL change nothing. */
  lemma {:induction false} IdleLines(cat: string -> string, raws: seq<string>, sources: seq<Source>, sofar: Conversion)
    requires Rendered(raws, sources) && sofar.Converted? && forall i :: 0 <= i < |sources| ==> Idle(sources[i])
    ensures ConvertAll(cat, raws, sofar) == sofar
    decreases |raws|
  {
    hide Convert, Reads, Idle, Meaning;
    if raws != [] {
      assert Reads(raws[0], sources[0]);
      ReadIsConverted(cat, sources[0], raws[0]);
      IdleMeaning(cat, sources[0]);
      assert sofar.(rules := sofar.rules + []) == sofar;
      IdleLines(cat, raws[1..], sources[1..], sofar);
    }
  }

  lemma SettledRest(sources: seq<Source>)
    requires Settled(sources) && sources != []
    ensures Settled(sources[1..])
    ensures sources[0].Final? && PolicyOf(sources[0]).Some? ==>
              forall i :: 0 <= i < |sources[1..]| ==> Idle(sources[1..][i])
  {
    hide PolicyOf, Idle;
    assert forall i :: 0 <= i < |sources[1..]| ==> sources[1..][i] == sources[i + 1];
  }

  /** Whatever the list, when nothing but idle lines follows its FINAL, every request is routed by the first rule of
      which the gateway can apply a part that matches. */
  lemma {:induction false} KeptRouting<R(!new)>(m: (string, string, R) -> bool, cat: string -> string,
                                                raws: seq<string>, sources: seq<Source>, sofar: Conversion, r: R)
    requires Matcher(m) && Rendered(raws, sources) && Settled(sources) && sofar.Converted? && sofar.final == None
    ensures var c := ConvertAll(cat, raws, sofar);
            c.Converted? && Route(m, c.rules, c.final, r) == Route(m, sofar.rules, KeptRoute(m, cat, sources, r), r)
    decreases |raws|
  {
    hide Convert, Reads, Route, PolicyOf;
    if raws != [] {
      var s, rest := sources[0], KeptRoute(m, cat, sources[1..], r);
      assert Reads(raws[0], s) && Rendered(raws[1..], sources[1..]);
      ReadIsConverted(cat, s, raws[0]);
      SettledRest(sources);
      hide Settled, Idle, Rendered;
      var next := Add(sofar, Convert(cat, raws[0]));
      if s.Final? {
        if PolicyOf(s).Some? {
          IdleLines(cat, raws[1..], sources[1..], next);
        } else {
          KeptRouting(m, cat, raws[1..], sources[1..], next, r);
        }
      } else {
        OneRoute(m, cat, s, rest, r);
        KeptRouting(m, cat, raws[1..], sources[1..], next, r);
        hide Meaning, Applied, ConvertAll;
        RouteAppend(m, sofar.rules, Meaning(cat, s).rules, rest, r);
      }
    }
  }

  ghost predicate AllSupported(sources: seq<Source>) {
    forall i :: 0 <= i < |sources| ==> Supported(sources[i]) || sources[i].Final?
  }

  lemma {:induction false} SupportedRoute<R>(m: (string, string, R) -> bool, cat: string -> string,
                                             sources: seq<Source>, r: R)
    requires AllSupported(sources)
    ensures KeptRoute(m, cat, sources, r) == SourceRoute(m, cat, sources, r)
    decreases |sources|
  {
    hide PolicyOf, TypeOf, Value, Applies, MemberHits;
    if sources != [] {
      assert Supported(sources[0]) || sources[0].Final?;
      assert forall i :: 0 <= i < |sources[1..]| ==> sources[1..][i] == sources[i + 1];
      SupportedRoute(m, cat, sources[1..], r);
    }
  }

  /** First-match routing survives for every request, when besides all matchers are the gateway's. */
  lemma RoutingPreserved<R(!new)>(m: (string, string, R) -> bool, cat: string -> string, raws: seq<string>,
                                  sources: seq<Source>, r: R)
    requires Matcher(m) && Rendered(raws, sources) && Settled(sources) && AllSupported(sources)
    ensures var c := ConvertAll(cat, raws, Converted([], None));
            c.Converted? && Route(m, c.rules, c.final, r) == SourceRoute(m, cat, sources, r)
  {
    KeptRouting(m, cat, raws, sources, Converted([], None), r);
    SupportedRoute(m, cat, sources, r);
    hide ConvertAll, Rendered, Settled, AllSupported;
  }

  /** A source rule that matches whatever e matches, with its category. */
  ghost predicate Origin<R>(m: (string, string, R) -> bool, cat: string -> string, s: Source, e: Emitted, r: R) {
    Hits(m, s, r) && e.category == cat(PolicyOf(s).value)
  }

  /** A FINAL line with this category. */
  predicate Defaults(cat: string -> string, s: Source, category: string) {
    s.Final? && PolicyOf(s).Some? && cat(PolicyOf(s).value) == category
  }

  /** For an arbitrary list: every emitted rule comes from some source rule, which matches whatever it matches, and the
      default comes from a FINAL. */
  lemma {:induction false} EmittedHasSource<R(!new)>(m: (string, string, R) -> bool, cat: string -> string,
                                                     raws: seq<string>, sources: seq<Source>, sofar: Conversion,
                                                     e: Emitted, r: R)
    requires Matcher(m) && Rendered(raws, sources) && sofar.Converted?
    ensures var c := ConvertAll(cat, raws, sofar);
            && c.Converted?
            && (e in c.rules && m(e.typ, e.value, r) ==>
                  e in sofar.rules || exists s <- sources :: Origin(m, cat, s, e, r))
            && (c.final.Some? ==> c.final == sofar.final || exists s <- sources :: Defaults(cat, s, c.final.value))
    decreases |raws|
  {
    hide Convert, Reads, Hits, PolicyOf, Origin, Defaults;
    if raws != [] {
      var s := sources[0];
      assert Reads(raws[0], s) && Rendered(raws[1..], sources[1..]);
      ReadIsConverted(cat, s, raws[0]);
      var next := Add(sofar, Convert(cat, raws[0]));
      EmittedHasSource(m, cat, raws[1..], sources[1..], next, e, r);
      LineHasSource(m, cat, s, e, r);
      hide Meaning, ConvertAll, Rendered;
      assert s in sources && forall t <- sources[1..] :: t in sources;
    }
  }

  lemma LineHasSource<R(!new)>(m: (string, string, R) -> bool, cat: string -> string, s: Source, e: Emitted, r: R)
    requires Matcher(m)
    ensures var effect := Meaning(cat, s);
            && (effect.Emits? && e in effect.rules && m(e.typ, e.value, r) ==> Origin(m, cat, s, e, r))
            && (effect.SetsFinal? && effect.category.Some? ==> Defaults(cat, s, effect.category.value))
  {
    if Meaning(cat, s).Emits? && e in Meaning(cat, s).rules {
      NeverBroadens(m, cat, s, e, r);
    }
    hide PolicyOf, Hits;
  }

  // ----- Errors ---------------------------------------------------------------------------

  /** Such a line, and no other, raises an error. */
  lemma CrashesIff(cat: string -> string, raw: string)
    ensures Convert(cat, raw) == Crash <==> BareOr(raw)
  {
    hide Strip, Split, Upper, CsvSplit, EmitMembers, Ignored, KEEP, FirstPolicy, CloseAt, SplitTopParens, DropCommas;
    var line := Strip(raw);
    var i := IndexOf(line, '(');
    hide IndexOf;
    assert i.None? <==> '(' !in line;
  }

  /** The conversion ends with an error iff the list has such a line. */
  lemma {:induction false} ConversionCrashesIff(cat: string -> string, raws: seq<string>, sofar: Conversion)
    requires sofar.Converted?
    ensures ConvertAll(cat, raws, sofar).Crashed? <==> exists raw <- raws :: BareOr(raw)
    decreases |raws|
  {
    hide Convert, BareOr;
    if raws != [] {
      CrashesIff(cat, raws[0]);
      assert forall raw :: raw in raws <==> raw == raws[0] || raw in raws[1..];
      var next := Add(sofar, Convert(cat, raws[0]));
      if next.Converted? {
        ConversionCrashesIff(cat, raws[1..], next);
      } else {
        CrashStays(cat, raws[1..]);
      }
    }
  }

  /** A list has a reading iff its conversion ends without an error. */
  lemma ListReadsIff(cat: string -> string, raws: seq<string>)
    ensures (exists sources :: Rendered(raws, sources)) <==> ConvertAll(cat, raws, Converted([], None)).Converted?
  {
    ConversionCrashesIff(cat, raws, Converted([], None));
    hide ConvertAll, BareOr, Rendered;
    if sources :| Rendered(raws, sources) {
      RenderedConverts(cat, raws, sources, Converted([], None));
    } else if forall raw <- raws :: !BareOr(raw) {
      var sources := ReadList(raws);
    }
  }

  lemma {:induction false} RenderedConverts(cat: string -> string, raws: seq<string>, sources: seq<Source>,
                                            sofar: Conversion)
    requires Rendered(raws, sources) && sofar.Converted?
    ensures ConvertAll(cat, raws, sofar).Converted?
    decreases |raws|
  {
    hide Convert, Reads;
    if raws != [] {
      assert Reads(raws[0], sources[0]);
      ReadIsConverted(cat, sources[0], raws[0]);
      hide Meaning;
      RenderedConverts(cat, raws[1..], sources[1..], Add(sofar, Convert(cat, raws[0])));
    }
  }
}
