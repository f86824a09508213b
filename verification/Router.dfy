/** Compiling rule lines into the router's configuration. */
module Router {
  import opened Bytes
  import opened Text
  import opened RuleText

  datatype Target = Direct | Reject | Exit(name: string)

  /** One line of the rules file; policies of a rule are its third field, of FINAL its second. */
  datatype Parsed = Blank | Bad | Rule(kind: string, value: string, policy: string) | Final(choice: Option<string>)

  /** policies: the loaded map; dir: stems and extensions in the exits directory, in listing order; tag: the name of a
      rule provider (part of a digest); usable: the checks on a rule-set source; loads: a YAML exit has a proxy;
      wg: WireGuard exits. */
  datatype Env = Env(policies: map<string, string>, dir: seq<(string, string)>, defaultTarget: string,
                     tag: string -> string, usable: string -> bool, loads: string -> bool, wg: set<string>)

  const PLAIN: set<string> := {"DOMAIN", "DOMAIN-SUFFIX", "DOMAIN-KEYWORD", "IP-CIDR", "GEOSITE", "GEOIP"}

  function Dashes(s: string): string {
    if s == "" then "" else [if s[0] == '_' then '-' else s[0]] + Dashes(s[1..])
  }

  function KindOf(typ: string): string {
    if typ == "IP-CIDR6" then "IP-CIDR"
    else if typ == "RULESET" || typ == "RULE-PROVIDER" then "RULE-SET"
    else typ
  }

  /** The part of a line before any comment. */
  function Code(raw: string): string {
    Strip(Split(Split(raw, '#')[0], ';')[0])
  }

  function Parse(raw: string): Parsed {
    var line := Code(raw);
    if line == "" then Blank
    else ParseFields(StripAll(Split(line, ',')))
  }

  function ParseFields(parts: seq<string>): Parsed
    requires parts != []
  {
    var typ := Dashes(Upper(parts[0]));
    if typ == "FINAL" then Final(if |parts| > 1 then Some(parts[1]) else None)
    else if |parts| < 3 || (KindOf(typ) !in PLAIN && KindOf(typ) != "RULE-SET") then Bad
    else Rule(KindOf(typ), parts[1], parts[2])
  }

  lemma {:induction false} BlankFront(raw: string, sign: char)
    requires LeftStrip(raw) == "" || LeftStrip(raw)[0] == sign
    requires !IsSpace(sign)
    ensures LeftStrip(Split(raw, sign)[0]) == ""
    decreases |raw|
  {
    if raw != "" && IsSpace(raw[0]) {
      BlankFront(raw[1..], sign);
      var front := Split(raw[1..], sign)[0];
      assert Split(raw, sign)[0] == [raw[0]] + front;
      assert ([raw[0]] + front)[1..] == front;
    }
  }

  lemma {:induction false} FrontKept(raw: string, sign: char, c: char)
    requires LeftStrip(raw) != "" && LeftStrip(raw)[0] == c && c != sign && !IsSpace(sign)
    ensures LeftStrip(Split(raw, sign)[0]) != "" && LeftStrip(Split(raw, sign)[0])[0] == c
    decreases |raw|
  {
    var front := Split(raw[1..], sign)[0];
    if IsSpace(raw[0]) {
      FrontKept(raw[1..], sign, c);
    }
    assert Split(raw, sign)[0] == [raw[0]] + front;
    assert ([raw[0]] + front)[1..] == front;
  }

  lemma {:induction false} EmptyFront(raw: string, sign: char)
    requires LeftStrip(raw) == "" && !IsSpace(sign)
    ensures LeftStrip(Split(raw, sign)[0]) == ""
  {
    BlankFront(raw, sign);
  }

  /** A line is passed over iff it is blank or starts with a comment. */
  lemma BlankIff(raw: string)
    ensures Parse(raw).Blank? <==> LeftStrip(raw) == "" || LeftStrip(raw)[0] == '#' || LeftStrip(raw)[0] == ';'
  {
    hide ParseFields, Split, LeftStrip, RightStrip;
    var front := Split(raw, '#')[0];
    if LeftStrip(raw) == "" || LeftStrip(raw)[0] == '#' {
      BlankFront(raw, '#');
      EmptyFront(front, ';');
      BlankStrip(Split(front, ';')[0]);
    } else {
      FrontKept(raw, '#', LeftStrip(raw)[0]);
      if LeftStrip(raw)[0] == ';' {
        BlankFront(front, ';');
      } else {
        FrontKept(front, ';', LeftStrip(raw)[0]);
      }
      BlankStrip(Split(front, ';')[0]);
    }
    NoBlankFields(StripAll(Split(Code(raw), ',')));
  }

  lemma NoBlankFields(parts: seq<string>)
    requires parts != []
    ensures !ParseFields(parts).Blank?
  {
    hide Upper, Dashes, KindOf, PLAIN;
  }

  lemma BlankStrip(s: string)
    ensures Strip(s) == "" <==> LeftStrip(s) == ""
  {
    var t := LeftStrip(s);
    if t != "" {
      RightStripKeeps(t, t[0]);
    }
  }

  // ----- Targets -----------------------------------------------------------------------

  predicate IsDirect(low: string) {
    low == "direct" || low == "direct-out" || low == "dir"
  }

  predicate IsReject(low: string) {
    low == "block" || low == "reject" || low == "reject-drop"
  }

  /** The first listed stem that is name up to case, among the extensions an exit may have. */
  function FirstStem(dir: seq<(string, string)>, exts: set<string>, name: string): Option<string> {
    if dir == [] then None
    else if dir[0].1 in exts && Lower(dir[0].0) == Lower(name) then Some(dir[0].0)
    else FirstStem(dir[1..], exts, name)
  }

  const EXIT_FILES: set<string> := {".yaml", ".json", ".type"}

  function Canonical(env: Env, name: string): string {
    FirstStem(env.dir, EXIT_FILES, name).GetOr(name)
  }

  function Resolve(env: Env, policy: string): Target {
    var t := Strip(policy);
    if IsDirect(Lower(t)) then Direct
    else if IsReject(Lower(t)) then Reject
    else if t in env.policies then
      var mapped := Strip(env.policies[t]);
      if IsDirect(Lower(mapped)) then Direct
      else if IsReject(Lower(mapped)) then Reject
      else Exit(Canonical(env, mapped))
    else Exit(Canonical(env, t))
  }

  /** The router's own words, in any letter case, need no map and no exit. */
  lemma ReservedPolicies(env: Env, policy: string)
    ensures Lower(Strip(policy)) in {"direct", "direct-out", "dir"} ==> Resolve(env, policy) == Direct
    ensures Lower(Strip(policy)) in {"block", "reject", "reject-drop"} ==> Resolve(env, policy) == Reject
  {
    hide Lower, Strip, Canonical;
  }

  /** Any other policy is looked up in the map, where the same words count; what is not in the map is an exit. */
  lemma OtherPolicies(env: Env, policy: string)
    requires Lower(Strip(policy)) !in {"direct", "direct-out", "dir", "block", "reject", "reject-drop"}
    ensures var t := Strip(policy);
            if t !in env.policies then Resolve(env, policy) == Exit(Canonical(env, t))
            else
              var mapped := Strip(env.policies[t]);
              if Lower(mapped) in {"direct", "direct-out", "dir"} then Resolve(env, policy) == Direct
              else if Lower(mapped) in {"block", "reject", "reject-drop"} then Resolve(env, policy) == Reject
              else Resolve(env, policy) == Exit(Canonical(env, mapped))
  {
    hide Lower, Strip, Canonical;
  }

  // ----- Rule types -------------------------------------------------------------------------

  lemma {:induction false} DashesAt(s: string)
    ensures |Dashes(s)| == |s| && forall i :: 0 <= i < |s| ==> Dashes(s)[i] == if s[i] == '_' then '-' else s[i]
  {
    if s != "" {
      DashesAt(s[1..]);
    }
  }

  const RULE_SETS: set<string> := {"RULE-SET", "RULESET", "RULE-PROVIDER"}
  const SAME_NAME: set<string> := {"DOMAIN", "DOMAIN-SUFFIX", "DOMAIN-KEYWORD", "GEOSITE", "GEOIP"}

  /** The types, in capital letters and with `-` for `_`: what a line means, and which lines end the compilation. */
  lemma TypeTable(parts: seq<string>)
    requires parts != []
    ensures var typ := Dashes(Upper(parts[0]));
            ParseFields(parts) ==
            if typ == "FINAL" then Final(if |parts| == 1 then None else Some(parts[1]))
            else if |parts| < 3 then Bad
            else if typ in SAME_NAME then Rule(typ, parts[1], parts[2])
            else if typ in {"IP-CIDR", "IP-CIDR6"} then Rule("IP-CIDR", parts[1], parts[2])
            else if typ in RULE_SETS then Rule("RULE-SET", parts[1], parts[2])
            else Bad
  {
    hide Upper, Dashes;
  }

  // ----- The rule loop -------------------------------------------------------------------

  datatype Compiled = Match(target: Target) | Plain(kind: string, value: string, target: Target)
                    | Provided(tag: string, target: Target)

  datatype Config = Config(rules: seq<Compiled>, used: set<string>, providers: map<string, string>)

  const EMPTY: Config := Config([], {}, map[])

  function Use(t: Target): set<string> {
    if t.Exit? then {t.name} else {}
  }

  function FinalTarget(env: Env, policy: Option<string>): Target {
    Resolve(env, policy.GetOr(env.defaultTarget))
  }

  /** The rule a line becomes, if it becomes one. */
  function CompiledRule(env: Env, p: Parsed): Option<Compiled> {
    match p
    case Blank => None
    case Bad => None
    case Final(policy) => Some(Match(FinalTarget(env, policy)))
    case Rule(kind, value, policy) =>
      if kind == "RULE-SET" then Some(Provided(env.tag(value), Resolve(env, policy)))
      else Some(Plain(kind, value, Resolve(env, policy)))
  }

  predicate Dies(env: Env, p: Parsed) {
    p.Bad? || (p.Rule? && p.kind == "RULE-SET" && !env.usable(p.value))
  }

  function AddRule(env: Env, c: Config, p: Parsed): Config {
    var rule := CompiledRule(env, p);
    if rule.None? then c
    else
      Config(c.rules + [rule.value], c.used + Use(rule.value.target),
             if rule.value.Provided? && p.Rule? then c.providers[rule.value.tag := p.value] else c.providers)
  }

  /** None when a line ends the compilation. */
  function Compile(env: Env, lines: seq<string>, c: Config): Option<Config>
    decreases |lines|
  {
    if lines == [] then Some(c)
    else if Dies(env, Parse(lines[0])) then None
    else Compile(env, lines[1..], AddRule(env, c, Parse(lines[0])))
  }

  lemma CompileLine(env: Env, lines: seq<string>, i: nat, c: Config)
    requires i < |lines|
    ensures Compile(env, lines[i..], c) ==
            if Dies(env, Parse(lines[i])) then None else Compile(env, lines[i + 1..], AddRule(env, c, Parse(lines[i])))
  {
    assert lines[i..][1..] == lines[i + 1..];
  }

  lemma NoLines(env: Env, c: Config)
    ensures Compile(env, [], c) == Some(c)
  {
  }

  /** One round of the loop. */
  method AddLine(env: Env, raw: string, c: Config) returns (ok: bool, c': Config)
    ensures ok == !Dies(env, Parse(raw)) && (ok ==> c' == AddRule(env, c, Parse(raw)))
  {
    hide Parse, Resolve;
    var rules, used, providers := c.rules, c.used, c.providers;
    var p := Parse(raw);
    if p.Bad? {
      return false, c;
    }
    if p.Final? {
      var target := FinalTarget(env, p.choice);
      rules, used := rules + [Match(target)], used + Use(target);
    } else if p.Rule? {
      var target := Resolve(env, p.policy);
      used := used + Use(target);
      if p.kind == "RULE-SET" {
        if !env.usable(p.value) {
          return false, c;
        }
        var tag := env.tag(p.value);
        providers := providers[tag := p.value];
        rules := rules + [Provided(tag, target)];
      } else {
        rules := rules + [Plain(p.kind, p.value, target)];
      }
    }
    return true, Config(rules, used, providers);
  }

  method CompileRules(env: Env, lines: seq<string>) returns (c: Option<Config>)
    ensures c == Compile(env, lines, EMPTY)
  {
    hide Compile, Dies, AddRule, Parse;
    var config := EMPTY;
    assert lines[0..] == lines;
    for i := 0 to |lines|
      invariant Compile(env, lines, EMPTY) == Compile(env, lines[i..], config)
    {
      CompileLine(env, lines, i, config);
      var ok;
      ok, config := AddLine(env, lines[i], config);
      if !ok {
        return None;
      }
    }
    assert lines[|lines|..] == [];
    NoLines(env, config);
    return Some(config);
  }

  // ----- First match ----------------------------------------------------------------------

  /** The target of the first line whose matcher matches; m tells what a matcher with its value matches. */
  ghost function LinesRoute<R>(m: (string, string, R) -> bool, env: Env, lines: seq<string>, r: R): Option<Target>
    decreases |lines|
  {
    if lines == [] then None
    else
      match Parse(lines[0])
      case Final(policy) => Some(FinalTarget(env, policy))
      case Rule(kind, value, policy) =>
        if m(kind, value, r) then Some(Resolve(env, policy)) else LinesRoute(m, env, lines[1..], r)
      case _ => LinesRoute(m, env, lines[1..], r)
  }

  predicate RuleHits<R>(m: (string, string, R) -> bool, providers: map<string, string>, rule: Compiled, r: R) {
    match rule
    case Match(_) => true
    case Plain(kind, value, _) => m(kind, value, r)
    case Provided(tag, _) => tag in providers && m("RULE-SET", providers[tag], r)
  }

  /** What the router does with its configuration. */
  ghost function RouterRoute<R>(m: (string, string, R) -> bool, providers: map<string, string>, rules: seq<Compiled>,
                                r: R): Option<Target>
  {
    if rules == [] then None
    else if RuleHits(m, providers, rules[0], r) then Some(rules[0].target)
    else RouterRoute(m, providers, rules[1..], r)
  }

  function Optional<T>(o: Option<T>): seq<T> {
    if o.None? then [] else [o.value]
  }

  function CompiledRules(env: Env, lines: seq<string>): seq<Compiled> {
    if lines == [] then [] else Optional(CompiledRule(env, Parse(lines[0]))) + CompiledRules(env, lines[1..])
  }

  /** The rule-set sources of a list of lines get different names. */
  ghost predicate TagsDiffer(env: Env, lines: seq<string>) {
    forall i, j :: 0 <= i < |lines| && 0 <= j < |lines| && SetValue(lines[i]).Some? && SetValue(lines[j]).Some? ==>
      env.tag(SetValue(lines[i]).value) == env.tag(SetValue(lines[j]).value) ==>
        SetValue(lines[i]) == SetValue(lines[j])
  }

  function SetValue(line: string): Option<string> {
    var p := Parse(line);
    if p.Rule? && p.kind == "RULE-SET" then Some(p.value) else None
  }

  /** Every provider is one of the given sources under its own name. */
  ghost predicate Named(env: Env, providers: map<string, string>, lines: seq<string>) {
    forall t <- providers ::
      env.tag(providers[t]) == t && exists i :: 0 <= i < |lines| && SetValue(lines[i]) == Some(providers[t])
  }

  /** Compiling appends the compiled rules of the lines, in their order. */
  lemma {:induction false} CompileAppends(env: Env, lines: seq<string>, c: Config)
    requires Compile(env, lines, c).Some?
    ensures Compile(env, lines, c).value.rules == c.rules + CompiledRules(env, lines)
    decreases |lines|
  {
    hide Parse, Resolve;
    if lines != [] {
      var p := Parse(lines[0]);
      CompileAppends(env, lines[1..], AddRule(env, c, p));
      AppendOne(c.rules, Optional(CompiledRule(env, p)), CompiledRules(env, lines[1..]));
    }
  }

  lemma AppendOne<T>(a: seq<T>, b: seq<T>, c: seq<T>)
    ensures (a + b) + c == a + (b + c)
  {
  }

  /** What compiling lines[i..] adds to the providers, when all are the given lines. */
  lemma {:induction false} CompileProvides(env: Env, lines: seq<string>, i: nat, c: Config)
    requires i <= |lines| && TagsDiffer(env, lines) && Named(env, c.providers, lines)
    requires Compile(env, lines[i..], c).Some?
    ensures var c' := Compile(env, lines[i..], c).value;
            && Named(env, c'.providers, lines)
            && (forall t <- c.providers :: t in c'.providers && c'.providers[t] == c.providers[t])
            && (forall k :: i <= k < |lines| && SetValue(lines[k]).Some? ==>
                  env.tag(SetValue(lines[k]).value) in c'.providers
                  && c'.providers[env.tag(SetValue(lines[k]).value)] == SetValue(lines[k]).value)
    decreases |lines| - i
  {
    hide Parse, Resolve;
    if i < |lines| {
      CompileLine(env, lines, i, c);
      assert lines[i..][1..] == lines[i + 1..];
      var c1 := AddRule(env, c, Parse(lines[i]));
      AddNamed(env, lines, i, c);
      CompileProvides(env, lines, i + 1, c1);
    }
  }

  /** Whatever exit a compiled rule goes to is among those to load. */
  lemma {:induction false} CompileUses(env: Env, lines: seq<string>, c: Config)
    requires Compile(env, lines, c).Some?
    ensures var used := Compile(env, lines, c).value.used;
            c.used <= used && forall rule <- CompiledRules(env, lines) :: Use(rule.target) <= used
    decreases |lines|
  {
    hide Parse, Resolve, Use;
    if lines != [] {
      CompileUses(env, lines[1..], AddRule(env, c, Parse(lines[0])));
    }
  }

  lemma AddNamed(env: Env, lines: seq<string>, i: nat, c: Config)
    requires i < |lines| && TagsDiffer(env, lines) && Named(env, c.providers, lines)
    ensures var c1 := AddRule(env, c, Parse(lines[i]));
            && Named(env, c1.providers, lines)
            && (forall t <- c.providers :: t in c1.providers && c1.providers[t] == c.providers[t])
            && (SetValue(lines[i]).Some? ==>
                  env.tag(SetValue(lines[i]).value) in c1.providers
                  && c1.providers[env.tag(SetValue(lines[i]).value)] == SetValue(lines[i]).value)
  {
    hide Parse, Resolve;
    var tag := env.tag;
    if SetValue(lines[i]).Some? {
      var v := SetValue(lines[i]).value;
      if tag(v) in c.providers {
        var k :| 0 <= k < |lines| && SetValue(lines[k]) == Some(c.providers[tag(v)]);
        assert SetValue(lines[k]) == SetValue(lines[i]);
      }
    }
  }

  lemma {:induction false} RulesRoute<R>(m: (string, string, R) -> bool, env: Env, lines: seq<string>,
                                         providers: map<string, string>, r: R)
    requires forall k :: 0 <= k < |lines| && SetValue(lines[k]).Some? ==>
               env.tag(SetValue(lines[k]).value) in providers
               && providers[env.tag(SetValue(lines[k]).value)] == SetValue(lines[k]).value
    requires forall k :: 0 <= k < |lines| ==> !Parse(lines[k]).Bad?
    ensures RouterRoute(m, providers, CompiledRules(env, lines), r) == LinesRoute(m, env, lines, r)
    decreases |lines|
  {
    hide Parse, Resolve;
    if lines != [] {
      assert SetValue(lines[0]).Some? ==> providers[env.tag(SetValue(lines[0]).value)] == SetValue(lines[0]).value;
      assert forall k :: 0 <= k < |lines[1..]| ==> lines[1..][k] == lines[k + 1];
      RulesRoute(m, env, lines[1..], providers, r);
      var rule := CompiledRule(env, Parse(lines[0]));
      assert rule.Some? ==> CompiledRules(env, lines)[1..] == CompiledRules(env, lines[1..]);
      assert rule.None? ==> CompiledRules(env, lines) == CompiledRules(env, lines[1..]);
    }
  }

  lemma {:induction false} NoBadLine(env: Env, lines: seq<string>, c: Config, k: nat)
    requires k < |lines| && Compile(env, lines, c).Some?
    ensures !Parse(lines[k]).Bad?
    decreases |lines|
  {
    hide Parse, AddRule;
    if k > 0 {
      NoBadLine(env, lines[1..], AddRule(env, c, Parse(lines[0])), k - 1);
    }
  }

  /** The router's first match is the first match of the lines, default rules ahead of the user's, for every request;
      provided no two rule-set sources share a name. */
  lemma CompiledKeepsFirstMatch<R>(m: (string, string, R) -> bool, env: Env, default_: seq<string>, user: seq<string>,
                                   r: R)
    requires TagsDiffer(env, default_ + user) && Compile(env, default_ + user, EMPTY).Some?
    ensures var c := Compile(env, default_ + user, EMPTY).value;
            RouterRoute(m, c.providers, c.rules, r) ==
            (var first := LinesRoute(m, env, default_, r); if first.Some? then first else LinesRoute(m, env, user, r))
  {
    var lines := default_ + user;
    assert lines[0..] == lines;
    CompileProvides(env, lines, 0, EMPTY);
    CompileAppends(env, lines, EMPTY);
    forall k | 0 <= k < |lines|
      ensures !Parse(lines[k]).Bad?
    {
      NoBadLine(env, lines, EMPTY, k);
    }
    RulesRoute(m, env, lines, Compile(env, lines, EMPTY).value.providers, r);
    LinesRouteAppend(m, env, default_, user, r);
    hide Parse, Compile, LinesRoute, RouterRoute, CompiledRules;
    assert [] + CompiledRules(env, lines) == CompiledRules(env, lines);
  }

  lemma {:induction false} LinesRouteAppend<R>(m: (string, string, R) -> bool, env: Env, a: seq<string>, b: seq<string>,
                                               r: R)
    ensures var first := LinesRoute(m, env, a, r);
            LinesRoute(m, env, a + b, r) == if first.Some? then first else LinesRoute(m, env, b, r)
    decreases |a|
  {
    hide Parse, Resolve;
    if a == [] {
      assert a + b == b;
    } else {
      LinesRouteAppend(m, env, a[1..], b, r);
      assert (a + b)[1..] == a[1..] + b;
    }
  }

  /** A request goes direct, or is refused, when the first line that matches it says one of the router's own words. */
  lemma WordDecides<R>(m: (string, string, R) -> bool, env: Env, before: seq<string>, line: string, after: seq<string>,
                       r: R)
    requires TagsDiffer(env, before + ([line] + after)) && Compile(env, before + ([line] + after), EMPTY).Some?
    requires LinesRoute(m, env, before, r).None? && Parse(line).Rule? && m(Parse(line).kind, Parse(line).value, r)
    ensures var c, word := Compile(env, before + ([line] + after), EMPTY).value, Lower(Strip(Parse(line).policy));
            && (word in {"direct", "direct-out", "dir"} ==> RouterRoute(m, c.providers, c.rules, r) == Some(Direct))
            && (word in {"block", "reject", "reject-drop"} ==> RouterRoute(m, c.providers, c.rules, r) == Some(Reject))
  {
    CompiledKeepsFirstMatch(m, env, before, [line] + after, r);
    ReservedPolicies(env, Parse(line).policy);
    hide Parse, Compile, RouterRoute, Lower, Strip, TagsDiffer, Resolve;
  }

  /** The compilation ends without a configuration iff some line is no rule or names a rule set that cannot be used. */
  lemma {:induction false} CompilesIff(env: Env, lines: seq<string>, c: Config)
    ensures Compile(env, lines, c).Some? <==>
            forall line <- lines ::
              && !Parse(line).Bad?
              && (Parse(line).Rule? && Parse(line).kind == "RULE-SET" ==> env.usable(Parse(line).value))
    decreases |lines|
  {
    hide Parse, AddRule;
    if lines != [] {
      CompilesIff(env, lines[1..], AddRule(env, c, Parse(lines[0])));
      assert forall line :: line in lines <==> line == lines[0] || line in lines[1..];
    }
  }

  // ----- Exits -----------------------------------------------------------------------------

  /** load_exit_proxy: the name of the proxy that comes out, after the spelling of the file it came from. */
  function LoadedName(env: Env, name: string): Option<string> {
    var yaml := if (name, ".yaml") in env.dir then Some(name) else FirstStem(env.dir, {".yaml"}, name);
    var name1 := yaml.GetOr(name);
    if yaml.Some? && env.loads(name1) then Some(name1)
    else
      var json := if (name1, ".json") in env.dir then Some(name1) else FirstStem(env.dir, {".json"}, name1);
      var name2 := json.GetOr(name1);
      if json.Some? || name2 in env.wg then Some(name2) else None
  }

  /** Exit files agree on spelling: no two names in the exits directory differ by case only. */
  ghost predicate Spelled(env: Env) {
    forall i, j :: 0 <= i < |env.dir| && 0 <= j < |env.dir| && Lower(env.dir[i].0) == Lower(env.dir[j].0) ==>
      env.dir[i].0 == env.dir[j].0
  }

  lemma {:induction false} FirstStemSound(dir: seq<(string, string)>, exts: set<string>, name: string)
    ensures var s := FirstStem(dir, exts, name);
            && (s.Some? ==> exists i :: 0 <= i < |dir| && dir[i].0 == s.value && dir[i].1 in exts
                                        && Lower(s.value) == Lower(name))
            && (s.None? ==> forall i :: 0 <= i < |dir| && dir[i].1 in exts ==> Lower(dir[i].0) != Lower(name))
  {
    hide Lower;
    if dir != [] {
      FirstStemSound(dir[1..], exts, name);
      if FirstStem(dir[1..], exts, name).Some? {
        var i :| 0 <= i < |dir[1..]| && dir[1..][i].0 == FirstStem(dir[1..], exts, name).value && dir[1..][i].1 in exts
                 && Lower(dir[1..][i].0) == Lower(name);
        assert dir[i + 1] == dir[1..][i];
      }
      assert forall i :: 1 <= i < |dir| ==> dir[i] == dir[1..][i - 1];
    }
  }

  /** A file of the exits directory that belongs to an exit of this name, in any letter case. */
  predicate ExitFile(env: Env, name: string, file: (string, string)) {
    file in env.dir && (file.1 == ".yaml" || file.1 == ".json" || file.1 == ".type") && Lower(file.0) == Lower(name)
  }

  /** An exit is spelled as its file in the exits directory is, when there is one, and as it was asked for when not. */
  lemma CanonicalFinds(env: Env, name: string)
    ensures (exists file :: ExitFile(env, name, file) && file.0 == Canonical(env, name))
            || ((forall file :: !ExitFile(env, name, file)) && Canonical(env, name) == name)
  {
    FirstStemSound(env.dir, EXIT_FILES, name);
    var s := FirstStem(env.dir, EXIT_FILES, name);
    hide FirstStem, Lower;
    if s.Some? {
      var i :| 0 <= i < |env.dir| && env.dir[i].0 == s.value && env.dir[i].1 in EXIT_FILES
               && Lower(s.value) == Lower(name);
      assert ExitFile(env, name, env.dir[i]);
    } else {
      forall file
        ensures !ExitFile(env, name, file)
      {
        if file in env.dir {
          var i :| 0 <= i < |env.dir| && env.dir[i] == file;
        }
      }
    }
  }

  /** An exit file of any kind that is name up to case is spelled like the canonical name. */
  lemma CanonicalSpelling(env: Env, name: string, exts: set<string>)
    requires Spelled(env) && exts <= EXIT_FILES
    ensures var e := Canonical(env, name);
            FirstStem(env.dir, exts, e).None? || FirstStem(env.dir, exts, e) == Some(e)
  {
    hide Lower, FirstStem;
    var e := Canonical(env, name);
    FirstStemSound(env.dir, EXIT_FILES, name);
    FirstStemSound(env.dir, exts, e);
    var s := FirstStem(env.dir, exts, e);
    if s.Some? {
      var i :| 0 <= i < |env.dir| && env.dir[i].0 == s.value && env.dir[i].1 in exts && Lower(s.value) == Lower(e);
    }
  }

  /** A loaded proxy bears the name the rules use. */
  lemma LoadedUnderItsName(env: Env, name: string)
    requires Spelled(env)
    ensures var e := Canonical(env, name); LoadedName(env, e).None? || LoadedName(env, e) == Some(e)
  {
    CanonicalSpelling(env, name, {".yaml"});
    CanonicalSpelling(env, name, {".json"});
    hide Canonical, FirstStem;
  }

  lemma StemListed(env: Env, e: string, ext: string)
    requires Spelled(env) && IsCanonical(env, e) && ext in EXIT_FILES
    ensures FirstStem(env.dir, {ext}, e).Some? <==> (e, ext) in env.dir
    ensures FirstStem(env.dir, {ext}, e).Some? ==> FirstStem(env.dir, {ext}, e) == Some(e)
  {
    var name :| e == Canonical(env, name);
    CanonicalSpelling(env, name, {ext});
    FirstStemSound(env.dir, {ext}, e);
    hide FirstStem, Lower, Canonical;
    if FirstStem(env.dir, {ext}, e).Some? {
      var i :| 0 <= i < |env.dir| && env.dir[i].0 == e && env.dir[i].1 in {ext} && Lower(e) == Lower(e);
      assert env.dir[i] == (e, ext);
    }
  }

  /** An exit that rules use can be loaded iff it has a YAML file that describes a proxy, a JSON file, or a WireGuard
      configuration. */
  lemma ExitLoadsIff(env: Env, e: string)
    requires Spelled(env) && IsCanonical(env, e)
    ensures LoadedName(env, e).Some? <==>
            ((e, ".yaml") in env.dir && env.loads(e)) || (e, ".json") in env.dir || e in env.wg
  {
    StemListed(env, e, ".yaml");
    StemListed(env, e, ".json");
    hide FirstStem, Spelled, IsCanonical;
  }

  /** A file with exactly the name asked for is taken before one in other letters, YAML before JSON, and WireGuard
      last. */
  lemma ExactFileFirst(env: Env, name: string)
    ensures (name, ".yaml") in env.dir && env.loads(name) ==> LoadedName(env, name) == Some(name)
    ensures (name, ".yaml") in env.dir && !env.loads(name) && (name, ".json") in env.dir ==>
              LoadedName(env, name) == Some(name)
    ensures FirstStem(env.dir, {".yaml"}, name).None? && (name, ".json") in env.dir && (name, ".yaml") !in env.dir ==>
              LoadedName(env, name) == Some(name)
    ensures (forall file :: !ExitFile(env, name, file)) ==>
              LoadedName(env, name) == if name in env.wg then Some(name) else None
  {
    FirstStemSound(env.dir, {".yaml"}, name);
    FirstStemSound(env.dir, {".json"}, name);
    hide FirstStem, Lower;
    if forall file :: !ExitFile(env, name, file) {
      forall i | 0 <= i < |env.dir|
        ensures env.dir[i].1 == ".yaml" || env.dir[i].1 == ".json" ==> Lower(env.dir[i].0) != Lower(name)
      {
        assert !ExitFile(env, name, env.dir[i]);
      }
      assert (name, ".yaml") !in env.dir && (name, ".json") !in env.dir;
    }
  }

  /** The proxies loaded for the used exits, in the order the set is walked; None when one cannot be loaded. */
  function LoadExits(env: Env, order: seq<string>): Option<seq<string>> {
    if order == [] then Some([])
    else
      var first, rest := LoadedName(env, order[0]), LoadExits(env, order[1..]);
      if first.None? || rest.None? then None else Some([first.value] + rest.value)
  }

  /** Every exit that compiling uses is a canonical name. */
  ghost predicate AllCanonical(env: Env, used: set<string>) {
    forall e <- used :: IsCanonical(env, e)
  }

  ghost predicate IsCanonical(env: Env, e: string) {
    exists name :: e == Canonical(env, name)
  }

  lemma ResolveCanonical(env: Env, policy: string)
    ensures AllCanonical(env, Use(Resolve(env, policy)))
  {
    hide Strip, Lower, Canonical;
  }

  lemma {:induction false} UsedCanonical(env: Env, lines: seq<string>, c: Config)
    requires AllCanonical(env, c.used) && Compile(env, lines, c).Some?
    ensures AllCanonical(env, Compile(env, lines, c).value.used)
    decreases |lines|
  {
    hide Parse, Resolve, Canonical;
    if lines != [] {
      var p := Parse(lines[0]);
      if p.Rule? {
        ResolveCanonical(env, p.policy);
      } else if p.Final? {
        ResolveCanonical(env, p.choice.GetOr(env.defaultTarget));
      }
      UsedCanonical(env, lines[1..], AddRule(env, c, p));
    }
  }

  lemma {:induction false} LoadKeepsNames(env: Env, order: seq<string>)
    requires Spelled(env) && forall i :: 0 <= i < |order| ==> IsCanonical(env, order[i])
    ensures LoadExits(env, order).Some? ==> LoadExits(env, order).value == order
    decreases |order|
  {
    hide LoadedName, Canonical, Spelled;
    if order != [] {
      var e := order[0];
      assert IsCanonical(env, e);
      var name :| e == Canonical(env, name);
      LoadedUnderItsName(env, name);
      assert forall i :: 0 <= i < |order[1..]| ==> order[1..][i] == order[i + 1];
      LoadKeepsNames(env, order[1..]);
    }
  }

  /** Every target in a compiled configuration is DIRECT, REJECT, or the name of exactly one loaded proxy. */
  lemma TargetsAreLoaded(env: Env, lines: seq<string>, order: seq<string>, k: nat)
    requires Spelled(env) && Compile(env, lines, EMPTY).Some?
    requires var c := Compile(env, lines, EMPTY).value;
             && (forall e :: e in order <==> e in c.used)
             && (forall i, j :: 0 <= i < j < |order| ==> order[i] != order[j])
             && LoadExits(env, order).Some? && k < |c.rules|
    ensures var t, proxies := Compile(env, lines, EMPTY).value.rules[k].target, LoadExits(env, order).value;
            t.Direct? || t.Reject?
            || exists i :: (0 <= i < |proxies| && proxies[i] == t.name)
                           && forall j :: 0 <= j < |proxies| && proxies[j] == t.name ==> j == i
  {
    CompileAppends(env, lines, EMPTY);
    CompileUses(env, lines, EMPTY);
    UsedCanonical(env, lines, EMPTY);
    hide Parse, Compile, CompiledRules, Canonical, Spelled;
    var c := Compile(env, lines, EMPTY).value;
    assert forall i :: 0 <= i < |order| ==> order[i] in c.used;
    LoadKeepsNames(env, order);
    var t := c.rules[k].target;
    assert c.rules[k] in CompiledRules(env, lines);
    if t.Exit? {
      assert t.name in Use(t);
      assert t.name in order;
      var i :| 0 <= i < |order| && order[i] == t.name;
    }
  }
}
