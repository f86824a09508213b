/** From a client's rule list to the router: converted lines read back as the rules they stand for. */
module ImportedRules {
  import opened Bytes
  import opened Text
  import opened RuleText
  import opened RuleImport
  import Router
  import PolicyMap

  function Line(e: Emitted): string {
    e.typ + "," + e.value + "," + e.category
  }

  /** The lines of the converted file. */
  function Lines(rules: seq<Emitted>, final: Option<string>): seq<string> {
    if rules == [] then if final.None? then [] else ["FINAL," + final.value]
    else [Line(rules[0])] + Lines(rules[1..], final)
  }

  /** The matchers that conversion emits are names the router knows as they are. */
  lemma TypeReadsBack(typ: string)
    requires typ in KEEP && typ != "IP-CIDR6"
    ensures Router.KindOf(typ) == typ && (typ in Router.PLAIN || typ == "RULE-SET") && typ != "FINAL"
  {
  }

  lemma TypeIsPlain(typ: string)
    requires typ in KEEP
    ensures Plain(typ) && ',' !in typ && '_' !in typ
  {
  }

  lemma {:induction false} NoDashes(s: string)
    requires '_' !in s
    ensures Router.Dashes(s) == s
  {
    if s != "" {
      NoDashes(s[1..]);
    }
  }

  lemma ParseThree(typ: string, value: string, policy: string)
    requires typ in KEEP && typ != "IP-CIDR6" && Upper(typ) == typ
    ensures Router.ParseFields([typ, value, policy]) == Router.Rule(typ, value, policy)
  {
    TypeReadsBack(typ);
    TypeIsPlain(typ);
    NoDashes(typ);
    hide Plain, Upper, Router.Dashes, Router.KindOf, KEEP, Router.PLAIN;
  }

  lemma StripPlain(fields: seq<string>)
    requires forall i :: 0 <= i < |fields| ==> Stripped(fields[i])
    ensures StripAll(fields) == fields
  {
    StripAllStripped(fields);
  }

  lemma LineLacks(a: string, b: string, c: string)
    requires Plain(a) && Plain(b) && Plain(c)
    ensures '#' !in a + "," + b + "," + c && ';' !in a + "," + b + "," + c
  {
  }

  /** A line of three clean fields. */
  lemma ThreeFields(a: string, b: string, c: string)
    requires Plain(a) && Plain(b) && Plain(c) && ',' !in a && ',' !in b && ',' !in c
    ensures Router.Parse(a + "," + b + "," + c) == Router.ParseFields([a, b, c])
  {
    LineLacks(a, b, c);
    var fields := [a, b, c];
    assert forall i :: 0 <= i < 3 ==> Stripped(fields[i]) && ',' !in fields[i];
    hide Plain, Router.ParseFields, Router.Parse, Stripped, Strip, Split, Join;
    JoinThree(a, b, c);
    SplitJoin(fields, ',');
    PolicyMap.ParseCommaLine(a + "," + b + "," + c);
    StripPlain(fields);
  }

  lemma ReadsBack(e: Emitted)
    requires e.typ in KEEP && e.typ != "IP-CIDR6" && Upper(e.typ) == e.typ && Plain(e.value) && Plain(e.category)
    requires ',' !in e.value && ',' !in e.category
    ensures Router.Parse(Line(e)) == Router.Rule(e.typ, e.value, e.category)
  {
    TypeIsPlain(e.typ);
    hide Upper, KEEP, Router.ParseFields, Router.Parse, Plain;
    ThreeFields(e.typ, e.value, e.category);
    ParseThree(e.typ, e.value, e.category);
  }

  /** The emitted line reads back as the rule it stands for iff value and category are clean. A quoted field of the
      client's list may hold a comma, and a value or category may hold a comment sign. */
  lemma LineReadsBackIff(e: Emitted)
    requires e.typ in KEEP && e.typ != "IP-CIDR6" && Upper(e.typ) == e.typ
    ensures Router.Parse(Line(e)) == Router.Rule(e.typ, e.value, e.category) <==> Clean(e.value) && Clean(e.category)
  {
    hide Line, Upper, KEEP, Router.Parse, Plain;
    PolicyMap.ParsedClean(Line(e));
    if Clean(e.value) && Clean(e.category) {
      ReadsBack(e);
    }
  }

  lemma FinalReadsBack(category: string)
    requires Plain(category) && ',' !in category
    ensures Router.Parse("FINAL," + category) == Router.Final(Some(category))
  {
    hide Router.ParseFields, Router.Parse, Strip, Split;
    var fields := ["FINAL", category];
    JoinTwo("FINAL", category);
    assert "FINAL" + "," + category == "FINAL," + category;
    SplitJoin(fields, ',');
    PolicyMap.ParseCommaLine("FINAL," + category);
    StripPlain(fields);
    FinalFields(category);
  }

  lemma FinalFields(category: string)
    ensures Router.ParseFields(["FINAL", category]) == Router.Final(Some(category))
  {
    Names();
    NoDashes("FINAL");
  }

  predicate ReadableRule(e: Emitted) {
    e.typ in KEEP && e.typ != "IP-CIDR6" && Upper(e.typ) == e.typ && Clean(e.value) && Clean(e.category)
  }

  /** Every emitted text is one the router reads as it is. */
  ghost predicate Readable(rules: seq<Emitted>, final: Option<string>) {
    && (forall e <- rules :: ReadableRule(e)) && (final.Some? ==> Clean(final.value))
  }

  function Resolved(env: Router.Env, category: Option<string>): Option<Router.Target> {
    if category.None? then None else Some(Router.Resolve(env, category.value))
  }

  lemma {:induction false} LinesRouteResolved<R>(m: (string, string, R) -> bool, env: Router.Env, rules: seq<Emitted>,
                                                 final: Option<string>, r: R)
    requires Readable(rules, final)
    ensures Router.LinesRoute(m, env, Lines(rules, final), r) == Resolved(env, Route(m, rules, final, r))
    decreases |rules|
  {
    hide Router.Parse, Router.Resolve, Plain, KEEP, Upper, Line;
    if rules == [] {
      if final.Some? {
        FinalReadsBack(final.value);
      }
    } else {
      assert ReadableRule(rules[0]);
      assert forall e <- rules[1..] :: e in rules;
      LinesRouteResolved(m, env, rules[1..], final, r);
      ReadsBack(rules[0]);
      assert Lines(rules, final)[1..] == Lines(rules[1..], final);
    }
  }

  // ----- End to end -----------------------------------------------------------------

  /** What a client's rule must be like for the router to read its conversion: clean values and categories in what the
      gateway can apply of it. */
  ghost predicate Tidy(cat: string -> string, s: Source) {
    PolicyOf(s).Some? ==>
      var category := cat(PolicyOf(s).value);
      match s
      case Atom(name, value, _, _, _) => TypeOf(name) in KEEP ==> Clean(category) && Clean(Value(value))
      case Or(_, l) => forall m <- l.members :: Applies(m) ==> Clean(category) && Clean(MemberValue(m).value)
      case Final(_, _) => Clean(category)
      case _ => true
  }

  lemma CidrUpper()
    requires Upper("IP-CIDR6") == "IP-CIDR6"
    ensures Upper("IP-CIDR") == "IP-CIDR"
  {
    hide Upper;
    UpperAppend("IP-CIDR", "6");
    assert "IP-CIDR" + "6" == "IP-CIDR6";
    assert Upper("IP-CIDR") == "IP-CIDR6"[..7];
  }

  lemma {:induction false} UpperTwice(s: string)
    ensures Upper(Upper(s)) == Upper(s)
  {
    if s != "" {
      UpperTwice(s[1..]);
    }
  }

  lemma EmitReadable(typ: string, value: string, category: string)
    requires typ in KEEP && Upper(typ) == typ && Clean(value) && Clean(category)
    ensures ReadableRule(Emit(typ, value, category))
  {
    assert "IP-CIDR" in KEEP;
    hide Upper, Clean, KEEP;
    if typ == "IP-CIDR6" {
      CidrUpper();
    }
  }

  lemma MemberReadable(m: Member, category: string, e: Emitted)
    requires Clean(category) && Becomes(m, category, e) && Clean(MemberValue(m).value)
    ensures ReadableRule(e)
  {
    if m.fields != [] {
      UpperTwice(Value(m.fields[0]));
    }
    hide Clean, ReadableRule, KEEP, Upper, Value;
    EmitReadable(MemberType(m), MemberValue(m).value, category);
  }

  /** A tidy rule becomes rules that the router reads as they are. */
  lemma MeaningReadable(cat: string -> string, s: Source)
    requires Tidy(cat, s)
    ensures var e := Meaning(cat, s);
            if e.Emits? then forall x <- e.rules :: ReadableRule(x)
            else e.category.Some? ==> Clean(e.category.value)
  {
    hide Clean, KEEP, Upper, Value, ReadableRule, Strip, KeptMembers, MemberType, MemberValue, Becomes;
    match s
    case Atom(name, value, _, _, _) =>
      UpperTwice(Strip(name));
      if TypeOf(name) in KEEP {
        EmitReadable(TypeOf(name), Value(value), cat(PolicyOf(s).value));
      }
    case Or(_, l) =>
      forall x | x in Meaning(cat, s).rules
        ensures ReadableRule(x)
      {
        OrReadable(cat, s, x);
      }
    case _ =>
  }

  lemma OrReadable(cat: string -> string, s: Source, e: Emitted)
    requires Tidy(cat, s) && s.Or? && e in Meaning(cat, s).rules
    ensures ReadableRule(e)
  {
    hide Clean, KEEP, Upper, Value, ReadableRule, KeptMembers, MemberType, MemberValue;
    var category := cat(PolicyOf(s).value);
    KeptMembersOrigin(s.logic.members, category, e);
    var m :| m in s.logic.members && Becomes(m, category, e);
    MemberReadable(m, category, e);
  }

  lemma {:induction false} ConvertedReadable(cat: string -> string, raws: seq<string>, sources: seq<Source>,
                                             sofar: Conversion)
    requires Rendered(raws, sources) && forall s <- sources :: Tidy(cat, s)
    requires sofar.Converted? && Readable(sofar.rules, sofar.final)
    ensures var c := ConvertAll(cat, raws, sofar); c.Converted? && Readable(c.rules, c.final)
    decreases |raws|
  {
    hide Convert, Reads, Meaning, Tidy, ReadableRule, Clean;
    if raws != [] {
      var s := sources[0];
      assert Reads(raws[0], s);
      ReadIsConverted(cat, s, raws[0]);
      MeaningReadable(cat, s);
      ConvertedReadable(cat, raws[1..], sources[1..], Add(sofar, Convert(cat, raws[0])));
    }
  }

  /** What the converted lines mean to the router: the policy map's target for the category of the first rule of the
      client's list of which the gateway can apply a part that matches. */
  lemma ConvertedRouting<R(!new)>(m: (string, string, R) -> bool, cat: string -> string, raws: seq<string>,
                                  sources: seq<Source>, env: Router.Env, r: R)
    requires Matcher(m) && Rendered(raws, sources) && Settled(sources) && forall s <- sources :: Tidy(cat, s)
    ensures var c := ConvertAll(cat, raws, Converted([], None));
            c.Converted?
            && Router.LinesRoute(m, env, Lines(c.rules, c.final), r) == Resolved(env, KeptRoute(m, cat, sources, r))
  {
    ConvertedReadable(cat, raws, sources, Converted([], None));
    hide ConvertAll, Readable, Rendered, KeptRoute, Settled, Router.LinesRoute, Lines, Resolved, Tidy;
    KeptRouting(m, cat, raws, sources, Converted([], None), r);
    var c := ConvertAll(cat, raws, Converted([], None));
    LinesRouteResolved(m, env, c.rules, c.final, r);
  }

  /** End to end, from the client's list to the compiled router: a request goes where the first matching default rule
      sends it, else to the policy map's target for the category of the first rule of the client's list of which the
      gateway can apply a part that matches. */
  lemma ImportedRouting<R(!new)>(m: (string, string, R) -> bool, cat: string -> string, raws: seq<string>,
                                 sources: seq<Source>, env: Router.Env, default_: seq<string>, r: R)
    requires Matcher(m) && Rendered(raws, sources) && Settled(sources) && forall s <- sources :: Tidy(cat, s)
    requires var c := ConvertAll(cat, raws, Converted([], None));
             c.Converted? ==> Compiles(env, default_ + Lines(c.rules, c.final))
    ensures var c := ConvertAll(cat, raws, Converted([], None));
            c.Converted?
            && (var config := Router.Compile(env, default_ + Lines(c.rules, c.final), Router.EMPTY).value;
                Router.RouterRoute(m, config.providers, config.rules, r) ==
                (var first := Router.LinesRoute(m, env, default_, r);
                 if first.Some? then first else Resolved(env, KeptRoute(m, cat, sources, r))))
  {
    hide ConvertAll, Rendered, KeptRoute, Settled, Router.LinesRoute, Router.RouterRoute, Lines, Resolved, Tidy,
         Router.Compile, Router.TagsDiffer;
    ConvertedRouting(m, cat, raws, sources, env, r);
    var c := ConvertAll(cat, raws, Converted([], None));
    Router.CompiledKeepsFirstMatch(m, env, default_, Lines(c.rules, c.final), r);
  }

  /** The router accepts the lines, and their rule-set sources get different names. */
  ghost predicate Compiles(env: Router.Env, lines: seq<string>) {
    Router.TagsDiffer(env, lines) && Router.Compile(env, lines, Router.EMPTY).Some?
  }
}
