/** The policy map as the router loads it, and renaming a rule group. */
module PolicyMap {
  import opened Bytes
  import opened Text
  import opened RuleText
  import opened PolicyLines
  import opened Router

  // ----- Blanks around fields --------------------------------------------------------

  lemma {:induction false} LeftStripAppend(s: string, c: char)
    requires IsSpace(c)
    ensures LeftStrip(s + [c]) == if LeftStrip(s) == "" then "" else LeftStrip(s) + [c]
  {
    var t := s + [c];
    if s == "" {
      assert t == [c] && [c][1..] == "";
    } else {
      assert t[0] == s[0] && t[1..] == s[1..] + [c];
      if IsSpace(s[0]) {
        LeftStripAppend(s[1..], c);
      }
    }
  }

  lemma RightStripLast(s: string, c: char)
    requires IsSpace(c)
    ensures RightStrip(s + [c]) == RightStrip(s)
  {
    assert (s + [c])[|s|] == c && (s + [c])[..|s|] == s;
  }

  lemma StripAppend(s: string, c: char)
    requires IsSpace(c)
    ensures Strip(s + [c]) == Strip(s) && Strip([c] + s) == Strip(s)
  {
    LeftStripAppend(s, c);
    RightStripLast(LeftStrip(s), c);
    assert ([c] + s)[1..] == s;
    hide RightStrip;
  }

  function AppendLast(fields: seq<string>, c: char): (r: seq<string>)
    requires fields != []
    ensures |r| == |fields|
  {
    if |fields| == 1 then [fields[0] + [c]] else [fields[0]] + AppendLast(fields[1..], c)
  }

  lemma {:induction false} SplitAppend(s: string, sep: char, c: char)
    requires c != sep
    ensures Split(s + [c], sep) == AppendLast(Split(s, sep), c)
    decreases |s|
  {
    var t := s + [c];
    if s == "" {
      assert t == [c] && [c][1..] == "" && [c] + "" == [c] && "" + [c] == [c];
      assert Split("", sep) == [""] && [""][1..] == [];
    } else {
      SplitAppend(s[1..], sep, c);
      assert t[0] == s[0] && t[1..] == s[1..] + [c];
      var rest := Split(s[1..], sep);
      if s[0] == sep {
        assert ([""] + rest)[1..] == rest;
      } else {
        var fields := [[s[0]] + rest[0]] + rest[1..];
        assert fields[1..] == rest[1..];
        var longer := AppendLast(rest, c);
        assert |rest| > 1 ==> longer[1..] == AppendLast(rest[1..], c);
        assert [s[0]] + (rest[0] + [c]) == fields[0] + [c];
        assert Split(t, sep) == [[s[0]] + longer[0]] + longer[1..];
      }
    }
  }

  lemma {:induction false} StripLast(fields: seq<string>, c: char)
    requires fields != [] && IsSpace(c)
    ensures StripAll(AppendLast(fields, c)) == StripAll(fields)
    decreases |fields|
  {
    hide Strip, IsSpace;
    StripAppend(fields[0], c);
    if |fields| > 1 {
      StripLast(fields[1..], c);
      assert AppendLast(fields, c)[1..] == AppendLast(fields[1..], c);
    }
  }

  lemma {:induction false} SplitRight(s: string, sep: char)
    requires !IsSpace(sep)
    ensures StripAll(Split(RightStrip(s), sep)) == StripAll(Split(s, sep))
    decreases |s|
  {
    hide Split, StripAll, Strip;
    if s != "" && IsSpace(s[|s| - 1]) {
      var t, c := s[..|s| - 1], s[|s| - 1];
      SplitRight(t, sep);
      assert s == t + [c];
      SplitAppend(t, sep, c);
      StripLast(Split(t, sep), c);
    }
  }

  lemma {:induction false} SplitLeft(s: string, sep: char)
    requires !IsSpace(sep)
    ensures StripAll(Split(LeftStrip(s), sep)) == StripAll(Split(s, sep))
    decreases |s|
  {
    if s != "" && IsSpace(s[0]) {
      SplitLeft(s[1..], sep);
      var rest := Split(s[1..], sep);
      StripAppend(rest[0], s[0]);
      hide Strip;
      assert Split(s, sep) == [[s[0]] + rest[0]] + rest[1..];
      assert StripAll(Split(s, sep)) == StripAll(rest);
    }
  }

  lemma SplitStrip(s: string)
    ensures StripAll(Split(Strip(s), ',')) == StripAll(Split(s, ','))
  {
    SplitLeft(s, ',');
    SplitRight(LeftStrip(s), ',');
  }

  lemma {:induction false} RightStripAppend(a: string, b: string)
    requires a != "" && !IsSpace(a[|a| - 1])
    ensures RightStrip(a + b) == a + RightStrip(b)
    decreases |b|
  {
    if b == "" {
      assert a + b == a;
    } else {
      assert (a + b)[|a + b| - 1] == b[|b| - 1] && (a + b)[..|a + b| - 1] == a + b[..|b| - 1];
      if IsSpace(b[|b| - 1]) {
        RightStripAppend(a, b[..|b| - 1]);
      }
    }
  }

  // ----- load_policy_map ----------------------------------------------------------------

  /** The entry of a line, if it has one. */
  function LoadEntry(raw: string): Option<(string, string)> {
    var line := Strip(raw);
    if line == "" || line[0] == '#' || '=' !in line then None
    else
      var key := KeyOf(line);
      if |key| < |line| then Some((Strip(key), Strip(line[|key| + 1..]))) else None
  }

  /** A later entry of the same group wins. */
  function Load(lines: Content, m: map<string, string>): map<string, string> {
    if lines == [] then m
    else
      var e := LoadEntry(lines[0]);
      Load(lines[1..], if e.Some? then m[e.value.0 := e.value.1] else m)
  }

  lemma {:induction false} LoadAppend(a: Content, b: Content, m: map<string, string>)
    ensures Load(a + b, m) == Load(b, Load(a, m))
    decreases |a|
  {
    hide LoadEntry;
    if a == [] {
      assert a + b == b;
    } else {
      var e := LoadEntry(a[0]);
      LoadAppend(a[1..], b, if e.Some? then m[e.value.0 := e.value.1] else m);
      assert (a + b)[1..] == a[1..] + b;
    }
  }

  /** The line gives the group a target. */
  predicate LoadsGroup(line: string, group: string) {
    var e := LoadEntry(line);
    e.Some? && e.value.0 == group
  }

  lemma {:induction false} LoadKnows(lines: Content, m: map<string, string>, group: string)
    ensures group in Load(lines, m) <==> group in m || exists line <- lines :: LoadsGroup(line, group)
    decreases |lines|
  {
    hide LoadEntry;
    if lines != [] {
      var e := LoadEntry(lines[0]);
      LoadKnows(lines[1..], if e.Some? then m[e.value.0 := e.value.1] else m, group);
      assert forall line :: line in lines <==> line == lines[0] || line in lines[1..];
      assert LoadsGroup(lines[0], group) ==> exists line <- lines :: LoadsGroup(line, group);
    }
  }

  /** After del_policy the router knows the group no more iff each of its entries was written without blanks. */
  lemma DelTakesEffect(lines: Content, group: string)
    ensures group !in Load(WithoutKey(lines, group), map[]) <==>
            forall line <- lines :: LoadsGroup(line, group) ==> KeyOf(line) == group
  {
    LoadKnows(WithoutKey(lines, group), map[], group);
    forall line
      ensures line in WithoutKey(lines, group) <==> line in lines && KeyOf(line) != group
    {
      OtherEntriesAfterDel(lines, group, line);
    }
    hide LoadEntry, KeyOf, WithoutKey, Load;
  }

  predicate Reserved(low: string) {
    IsDirect(low) || IsReject(low)
  }

  /** A name the router can load from a line of the map. */
  predicate Loadable(g: string) {
    g != "" && Stripped(g) && '=' !in g && g[0] != '#'
  }

  /** A name that needs no quoting anywhere and is not a word of its own. */
  predicate GroupName(g: string) {
    Loadable(g) && Clean(g) && !Reserved(Lower(g))
  }

  lemma {:induction false} StripRight(s: string)
    ensures Strip(RightStrip(s)) == Strip(s)
    decreases |s|
  {
    if s != "" && IsSpace(s[|s| - 1]) {
      var t := s[..|s| - 1];
      StripRight(t);
      assert s == t + [s[|s| - 1]];
      StripAppend(t, s[|s| - 1]);
      hide Strip;
    }
  }

  lemma EntryOf(k: string, rest: string)
    requires Loadable(k)
    ensures LoadEntry(k + "=" + rest) == Some((k, Strip(rest))) && KeyOf(k + "=" + rest) == k
  {
    hide Strip, Split;
    var raw, tail := k + "=" + rest, RightStrip(rest);
    StripRight(rest);
    assert raw == (k + "=") + rest && raw[0] == k[0];
    RightStripAppend(k + "=", rest);
    StripIs(raw, k + "=" + tail);
    SplitFirst(k, '=', rest);
    SplitFirst(k, '=', tail);
    StripStripped(k);
    var line := k + "=" + tail;
    assert line[0] == k[0] && line[|k|] == '=' && line[|k| + 1..] == tail;
  }

  /** The first field of an entry is that of its group. */
  lemma {:induction false} KeyOfEntry(group: string, target: string)
    ensures KeyOf(Entry(group, target)) == KeyOf(group)
  {
    var line := Entry(group, target);
    if group == "" {
      assert line[1..] == target;
    } else {
      KeyOfEntry(group[1..], target);
      assert line[0] == group[0] && line[1..] == Entry(group[1..], target);
    }
  }

  /** The name under which the router files a line of the map. */
  lemma LoadKey(raw: string)
    ensures Strip(KeyOf(Strip(raw))) == Strip(KeyOf(raw))
    ensures LoadEntry(raw).Some? ==> LoadEntry(raw).value.0 == Strip(KeyOf(raw))
  {
    SplitLeft(raw, '=');
    SplitRight(LeftStrip(raw), '=');
    hide Split, LeftStrip, RightStrip;
    assert StripAll(Split(Strip(raw), '='))[0] == StripAll(Split(raw, '='))[0];
  }

  lemma EntryLoadable(raw: string)
    ensures var e := LoadEntry(raw); e.Some? ==> e.value.0 == "" || Loadable(e.value.0)
  {
    var line := Strip(raw);
    if LoadEntry(raw).Some? && Strip(KeyOf(line)) != "" {
      KeyStarts(line);
      StrippedLacks(KeyOf(line), '=');
      hide Split, RightStrip, LeftStrip;
    }
  }

  /** The key of a stripped line starts the line. */
  lemma KeyStarts(line: string)
    requires line != "" && !IsSpace(line[0]) && Strip(KeyOf(line)) != ""
    ensures Strip(KeyOf(line))[0] == line[0]
  {
    var rest := KeyAndRest(line);
    hide Split, RightStrip, RenameEntry;
    assert KeyOf(line) != "" && KeyOf(line)[0] == line[0];
    assert LeftStrip(KeyOf(line)) == KeyOf(line);
  }

  /** For a name that can stand in a rule, an entry is filed under it iff it is the group up to its first `=`. */
  lemma CleanEntryLoads(group: string, target: string, name: string)
    requires Clean(name)
    ensures LoadsGroup(Entry(group, target), name) <==> Strip(KeyOf(group)) == name
  {
    var raw := Entry(group, target);
    var line := Strip(raw);
    LoadKey(raw);
    KeyOfEntry(group, target);
    assert raw[|group|] == '=';
    StripKeeps(raw, '=');
    if line[0] == '#' {
      var rest := KeyAndRest(line);
      assert KeyOf(line)[0] == '#';
      StripKeeps(KeyOf(line), '#');
    }
    KeyShorter(line);
    hide KeyOf, Strip, Stripped;
  }

  lemma {:induction false} KeyShorter(line: string)
    requires '=' in line
    ensures |KeyOf(line)| < |line|
  {
    if line[0] != '=' {
      KeyShorter(line[1..]);
    }
  }

  /** The router files an entry under its group iff it can load the name. */
  lemma EntryLoadsIff(group: string, target: string)
    requires group != ""
    ensures LoadsGroup(Entry(group, target), group) <==> Loadable(group)
    ensures Loadable(group) ==> LoadEntry(Entry(group, target)) == Some((group, Strip(target)))
  {
    EntryLoadable(Entry(group, target));
    hide LoadEntry, Loadable, Strip;
    if Loadable(group) {
      EntryOf(group, target);
    }
  }

  /** After set_policy, whatever is left of the map in front of the new entry, the router sends the group to the
      target iff it can load the name, or did so already. */
  lemma SetTakesEffectIff(rest: Content, group: string, target: string)
    requires group != ""
    ensures var m, m' := Load(rest, map[]), Load(rest + [Entry(group, target)], map[]);
            (group in m' && m'[group] == Strip(target)) <==>
            Loadable(group) || (group in m && m[group] == Strip(target))
  {
    EntryLoadsIff(group, target);
    hide LoadEntry, Strip, Loadable, Entry;
    LoadAppend(rest, [Entry(group, target)], map[]);
  }

  lemma StripIs(s: string, t: string)
    requires s != "" && !IsSpace(s[0]) && RightStrip(s) == t
    ensures Strip(s) == t
  {
  }

  /** A line either lacks the separator or continues after it. */
  lemma KeyAndRest(raw: string) returns (rest: string)
    ensures raw == KeyOf(raw) || raw == KeyOf(raw) + "=" + rest
    ensures raw != KeyOf(raw) ==> forall k :: '=' !in k ==> RenameEntry(raw, KeyOf(raw), k) == k + "=" + rest
    ensures raw == KeyOf(raw) ==> forall k :: RenameEntry(raw, raw, k) == k
  {
    var fields := Split(raw, '=');
    JoinSplit(raw, '=');
    if |fields| > 1 {
      rest := Join(fields[1..], '=');
      forall k: string | '=' !in k
        ensures Join([k] + fields[1..], '=') == k + "=" + rest
      {
        assert ([k] + fields[1..])[1..] == fields[1..];
      }
    } else {
      rest := "";
      assert fields == [raw];
      assert forall k :: [k] + fields[1..] == [k];
    }
  }

  /** Renaming a line of the map renames its entry. */
  lemma EntryRenamed(raw: string, old_: string, new_: string)
    requires Loadable(old_) && Loadable(new_) && KeyOf(raw) == old_
    ensures var e := LoadEntry(raw);
            && (e.Some? ==> e.value.0 == old_)
            && LoadEntry(RenameEntry(raw, old_, new_)) == if e.Some? then Some((new_, e.value.1)) else None
  {
    var rest := KeyAndRest(raw);
    hide RenameEntry, Strip, Lower, Split;
    if raw == old_ {
      StripStripped(old_);
      StripStripped(new_);
    } else {
      EntryOf(old_, rest);
      EntryOf(new_, rest);
    }
  }

  /** Two maps that differ by the name of one group. */
  ghost predicate Renamed(m: map<string, string>, m': map<string, string>, old_: string, new_: string) {
    && new_ !in m && old_ !in m'
    && (old_ in m <==> new_ in m') && (old_ in m ==> m'[new_] == m[old_])
    && (forall k <- m :: k != old_ ==> k in m' && m'[k] == m[k])
    && (forall k <- m' :: k != new_ ==> k in m)
  }

  /** Every entry of the group is spelled without blanks before `=`, and the new name is not taken. */
  ghost predicate MapReady(lines: Content, old_: string, new_: string) {
    forall i :: 0 <= i < |lines| ==>
      var e := LoadEntry(lines[i]);
      e.Some? ==> e.value.0 != new_ && (e.value.0 == old_ ==> KeyOf(lines[i]) == old_)
  }

  lemma {:induction false} LoadRenamed(lines: Content, old_: string, new_: string, m: map<string, string>,
                                       m': map<string, string>)
    requires Loadable(old_) && Loadable(new_) && old_ != new_
    requires MapReady(lines, old_, new_) && Renamed(m, m', old_, new_)
    ensures Renamed(Load(lines, m), Load(RenameEntries(lines, old_, new_), m'), old_, new_)
    decreases |lines|
  {
    hide LoadEntry, RenameEntry, KeyOf, Loadable;
    if lines != [] {
      var raw := lines[0];
      assert KeyOf(raw) == old_ || RenameEntry(raw, old_, new_) == raw by {
        NotRenamed(raw, old_, new_);
      }
      if KeyOf(raw) == old_ {
        EntryRenamed(raw, old_, new_);
      }
      var e, e' := LoadEntry(raw), LoadEntry(RenameEntry(raw, old_, new_));
      var m1 := if e.Some? then m[e.value.0 := e.value.1] else m;
      var m1' := if e'.Some? then m'[e'.value.0 := e'.value.1] else m';
      assert Renamed(m1, m1', old_, new_);
      assert forall i :: 0 <= i < |lines[1..]| ==> lines[1..][i] == lines[i + 1];
      LoadRenamed(lines[1..], old_, new_, m1, m1');
      assert RenameEntries(lines, old_, new_)[1..] == RenameEntries(lines[1..], old_, new_);
    }
  }

  lemma NotRenamed(raw: string, old_: string, new_: string)
    ensures KeyOf(raw) != old_ ==> RenameEntry(raw, old_, new_) == raw
  {
  }

  // ----- Rules ----------------------------------------------------------------------------

  function PolicyOf(p: Parsed): Option<string> {
    if p.Rule? then Some(p.policy) else if p.Final? then p.choice else None
  }

  lemma CodeLacks(raw: string)
    ensures '#' !in Code(raw) && ';' !in Code(raw)
  {
    var first := Split(raw, '#')[0];
    SplitLacks(first, ';', '#');
    hide Split, LeftStrip, RightStrip;
    StrippedLacks(Split(first, ';')[0], '#');
    StrippedLacks(Split(first, ';')[0], ';');
  }

  /** Whatever the line, value and policy of a parsed rule are clean. */
  lemma ParsedClean(raw: string)
    ensures PolicyOf(Parse(raw)).Some? ==> Clean(PolicyOf(Parse(raw)).value)
    ensures Parse(raw).Rule? ==> Clean(Parse(raw).value)
  {
    var line := Code(raw);
    CodeLacks(raw);
    hide Code, Split, Strip, Upper, Dashes, KindOf, PLAIN, Clean;
    if |Split(line, ',')| >= 2 {
      FieldsClean(line, 1);
    }
    if |Split(line, ',')| >= 3 {
      FieldsClean(line, 2);
    }
  }

  function WithPolicy(p: Parsed, old_: string, new_: string): Parsed {
    if p.Rule? && p.policy == old_ then p.(policy := new_)
    else if p.Final? && p.choice == Some(old_) then p.(choice := Some(new_))
    else p
  }

  /** The rule does not use the new name, and uses the old one only as its last field, on a line without a comment;
      and the new name can stand in a rule if it is to. */
  ghost predicate LineReady(line: string, old_: string, new_: string) {
    var fields, policy := Split(line, ','), PolicyOf(Parse(line));
    && policy != Some(new_)
    && if IsComment(line) || Last(fields) != old_ then policy != Some(old_)
       else
         '#' !in line && ';' !in line && |fields| >= 2 && Clean(new_)
         && (policy == Some(old_) ==> |fields| == if Parse(line).Final? then 2 else 3)
  }

  /** On a line without comments the fields tell everything. */
  lemma ParseCommaLine(line: string)
    requires '#' !in line && ';' !in line && |Split(line, ',')| >= 2
    ensures Parse(line) == ParseFields(StripAll(Split(line, ',')))
  {
    SplitFirst(line, '#', "");
    SplitFirst(line, ';', "");
    SplitStrip(line);
    hide Split, Strip, ParseFields;
    assert Code(line) == Strip(line);
    if Strip(line) == "" {
      SplitEmpty();
    }
  }

  lemma SplitEmpty()
    ensures |Split("", ',')| == 1
  {
  }

  lemma {:induction false} JoinLacks(fields: seq<string>, sep: char, c: char)
    requires fields != [] && c != sep && forall i :: 0 <= i < |fields| ==> c !in fields[i]
    ensures c !in Join(fields, sep)
  {
    if |fields| > 1 {
      JoinLacks(fields[1..], sep, c);
    }
  }

  /** Replacing the last field replaces the policy exactly where it is the last field. */
  lemma FieldsRenamed(parts: seq<string>, old_: string, new_: string)
    requires |parts| >= 2 && parts[|parts| - 1] == old_ && old_ != new_
    requires PolicyOf(ParseFields(parts)) == Some(old_) ==> |parts| == if ParseFields(parts).Final? then 2 else 3
    ensures ParseFields(parts[..|parts| - 1] + [new_]) == WithPolicy(ParseFields(parts), old_, new_)
  {
    hide Upper, Dashes, KindOf, PLAIN;
  }

  lemma EditedFields(line: string, new_: string)
    requires '#' !in line && ';' !in line && Clean(new_)
    ensures var fields := Split(line, ',');
            var fields' := fields[..|fields| - 1] + [new_];
            Split(Join(fields', ','), ',') == fields' && '#' !in Join(fields', ',') && ';' !in Join(fields', ',')
  {
    var fields := Split(line, ',');
    var fields' := fields[..|fields| - 1] + [new_];
    SplitLacks(line, ',', '#');
    SplitLacks(line, ',', ';');
    forall i | 0 <= i < |fields'|
      ensures ',' !in fields'[i] && '#' !in fields'[i] && ';' !in fields'[i]
    {
      assert i < |fields| - 1 ==> fields'[i] == fields[i];
    }
    hide Split, Clean, Join;
    SplitJoin(fields', ',');
    JoinLacks(fields', ',', '#');
    JoinLacks(fields', ',', ';');
  }

  lemma LineRenamed(line: string, old_: string, new_: string)
    requires Stripped(old_) && old_ != new_ && LineReady(line, old_, new_)
    ensures Parse(RenameRule(line, old_, new_)) == WithPolicy(Parse(line), old_, new_)
  {
    hide Parse, ParseFields, Strip, IsComment, Stripped, Split, Join;
    var fields := Split(line, ',');
    if !IsComment(line) && Last(fields) == old_ {
      var fields' := fields[..|fields| - 1] + [new_];
      EditedFields(line, new_);
      ParseCommaLine(line);
      ParseCommaLine(Join(fields', ','));
      StripNames(fields, old_, new_);
      FieldsRenamed(StripAll(fields), old_, new_);
    }
  }

  /** A rule line that ends in its policy gets the new name as its policy iff the name has no comma and no comment
      sign. */
  lemma LineRenamedIff(line: string, old_: string, new_: string)
    requires '#' !in line && ';' !in line && !IsComment(line) && Last(Split(line, ',')) == old_ && old_ != new_
    requires PolicyOf(Parse(line)) == Some(old_) && |Split(line, ',')| == if Parse(line).Final? then 2 else 3
    ensures Parse(RenameRule(line, old_, new_)) == WithPolicy(Parse(line), old_, new_) <==> Clean(new_)
  {
    PolicyStripped(line);
    ParsedClean(line);
    ParsedClean(RenameRule(line, old_, new_));
    hide Parse, RenameRule, IsComment, Split, Strip;
    if Clean(new_) {
      LineRenamed(line, old_, new_);
    }
  }

  /** The lines the script passes over are those the router passes over. */
  lemma SameComments(line: string)
    ensures IsComment(line) <==> Parse(line).Blank?
  {
    BlankIff(line);
    hide Parse, LeftStrip;
  }

  predicate PlainChar(c: char) {
    'a' <= c <= 'z' || 'A' <= c <= 'Z' || '0' <= c <= '9' || c == '-' || c == '_'
  }

  /** The check of rename_policy on a new name: letters, digits, `-` and `_`, or any text with a character beyond
      ASCII. */
  predicate Accepted(name: string) {
    && name != ""
    && ((forall i :: 0 <= i < |name| ==> PlainChar(name[i])) || exists i :: 0 <= i < |name| && name[i] > '\U{007f}')
  }

  /** A character of code 128 or above, or none but those of the codes 48 to 57, 65 to 90, 97 to 122, 45 and 95. */
  lemma AcceptedIff(name: string)
    ensures Accepted(name) <==>
              name != "" && ((exists c <- name :: c as int >= 0x80) || forall c <- name :: PlainCode(c))
  {
    if forall c <- name :: PlainCode(c) {
      assert forall i :: 0 <= i < |name| ==> PlainCode(name[i]) && PlainChar(name[i]);
    } else {
      var c :| c in name && !PlainCode(c);
      var i :| 0 <= i < |name| && name[i] == c;
      assert !PlainChar(name[i]);
    }
    if i :| 0 <= i < |name| && name[i] > '\U{007f}' {
      assert name[i] in name && name[i] as int >= 0x80;
    }
    if c :| c in name && c as int >= 0x80 {
      var i :| 0 <= i < |name| && name[i] == c;
      assert name[i] > '\U{007f}';
    }
  }

  predicate PlainCode(c: char) {
    48 <= c as int <= 57 || 65 <= c as int <= 90 || 97 <= c as int <= 122 || c as int == 45 || c as int == 95
  }

  /** The first kind of names is safe, but for the router's own words. */
  lemma PlainNameFits(name: string)
    requires name != "" && forall i :: 0 <= i < |name| ==> PlainChar(name[i])
    ensures GroupName(name) <==> !Reserved(Lower(name))
  {
    hide Lower, Reserved, PlainChar;
    forall c | c in name
      ensures c != ',' && c != '=' && c != '#' && c != ';' && !IsSpace(c)
    {
      PlainCharFits(c);
    }
    assert name[0] in name && name[|name| - 1] in name;
  }

  lemma PlainCharFits(c: char)
    requires PlainChar(c)
    ensures c != ',' && c != '=' && c != '#' && c != ';' && !IsSpace(c)
  {
  }

  /** The second kind is not: with a comma in the new name, rules get what stands in front of the comma. */
  lemma CommaNameMisread(typ: string, value: string, old_: string, a: string, b: string)
    requires Clean(typ) && Clean(value) && Clean(old_) && Clean(a) && Clean(b)
    requires !IsComment(typ + "," + value + "," + old_)
    requires ParseFields([typ, value, old_]).Rule?
    ensures var line, new_ := typ + "," + value + "," + old_, a + "," + b;
            Parse(RenameRule(line, old_, new_)) == ParseFields([typ, value, old_]).(policy := a)
  {
    hide IsComment, Parse, ParseFields, Split, Join, Stripped;
    var line, new_ := typ + "," + value + "," + old_, a + "," + b;
    JoinThree(typ, value, old_);
    SplitJoin([typ, value, old_], ',');
    JoinThree(typ, value, new_);
    assert [typ, value, old_][..2] + [new_] == [typ, value, new_];
    assert RenameRule(line, old_, new_) == Join([typ, value, new_], ',');
    var parts := [typ, value, a, b];
    JoinFour(typ, value, a, b);
    SplitJoin(parts, ',');
    JoinLacks(parts, ',', '#');
    JoinLacks(parts, ',', ';');
    ParseCommaLine(Join(parts, ','));
    StripAllStripped(parts);
    FourFields(typ, value, old_, a, b);
  }

  /** Such a name passes the check; and what stands in front of the comma, when it is no group, is an exit. */
  lemma CommaNameMisroutes(env: Env, a: string)
    requires Clean(a) && !Reserved(Lower(a)) && a !in env.policies
    ensures Accepted("é,x") && Resolve(env, a) == Exit(Canonical(env, a))
  {
    assert "é,x"[0] > '\U{007f}';
    StripStripped(a);
    hide Strip, Lower, Canonical;
  }

  lemma FourFields(typ: string, value: string, old_: string, a: string, b: string)
    requires ParseFields([typ, value, old_]).Rule?
    ensures ParseFields([typ, value, a, b]) == ParseFields([typ, value, old_]).(policy := a)
  {
    hide Upper, Dashes, KindOf, PLAIN;
    var three, four := [typ, value, old_], [typ, value, a, b];
    assert three[0] == four[0] && |three| == 3 && |four| == 4;
    assert ParseFields(three) == Rule(KindOf(Dashes(Upper(typ))), value, old_);
  }

  lemma JoinFour(a: string, b: string, c: string, d: string)
    ensures Join([a, b, c, d], ',') == a + "," + b + "," + (c + "," + d)
  {
    assert [a, b, c, d][1..] == [b, c, d];
    JoinThree(b, c, d);
    hide Join;
    Regroup(a, b, c, d);
  }

  lemma Regroup(a: string, b: string, c: string, d: string)
    ensures a + [','] + (b + "," + c + "," + d) == a + "," + b + "," + (c + "," + d)
  {
  }

  lemma StripNames(fields: seq<string>, old_: string, new_: string)
    requires fields != [] && Last(fields) == old_ && Stripped(old_) && Stripped(new_)
    ensures Last(StripAll(fields)) == old_
    ensures StripAll(fields[..|fields| - 1] + [new_]) == StripAll(fields)[..|fields| - 1] + [new_]
  {
    StripStripped(old_);
    StripStripped(new_);
    hide Strip, Stripped;
    var n := |fields| - 1;
    assert fields == fields[..n] + [old_];
    StripAllSnoc(fields[..n], old_);
    StripAllSnoc(fields[..n], new_);
  }

  lemma {:induction false} StripAllSnoc(a: seq<string>, b: string)
    ensures StripAll(a + [b]) == StripAll(a) + [Strip(b)]
    decreases |a|
  {
    hide Strip;
    if a == [] {
      assert a + [b] == [b];
    } else {
      StripAllSnoc(a[1..], b);
      assert (a + [b])[1..] == a[1..] + [b];
    }
  }

  /** Not a word of the router's own. */
  predicate Free(g: string) {
    Stripped(g) && !Reserved(Lower(g))
  }

  /** The renamed policy resolves in the renamed map to what the old one resolved to in the old map. */
  lemma ResolveRenamed(env: Env, policies': map<string, string>, old_: string, new_: string, policy: string)
    requires Free(old_) && Free(new_) && old_ != new_ && Renamed(env.policies, policies', old_, new_)
    requires old_ in env.policies && Strip(policy) == policy && policy != new_
    ensures Resolve(env.(policies := policies'), if policy == old_ then new_ else policy) == Resolve(env, policy)
  {
    StripStripped(old_);
    StripStripped(new_);
    var env' := env.(policies := policies');
    forall name
      ensures Canonical(env', name) == Canonical(env, name)
    {
    }
    hide Strip, Lower, Canonical, Stripped, IsDirect, IsReject;
    if policy == old_ {
      assert Resolve(env', new_) == Resolve(env, old_);
    }
  }

  /** A rule that goes on using the old name keeps its target iff the group was mapped to the exit of its own name, or
      the name is a word of the router's own. */
  lemma OldNameKeepsTargetIff(env: Env, policies': map<string, string>, old_: string, new_: string)
    requires Stripped(old_) && Renamed(env.policies, policies', old_, new_)
    ensures Resolve(env.(policies := policies'), old_) == Resolve(env, old_) <==>
            Reserved(Lower(old_)) || Resolve(env, old_) == Exit(Canonical(env, old_))
  {
    StripStripped(old_);
    var env' := env.(policies := policies');
    assert Canonical(env', old_) == Canonical(env, old_);
    hide Strip, Lower, Canonical, Stripped, IsDirect, IsReject;
    assert Reserved(Lower(old_)) || Resolve(env', old_) == Exit(Canonical(env', old_));
  }

  lemma StripTwice(s: string)
    ensures Strip(Strip(s)) == Strip(s)
  {
    StripStripped(Strip(s));
  }

  lemma PolicyStripped(line: string)
    ensures PolicyOf(Parse(line)).Some? ==> Strip(PolicyOf(Parse(line)).value) == PolicyOf(Parse(line)).value
  {
    hide Code, Strip, Split, Upper, Dashes, KindOf, PLAIN;
    PartsStripped(Split(Code(line), ','));
  }

  lemma PartsStripped(fields: seq<string>)
    ensures forall i :: 0 <= i < |fields| ==> Strip(StripAll(fields)[i]) == StripAll(fields)[i]
  {
    hide Strip, StripAll;
    forall i | 0 <= i < |fields|
      ensures Strip(StripAll(fields)[i]) == StripAll(fields)[i]
    {
      StripTwice(fields[i]);
    }
  }

  lemma AddRenamed(env: Env, policies': map<string, string>, old_: string, new_: string, line: string, c: Config)
    requires Free(old_) && Free(new_) && old_ != new_ && Renamed(env.policies, policies', old_, new_)
    requires old_ in env.policies && Strip(env.defaultTarget) == env.defaultTarget
    requires env.defaultTarget != old_ && env.defaultTarget != new_
    requires PolicyOf(Parse(line)) != Some(new_)
    ensures var env', p := env.(policies := policies'), Parse(line);
            var p' := WithPolicy(p, old_, new_);
            Dies(env', p') == Dies(env, p) && AddRule(env', c, p') == AddRule(env, c, p)
  {
    hide Parse, Resolve, Free, Renamed, Strip;
    PolicyStripped(line);
    var p := Parse(line);
    if p.Rule? {
      ResolveRenamed(env, policies', old_, new_, p.policy);
    } else if p.Final? {
      ResolveRenamed(env, policies', old_, new_, p.choice.GetOr(env.defaultTarget));
    }
  }

  /** The lines after the renaming: default lines stay, the user's are edited. */
  ghost predicate LinesReady(lines: seq<string>, lines': seq<string>, old_: string, new_: string) {
    && |lines| == |lines'|
    && forall i :: 0 <= i < |lines| ==>
         PolicyOf(Parse(lines[i])) != Some(new_) && Parse(lines'[i]) == WithPolicy(Parse(lines[i]), old_, new_)
  }

  lemma {:induction false} CompileRenamed(env: Env, policies': map<string, string>, old_: string, new_: string,
                                          lines: seq<string>, lines': seq<string>, c: Config)
    requires Free(old_) && Free(new_) && old_ != new_ && Renamed(env.policies, policies', old_, new_)
    requires old_ in env.policies && Strip(env.defaultTarget) == env.defaultTarget
    requires env.defaultTarget != old_ && env.defaultTarget != new_
    requires LinesReady(lines, lines', old_, new_)
    ensures Compile(env.(policies := policies'), lines', c) == Compile(env, lines, c)
    decreases |lines|
  {
    hide Parse, Dies, AddRule, Free, Renamed, Strip, WithPolicy;
    if lines != [] {
      AddRenamed(env, policies', old_, new_, lines[0], c);
      assert forall i :: 0 <= i < |lines[1..]| ==> lines[1..][i] == lines[i + 1] && lines'[1..][i] == lines'[i + 1];
      CompileRenamed(env, policies', old_, new_, lines[1..], lines'[1..], AddRule(env, c, Parse(lines[0])));
    }
  }

  ghost predicate UsesNeither(lines: seq<string>, old_: string, new_: string) {
    forall i :: 0 <= i < |lines| ==> PolicyOf(Parse(lines[i])) != Some(old_) && PolicyOf(Parse(lines[i])) != Some(new_)
  }

  ghost predicate UserReady(lines: seq<string>, old_: string, new_: string) {
    forall i :: 0 <= i < |lines| ==> LineReady(lines[i], old_, new_)
  }

  lemma {:induction false} LoadedLoadable(lines: Content, m: map<string, string>)
    requires forall k <- m :: k == "" || Loadable(k)
    ensures forall k <- Load(lines, m) :: k == "" || Loadable(k)
    decreases |lines|
  {
    hide LoadEntry, Loadable;
    if lines != [] {
      var e := LoadEntry(lines[0]);
      EntryLoadable(lines[0]);
      LoadedLoadable(lines[1..], if e.Some? then m[e.value.0 := e.value.1] else m);
    }
  }

  /** Renaming a group of the map to a free name, in the map and in the user's rules, leaves the whole router
      configuration as it was, so the target of every request; provided the default rules use neither name. */
  lemma RenameKeepsRouting(env: Env, mapLines: Content, default_: seq<string>, user: seq<string>, old_: string,
                           new_: string)
    requires env.policies == Load(mapLines, map[]) && old_ in env.policies && old_ != ""
    requires Loadable(new_) && !Reserved(Lower(new_)) && !Reserved(Lower(old_))
    requires old_ != new_ && MapReady(mapLines, old_, new_)
    requires Strip(env.defaultTarget) == env.defaultTarget && env.defaultTarget != old_ && env.defaultTarget != new_
    requires UsesNeither(default_, old_, new_) && UserReady(user, old_, new_)
    ensures var env' := env.(policies := Load(RenameEntries(mapLines, old_, new_), map[]));
            Compile(env', default_ + RenameRules(user, old_, new_), EMPTY) == Compile(env, default_ + user, EMPTY)
  {
    var user' := RenameRules(user, old_, new_);
    assert Renamed(map[], map[], old_, new_);
    LoadedLoadable(mapLines, map[]);
    LoadRenamed(mapLines, old_, new_, map[], map[]);
    EditedReady(default_, user, old_, new_);
    hide Lower, Stripped, Renamed, Strip, MapReady, Load, UsesNeither, UserReady, RenameRules, LinesReady, Compile,
         Reserved;
    var renamed := Load(RenameEntries(mapLines, old_, new_), map[]);
    CompileRenamed(env, renamed, old_, new_, default_ + user, default_ + user', EMPTY);
  }

  lemma EditedReady(default_: seq<string>, user: seq<string>, old_: string, new_: string)
    requires Stripped(old_) && old_ != new_
    requires UsesNeither(default_, old_, new_) && UserReady(user, old_, new_)
    ensures LinesReady(default_ + user, default_ + RenameRules(user, old_, new_), old_, new_)
  {
    hide Parse, Stripped, RenameRule;
    var lines, lines' := default_ + user, default_ + RenameRules(user, old_, new_);
    forall i | 0 <= i < |lines|
      ensures PolicyOf(Parse(lines[i])) != Some(new_)
      ensures Parse(lines'[i]) == WithPolicy(Parse(lines[i]), old_, new_)
    {
      if i < |default_| {
        assert lines[i] == lines'[i] == default_[i];
      } else {
        var line := user[i - |default_|];
        assert LineReady(line, old_, new_) && lines'[i] == RenameRule(line, old_, new_);
        LineRenamed(line, old_, new_);
      }
    }
  }
}
