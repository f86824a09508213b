/** init_policy_map: one entry for every rule group that the rules use. */
module GroupMap {
  import opened Bytes
  import opened Text
  import opened RuleText
  import opened PolicyLines
  import opened Router
  import opened PolicyMap

  /** The words init_policy_map passes over; reject-drop, which the router knows too, is not among them. */
  predicate Skipped(group: string) {
    var low := Lower(group);
    group == "" || low == "direct" || low == "dir" || low == "block" || low == "reject" || low == "direct-out"
  }

  /** A name that asks to be blocked. */
  predicate Unwanted(group: string) {
    var low := Lower(group);
    Contains(low, "reject") || Contains(low, "advert") || Contains(low, "hijack") || Contains(low, "privacy")
    || Contains(low, "广告")
  }

  /** awk's $2 with -F= */
  function SecondField(line: string): string {
    var fields := Split(line, '=');
    if |fields| > 1 then fields[1] else ""
  }

  /** The target of the first line of a group. */
  function Existing(lines: Content, group: string): string {
    if lines == [] then ""
    else if KeyOf(lines[0]) == group then SecondField(lines[0])
    else Existing(lines[1..], group)
  }

  function TargetFor(lines: Content, group: string, fallback: string): string {
    var existing := Existing(lines, group);
    if existing != "" then existing else if Unwanted(group) then "block" else fallback
  }

  /** The entries for the groups, before they are sorted. */
  function Build(groups: seq<string>, lines: Content, fallback: string): Content {
    if groups == [] then []
    else (if Skipped(groups[0]) then [] else [Entry(groups[0], TargetFor(lines, groups[0], fallback))])
         + Build(groups[1..], lines, fallback)
  }

  function LastField(rule: string): string {
    Last(Split(rule, ','))
  }

  /** A rule line whose last field is g. */
  predicate Uses(rules: seq<string>, i: nat, g: string) {
    i < |rules| && !IsComment(rules[i]) && LastField(rules[i]) == g
  }

  /** The last fields of the rules, each once: the output of `sort -u`. */
  ghost predicate GroupsOf(groups: seq<string>, rules: seq<string>) {
    && (forall g :: g in groups <==> exists i: nat :: Uses(rules, i, g))
    && (forall i, j :: 0 <= i < j < |groups| ==> groups[i] != groups[j])
  }

  lemma BuildStep(groups: seq<string>, i: nat, lines: Content, fallback: string, tmp: Content)
    requires i < |groups|
    ensures var rest := Build(groups[i + 1..], lines, fallback);
            var entry := Entry(groups[i], TargetFor(lines, groups[i], fallback));
            tmp + Build(groups[i..], lines, fallback) == if Skipped(groups[i]) then tmp + rest else tmp + [entry] + rest
  {
    hide Skipped, TargetFor, Entry;
    assert groups[i..][1..] == groups[i + 1..];
  }

  method InitPolicyMap(groups: seq<string>, lines: Content, fallback: string) returns (tmp: Content)
    ensures tmp == Build(groups, lines, fallback)
  {
    tmp := [];
    assert groups[0..] == groups && groups[|groups|..] == [] && Build([], lines, fallback) == [];
    hide *;
    for i := 0 to |groups|
      invariant Build(groups, lines, fallback) == tmp + Build(groups[i..], lines, fallback)
    {
      BuildStep(groups, i, lines, fallback, tmp);
      if !Skipped(groups[i]) {
        tmp := tmp + [Entry(groups[i], TargetFor(lines, groups[i], fallback))];
      }
    }
  }

  // ----- What the map contains ------------------------------------------------------------

  lemma {:induction false} BuildMember(groups: seq<string>, lines: Content, fallback: string, line: string)
    ensures line in Build(groups, lines, fallback) <==>
            exists g <- groups :: !Skipped(g) && line == Entry(g, TargetFor(lines, g, fallback))
  {
    hide Skipped, TargetFor, Entry;
    if groups != [] {
      BuildMember(groups[1..], lines, fallback, line);
      assert forall g :: g in groups <==> g == groups[0] || g in groups[1..];
    }
  }

  /** The target of last resort is there and reads back from the map. */
  predicate Usable(fallback: string) {
    fallback != "" && '=' !in fallback && Stripped(fallback)
  }

  /** The group has no `=`, and no other last field reads as the group up to its first `=`. */
  ghost predicate Lone(rules: seq<string>, g: string) {
    '=' !in g && forall h, i: nat :: Uses(rules, i, h) && KeyOf(h) == g ==> h == g
  }

  lemma {:induction false} ExistingClean(lines: Content, group: string)
    ensures '=' !in Existing(lines, group)
  {
    if lines != [] && KeyOf(lines[0]) != group {
      ExistingClean(lines[1..], group);
    }
  }

  lemma EntryFields(group: string, target: string)
    requires '=' !in group && '=' !in target
    ensures KeyOf(Entry(group, target)) == group && SecondField(Entry(group, target)) == target
  {
    SplitFirst(group, '=', target);
    SplitFirst(target, '=', "");
  }

  lemma TargetClean(lines: Content, group: string, fallback: string)
    requires Usable(fallback)
    ensures TargetFor(lines, group, fallback) != "" && '=' !in TargetFor(lines, group, fallback)
  {
    ExistingClean(lines, group);
    hide Existing, Unwanted;
  }

  lemma {:induction false} ExistingNone(lines: Content, group: string)
    requires '=' in group
    ensures Existing(lines, group) == ""
  {
    if lines != [] {
      ExistingNone(lines[1..], group);
    }
  }

  /** Every group that a rule of the default or the user's rules ends in, and that is not skipped, has its entry, with
      the target that is found for it, and no entry with another target; if its name has no `=`, and no other group
      reads as it up to the first `=`, no other line of the map is for it. */
  lemma OneEntryPerGroup(groups: seq<string>, default_: seq<string>, user: seq<string>, i: nat, g: string,
                         lines: Content, fallback: string)
    requires GroupsOf(groups, default_ + user) && Uses(default_ + user, i, g) && !Skipped(g) && Usable(fallback)
    ensures var target, out := TargetFor(lines, g, fallback), Build(groups, lines, fallback);
            && Entry(g, target) in out
            && (forall t :: '=' !in t && Entry(g, t) in out ==> t == target)
            && (Lone(default_ + user, g) ==> forall line <- out :: KeyOf(line) == g ==> line == Entry(g, target))
            && (Existing(lines, g) != "" ==> target == Existing(lines, g))
  {
    assert g in groups;
    var target, out := TargetFor(lines, g, fallback), Build(groups, lines, fallback);
    hide Skipped, TargetFor, Entry, KeyOf, Build, Uses, Lone, GroupsOf, Usable;
    BuildMember(groups, lines, fallback, Entry(g, target));
    forall t | '=' !in t && Entry(g, t) in out
      ensures t == target
    {
      BuildMember(groups, lines, fallback, Entry(g, t));
      var h :| h in groups && !Skipped(h) && Entry(g, t) == Entry(h, TargetFor(lines, h, fallback));
      TargetClean(lines, h, fallback);
      EntriesDiffer(g, t, h, TargetFor(lines, h, fallback));
      SameEntry(g, t, target);
    }
    if Lone(default_ + user, g) {
      EntryOfGroup(groups, default_ + user, g, lines, fallback);
    }
    KeepsExisting(lines, g, fallback);
  }

  lemma SameEntry(g: string, t: string, u: string)
    ensures Entry(g, t) == Entry(g, u) ==> t == u
  {
    assert Entry(g, t)[|g| + 1..] == t && Entry(g, u)[|g| + 1..] == u;
  }

  /** A target that the map holds, and that the group would not get anyway, is kept iff the name has no `=`. */
  lemma KeepsTargetIff(lines: Content, g: string, t: string, fallback: string)
    requires Entry(g, t) in lines && forall line <- lines :: KeyOf(line) == g ==> line == Entry(g, t)
    requires t != "" && '=' !in t && t != if Unwanted(g) then "block" else fallback
    ensures TargetFor(lines, g, fallback) == t <==> '=' !in g
  {
    if '=' in g {
      ExistingNone(lines, g);
    } else {
      EntryFields(g, t);
      ExistingUnique(lines, g, Entry(g, t));
    }
    hide Unwanted, Existing, KeyOf, Entry;
  }

  lemma EntryOfGroup(groups: seq<string>, rules: seq<string>, g: string, lines: Content, fallback: string)
    requires GroupsOf(groups, rules) && g in groups && !Skipped(g) && Lone(rules, g)
    ensures var target, out := TargetFor(lines, g, fallback), Build(groups, lines, fallback);
            Entry(g, target) in out && forall line <- out :: KeyOf(line) == g ==> line == Entry(g, target)
  {
    hide Skipped, TargetFor, Entry, KeyOf, Build, Uses;
    var out := Build(groups, lines, fallback);
    BuildMember(groups, lines, fallback, Entry(g, TargetFor(lines, g, fallback)));
    forall line | line in out && KeyOf(line) == g
      ensures line == Entry(g, TargetFor(lines, g, fallback))
    {
      BuildMember(groups, lines, fallback, line);
      var h :| h in groups && !Skipped(h) && line == Entry(h, TargetFor(lines, h, fallback));
      KeyOfEntry(h, TargetFor(lines, h, fallback));
      var i: nat :| Uses(rules, i, h);
    }
  }

  lemma KeepsExisting(lines: Content, g: string, fallback: string)
    ensures Existing(lines, g) != "" ==> TargetFor(lines, g, fallback) == Existing(lines, g)
  {
  }

  lemma NoLaterEquals(group: string, target: string)
    requires '=' !in target
    ensures forall k :: |group| < k < |Entry(group, target)| ==> Entry(group, target)[k] != '='
  {
    var line := Entry(group, target);
    forall k | |group| < k < |line|
      ensures line[k] != '='
    {
      assert line[k] == target[k - |group| - 1];
    }
  }

  /** An entry tells its group: the part in front of its last `=`. */
  lemma EntriesDiffer(g: string, t: string, h: string, u: string)
    requires Entry(g, t) == Entry(h, u) && '=' !in t && '=' !in u
    ensures g == h
  {
    var line := Entry(g, t);
    assert line[|g|] == '=' && line[|h|] == '=';
    NoLaterEquals(g, t);
    NoLaterEquals(h, u);
    assert line[..|g|] == g && line[..|h|] == h;
  }

  lemma {:induction false} BuildApart(groups: seq<string>, lines: Content, fallback: string)
    requires Usable(fallback) && forall i, j :: 0 <= i < j < |groups| ==> groups[i] != groups[j]
    ensures var out := Build(groups, lines, fallback); forall i, j :: 0 <= i < j < |out| ==> out[i] != out[j]
  {
    hide Skipped, TargetFor, Entry, Usable;
    if groups != [] {
      var g, rest := groups[0], Build(groups[1..], lines, fallback);
      BuildApart(groups[1..], lines, fallback);
      var line := Entry(g, TargetFor(lines, g, fallback));
      BuildMember(groups[1..], lines, fallback, line);
      if line in rest {
        var h :| h in groups[1..] && line == Entry(h, TargetFor(lines, h, fallback));
        TargetClean(lines, g, fallback);
        TargetClean(lines, h, fallback);
        EntriesDiffer(g, TargetFor(lines, g, fallback), h, TargetFor(lines, h, fallback));
      }
      assert line !in rest;
      assert forall i :: 0 <= i < |rest| ==> rest[i] in rest;
    }
  }

  const BLOCKING: set<string> := {"reject", "advert", "hijack", "privacy", "广告"}

  /** A group without a target in the map is blocked if its name, in small letters, has one of five words in it, and
      gets the target of last resort if not. */
  lemma NewGroupTarget(lines: Content, g: string, fallback: string)
    requires Existing(lines, g) == ""
    ensures TargetFor(lines, g, fallback) ==
            if exists word <- BLOCKING :: Contains(Lower(g), word) then "block" else fallback
  {
    hide Contains, Existing;
    var low := Lower(g);
    if Unwanted(g) {
      var word := if Contains(low, "reject") then "reject" else if Contains(low, "advert") then "advert"
                  else if Contains(low, "hijack") then "hijack" else if Contains(low, "privacy") then "privacy"
                  else "广告";
      assert word in BLOCKING && Contains(low, word);
    } else {
      forall word | word in BLOCKING
        ensures !Contains(low, word)
      {
        assert word == "reject" || word == "advert" || word == "hijack" || word == "privacy" || word == "广告";
      }
    }
  }

  const WORDS: set<string> := {"direct", "dir", "block", "reject", "direct-out"}

  /** The entries in order: one for every group but the empty one and five words in any letter case. */
  lemma {:induction false} EntriesInOrder(groups: seq<string>, lines: Content, fallback: string)
    ensures Build(groups, lines, fallback) ==
            Map(Filter(groups, g => g != "" && Lower(g) !in WORDS), g => g + "=" + TargetFor(lines, g, fallback))
  {
    hide Lower, TargetFor;
    if groups != [] {
      EntriesInOrder(groups[1..], lines, fallback);
    }
  }

  lemma KeyIff(line: string, g: string)
    requires '=' !in g
    ensures KeyOf(line) == g <==> line == g || g + "=" <= line
  {
    JoinSplit(line, '=');
    SplitFirst(g, '=', "");
    if g + "=" <= line {
      assert line == g + ['='] + line[|g| + 1..];
      SplitFirst(g, '=', line[|g| + 1..]);
    }
    hide Split;
  }

  lemma {:induction false} ExistingFirst(front: Content, g: string, line: string, more: Content)
    requires (forall l <- front :: KeyOf(l) != g) && KeyOf(line) == g
    ensures Existing(front, g) == "" && Existing(front + [line] + more, g) == SecondField(line)
    decreases |front|
  {
    hide KeyOf, SecondField;
    if front == [] {
      assert (front + [line] + more)[0] == line;
    } else {
      ExistingFirst(front[1..], g, line, more);
      assert (front + [line] + more)[1..] == front[1..] + [line] + more;
    }
  }

  lemma LineFields(g: string, t: string, rest: string)
    requires '=' !in g && '=' !in t
    ensures KeyOf(g) == g && SecondField(g) == ""
    ensures KeyOf(g + "=" + t) == g && SecondField(g + "=" + t) == t
    ensures KeyOf(g + "=" + t + "=" + rest) == g && SecondField(g + "=" + t + "=" + rest) == t
  {
    SplitFirst(g, '=', t);
    SplitFirst(g, '=', t + "=" + rest);
    SplitFirst(t, '=', rest);
    hide Split;
    assert g + "=" + t + "=" + rest == g + ['='] + (t + "=" + rest);
  }

  /** The first line for a group counts: its target is what stands between the first `=` and the next. */
  lemma FirstLineCounts(front: Content, g: string, more: Content, t: string, rest: string)
    requires '=' !in g && '=' !in t
    requires forall line <- front :: line != g && !(g + "=" <= line)
    ensures Existing(front, g) == "" && Existing(front + [g] + more, g) == ""
    ensures Existing(front + [g + "=" + t] + more, g) == t
    ensures Existing(front + [g + "=" + t + "=" + rest] + more, g) == t
  {
    forall line | line in front
      ensures KeyOf(line) != g
    {
      KeyIff(line, g);
    }
    LineFields(g, t, rest);
    hide KeyOf, SecondField, Existing;
    ExistingFirst(front, g, g, more);
    ExistingFirst(front, g, g + "=" + t, more);
    ExistingFirst(front, g, g + "=" + t + "=" + rest, more);
  }

  /** No line occurs twice, so the sorted file has one line for each group of the rules. */
  lemma BuildDistinct(groups: seq<string>, default_: seq<string>, user: seq<string>, lines: Content, fallback: string)
    requires GroupsOf(groups, default_ + user) && Usable(fallback)
    ensures var out := Build(groups, lines, fallback); forall i, j :: 0 <= i < j < |out| ==> out[i] != out[j]
  {
    hide Uses, Usable;
    BuildApart(groups, lines, fallback);
  }

  // ----- Rebuilding ---------------------------------------------------------------------------

  lemma {:induction false} ExistingUnique(lines: Content, group: string, entry: string)
    requires entry in lines && KeyOf(entry) == group
    requires forall line <- lines :: KeyOf(line) == group ==> line == entry
    ensures Existing(lines, group) == SecondField(entry)
  {
    hide KeyOf, SecondField;
    if KeyOf(lines[0]) != group {
      assert forall line <- lines[1..] :: line in lines;
      ExistingUnique(lines[1..], group, entry);
    }
  }

  /** The sorted file: the same lines in some order. */
  ghost predicate SameLines(a: Content, b: Content) {
    forall line :: line in a <==> line in b
  }

  /** Rebuilding from the sorted output finds the target of a group again, whatever exits there are by then. */
  lemma SameTarget(groups: seq<string>, rules: seq<string>, lines: Content, fallback: string, sorted: Content,
                   fallback': string, g: string)
    requires GroupsOf(groups, rules) && SameLines(sorted, Build(groups, lines, fallback)) && g in groups && !Skipped(g)
    requires Lone(rules, g) && Usable(fallback)
    ensures TargetFor(sorted, g, fallback') == TargetFor(lines, g, fallback)
  {
    hide Skipped, Entry, KeyOf, TargetFor, Build, SecondField, GroupsOf;
    var target := TargetFor(lines, g, fallback);
    EntryOfGroup(groups, rules, g, lines, fallback);
    TargetClean(lines, g, fallback);
    EntryFields(g, target);
    ExistingUnique(sorted, g, Entry(g, target));
    KeepsExisting(sorted, g, fallback');
  }

  /** Two maps for the same groups are equal iff the targets are. */
  lemma {:induction false} BuildEqualIff(groups: seq<string>, a: Content, x: string, b: Content, y: string)
    ensures Build(groups, a, x) == Build(groups, b, y) <==>
            forall g <- groups :: !Skipped(g) ==> TargetFor(a, g, x) == TargetFor(b, g, y)
    decreases |groups|
  {
    hide Skipped, TargetFor, Entry;
    if groups != [] {
      var g, rest := groups[0], groups[1..];
      BuildEqualIff(rest, a, x, b, y);
      assert forall h :: h in groups <==> h == g || h in rest;
      if !Skipped(g) {
        var e, f := Entry(g, TargetFor(a, g, x)), Entry(g, TargetFor(b, g, y));
        SameEntry(g, TargetFor(a, g, x), TargetFor(b, g, y));
        ConsEqual(e, Build(rest, a, x), f, Build(rest, b, y));
      } else {
        ConsNothing(Build(rest, a, x));
        ConsNothing(Build(rest, b, y));
      }
    }
  }

  lemma ConsEqual<T>(a: T, s: seq<T>, b: T, t: seq<T>)
    ensures [a] + s == [b] + t <==> a == b && s == t
  {
    assert ([a] + s)[0] == a && ([a] + s)[1..] == s;
    assert ([b] + t)[0] == b && ([b] + t)[1..] == t;
  }

  lemma ConsNothing<T>(s: seq<T>)
    ensures [] + s == s
  {
  }

  /** A group with `=` in its name, or none, gets its target again. */
  lemma TargetAgainIff(groups: seq<string>, rules: seq<string>, lines: Content, fallback: string, sorted: Content,
                       fallback': string, g: string)
    requires GroupsOf(groups, rules) && SameLines(sorted, Build(groups, lines, fallback)) && Usable(fallback)
    requires g in groups && !Skipped(g) && ('=' !in g ==> Lone(rules, g))
    ensures TargetFor(sorted, g, fallback') == TargetFor(lines, g, fallback) <==>
            '=' in g && !Unwanted(g) ==> fallback' == fallback
  {
    hide Skipped, Unwanted, Build, GroupsOf, Usable, Existing, Lone;
    if '=' in g {
      ExistingNone(sorted, g);
      ExistingNone(lines, g);
    } else {
      SameTarget(groups, rules, lines, fallback, sorted, fallback', g);
    }
  }

  /** Rebuilding from its own output gives the map again iff the target of last resort is the same, or no group needs
      it that has an `=` in its name; provided no other group reads as a group without `=` up to the first `=`. */
  lemma RebuildIdempotentIff(groups: seq<string>, default_: seq<string>, user: seq<string>, lines: Content,
                             fallback: string, sorted: Content, fallback': string)
    requires GroupsOf(groups, default_ + user) && Usable(fallback) && SameLines(sorted, Build(groups, lines, fallback))
    requires forall g <- groups :: !Skipped(g) && '=' !in g ==> Lone(default_ + user, g)
    ensures Build(groups, sorted, fallback') == Build(groups, lines, fallback) <==>
            fallback' == fallback || forall g <- groups :: !Skipped(g) && '=' in g ==> Unwanted(g)
  {
    hide Skipped, Unwanted, Build, GroupsOf, Usable, Lone, TargetFor;
    BuildEqualIff(groups, sorted, fallback', lines, fallback);
    forall g | g in groups && !Skipped(g)
      ensures TargetFor(sorted, g, fallback') == TargetFor(lines, g, fallback) <==>
              '=' in g && !Unwanted(g) ==> fallback' == fallback
    {
      TargetAgainIff(groups, default_ + user, lines, fallback, sorted, fallback', g);
    }
  }

  // ----- The router's view -----------------------------------------------------------------------

  ghost predicate LoadsAs(line: string, g: string, v: string) {
    var e := LoadEntry(line);
    e.Some? && e.value.0 == g ==> e.value.1 == v
  }

  lemma {:induction false} LoadFinds(lines: Content, m: map<string, string>, g: string, v: string)
    requires forall line <- lines :: LoadsAs(line, g, v)
    requires (g in m && m[g] == v) || exists line <- lines :: LoadEntry(line).Some? && LoadEntry(line).value.0 == g
    ensures var loaded := Load(lines, m); g in loaded && loaded[g] == v
    decreases |lines|
  {
    hide LoadEntry;
    if lines != [] {
      var e := LoadEntry(lines[0]);
      assert LoadsAs(lines[0], g, v);
      assert forall line <- lines[1..] :: line in lines;
      assert forall line <- lines :: line == lines[0] || line in lines[1..];
      LoadFinds(lines[1..], if e.Some? then m[e.value.0 := e.value.1] else m, g, v);
    }
  }

  /** The router reads the group as it is written, and no other last field as that group. */
  ghost predicate Distinct(rules: seq<string>, g: string) {
    && Loadable(g)
    && forall h, i: nat :: Uses(rules, i, h) && Strip(KeyOf(h)) == g ==> h == g
  }

  /** With the sorted map in place, the router resolves a last field of the rules through its entry; only reject-drop,
      which the router takes for a word of its own, stays REJECT. */
  lemma GroupsGoThroughMap(env: Env, groups: seq<string>, default_: seq<string>, user: seq<string>, i: nat, g: string,
                           lines: Content, fallback: string, sorted: Content)
    requires GroupsOf(groups, default_ + user) && Uses(default_ + user, i, g) && !Skipped(g)
    requires Distinct(default_ + user, g)
    requires SameLines(sorted, Build(groups, lines, fallback)) && env.policies == Load(sorted, map[])
    ensures g in env.policies && env.policies[g] == Strip(TargetFor(lines, g, fallback))
    ensures Resolve(env, g) ==
            (var mapped := Strip(env.policies[g]);
             if Lower(g) == "reject-drop" then Reject
             else if IsDirect(Lower(mapped)) then Direct
             else if IsReject(Lower(mapped)) then Reject
             else Exit(Canonical(env, mapped)))
  {
    assert g in groups;
    LoadedValues(groups, default_ + user, lines, fallback, sorted, g);
    StripStripped(g);
    hide Load, Build, TargetFor, Strip, Lower, Canonical, Stripped, RightStrip, Uses, GroupsOf;
  }

  lemma LoadedValues(groups: seq<string>, rules: seq<string>, lines: Content, fallback: string, sorted: Content,
                     g: string)
    requires GroupsOf(groups, rules) && SameLines(sorted, Build(groups, lines, fallback)) && g in groups && !Skipped(g)
    requires Distinct(rules, g)
    ensures g in Load(sorted, map[]) && Load(sorted, map[])[g] == Strip(TargetFor(lines, g, fallback))
  {
    hide TargetFor, Strip, RightStrip, LoadEntry, Stripped, Build, Entry, Lower, KeyOf, Uses;
    var v := Strip(TargetFor(lines, g, fallback));
    forall line | line in sorted
      ensures LoadsAs(line, g, v)
    {
      BuildMember(groups, lines, fallback, line);
      var h :| h in groups && !Skipped(h) && line == Entry(h, TargetFor(lines, h, fallback));
      var i: nat :| Uses(rules, i, h);
      LoadKey(line);
      KeyOfEntry(h, TargetFor(lines, h, fallback));
      if h == g {
        EntryLoadsIff(g, TargetFor(lines, g, fallback));
      }
    }
    var entry := Entry(g, TargetFor(lines, g, fallback));
    BuildMember(groups, lines, fallback, entry);
    EntryLoadsIff(g, TargetFor(lines, g, fallback));
    assert entry in sorted;
    LoadFinds(sorted, map[], g, v);
  }

  /** The policy the router parses from a rule line is in the map iff some line ends in a word that is not skipped and
      is the policy up to its first `=`. Otherwise, if it is no word of the router's own, it is an exit by its own
      name. */
  lemma RulePolicyInMapIff(env: Env, groups: seq<string>, default_: seq<string>, user: seq<string>, i: nat,
                           lines: Content, fallback: string, sorted: Content)
    requires GroupsOf(groups, default_ + user) && i < |default_ + user| && PolicyOf(Parse((default_ + user)[i])).Some?
    requires SameLines(sorted, Build(groups, lines, fallback)) && env.policies == Load(sorted, map[])
    ensures var p := PolicyOf(Parse((default_ + user)[i])).value;
            && (p in env.policies <==>
                  exists h, j: nat :: Uses(default_ + user, j, h) && !Skipped(h) && Strip(KeyOf(h)) == p)
            && (p !in env.policies && !Reserved(Lower(p)) ==> Resolve(env, p) == Exit(Canonical(env, p)))
  {
    var rules := default_ + user;
    var p := PolicyOf(Parse(rules[i])).value;
    ParsedClean(rules[i]);
    StripStripped(p);
    hide Skipped, TargetFor, Entry, KeyOf, Build, Uses, Load, LoadsGroup, Parse, Strip, Lower, Canonical, Clean;
    LoadKnows(sorted, map[], p);
    if line :| line in sorted && LoadsGroup(line, p) {
      BuildMember(groups, lines, fallback, line);
      var h :| h in groups && !Skipped(h) && line == Entry(h, TargetFor(lines, h, fallback));
      CleanEntryLoads(h, TargetFor(lines, h, fallback), p);
      var j: nat :| Uses(rules, j, h);
    }
    if h, j: nat :| Uses(rules, j, h) && !Skipped(h) && Strip(KeyOf(h)) == p {
      var line := Entry(h, TargetFor(lines, h, fallback));
      BuildMember(groups, lines, fallback, line);
      CleanEntryLoads(h, TargetFor(lines, h, fallback), p);
    }
  }

  lemma FourthField(typ: string, value: string, policy: string, more: string)
    requires Clean(typ) && Clean(value) && Clean(policy) && Clean(more) && ParseFields([typ, value, policy]).Rule?
    ensures var line := Join([typ, value, policy, more], ',');
            PolicyOf(Parse(line)) == Some(policy) && LastField(line) == more
  {
    var parts := [typ, value, policy, more];
    var line := Join(parts, ',');
    assert Clean(parts[0]) && Clean(parts[1]) && Clean(parts[2]) && Clean(parts[3]);
    hide Parse, ParseFields, Join, Split, Stripped, Strip;
    SplitJoin(parts, ',');
    JoinLacks(parts, ',', '#');
    JoinLacks(parts, ',', ';');
    ParseCommaLine(line);
    StripAllStripped(parts);
    FourFields(typ, value, policy, policy, more);
  }

  /** A rule with a field behind its policy: the map gets that field, not the policy. */
  lemma FourthFieldMisses(typ: string, value: string, policy: string, more: string, groups: seq<string>, lines: Content,
                          fallback: string, sorted: Content)
    requires Clean(typ) && Clean(value) && Clean(policy) && Clean(more) && ParseFields([typ, value, policy]).Rule?
    requires var line := Join([typ, value, policy, more], ',');
             GroupsOf(groups, [line]) && SameLines(sorted, Build(groups, lines, fallback))
    requires Strip(KeyOf(more)) != policy
    ensures var line := Join([typ, value, policy, more], ',');
            PolicyOf(Parse(line)) == Some(policy) && policy !in Load(sorted, map[])
  {
    hide Skipped, TargetFor, Entry, KeyOf, Build, Load, LoadsGroup, Parse, Strip, Clean, ParseFields, Join, LastField;
    FourthField(typ, value, policy, more);
    LoadKnows(sorted, map[], policy);
    forall entry | entry in sorted
      ensures !LoadsGroup(entry, policy)
    {
      BuildMember(groups, lines, fallback, entry);
      var h :| h in groups && !Skipped(h) && entry == Entry(h, TargetFor(lines, h, fallback));
      var j: nat :| Uses([Join([typ, value, policy, more], ',')], j, h);
      CleanEntryLoads(h, TargetFor(lines, h, fallback), policy);
    }
  }

  /** A comment behind the policy makes the last field another word. */
  lemma CommentMisses(line: string, note: string)
    requires '#' !in line && PolicyOf(Parse(line)).Some?
    ensures Parse(line + "#" + note) == Parse(line)
    ensures ',' !in note ==> LastField(line + "#" + note) != PolicyOf(Parse(line)).value
  {
    SplitFirst(line, '#', note);
    assert line + "#" + note == line + ['#'] + note;
    ParsedClean(line);
    if ',' !in note {
      LastOfSplit(line, "#" + note);
      assert line + ("#" + note) == line + "#" + note;
    }
  }

  lemma {:induction false} LastOfSplit(s: string, t: string)
    requires ',' !in t
    ensures LastField(s + t) == LastField(s) + t
  {
    if s == "" {
      assert s + t == t && LastField("") == "" && "" + t == t;
      SplitFirst(t, ',', "");
    } else {
      hide *;
      var r := s[1..];
      LastOfSplit(r, t);
      ConsText(s, t, LastField(r));
      LastCons(s);
      LastCons(s + t);
    }
  }

  lemma ConsText(s: string, t: string, u: string)
    requires s != "" && ',' !in t
    ensures s + t != "" && (s + t)[0] == s[0] && (s + t)[1..] == s[1..] + t && (',' in s + t <==> ',' in s)
    ensures [s[0]] + (u + t) == [s[0]] + u + t
  {
  }

  lemma SplitOne(t: string)
    ensures |Split(t, ',')| == 1 <==> ',' !in t
  {
    JoinSplit(t, ',');
    if ',' !in t {
      SplitFirst(t, ',', "");
    }
    assert |Split(t, ',')| == 1 ==> Join(Split(t, ','), ',') == Split(t, ',')[0];
    hide Split, Join;
  }

  lemma SplitCons(s: string)
    requires s != ""
    ensures var rest := Split(s[1..], ',');
            Split(s, ',') == if s[0] == ',' then [""] + rest else [[s[0]] + rest[0]] + rest[1..]
    ensures ',' in s <==> s[0] == ',' || ',' in s[1..]
  {
    assert s == [s[0]] + s[1..];
  }

  lemma LastCons(s: string)
    requires s != ""
    ensures LastField(s) == if ',' in s then LastField(s[1..]) else [s[0]] + LastField(s[1..])
  {
    SplitCons(s);
    SplitOne(s[1..]);
    hide Split;
  }
}
