/** The edits of install.sh on the policy map (lines `group=target`) and on the rules file. */
module PolicyLines {
  import opened Text

  type Content = seq<string>

  function Entry(group: string, target: string): string {
    group + "=" + target
  }

  /** awk's $1 with -F= */
  function KeyOf(line: string): string {
    Split(line, '=')[0]
  }

  function Filter(lines: Content, keep: string -> bool): Content {
    if lines == [] then []
    else (if keep(lines[0]) then [lines[0]] else []) + Filter(lines[1..], keep)
  }

  function Map(lines: Content, f: string -> string): (r: Content)
    ensures |r| == |lines| && forall i :: 0 <= i < |r| ==> r[i] == f(lines[i])
  {
    if lines == [] then [] else [f(lines[0])] + Map(lines[1..], f)
  }

  /** set_policy: every line with `group=` somewhere in it makes way for the new entry. */
  function WithoutText(lines: Content, group: string): Content {
    Filter(lines, line => !Contains(line, group + "="))
  }

  /** del_policy */
  function WithoutKey(lines: Content, group: string): Content {
    Filter(lines, line => KeyOf(line) != group)
  }

  /** rename_policy on one line of the map. */
  function RenameEntry(line: string, old_: string, new_: string): string {
    var fields := Split(line, '=');
    if fields[0] == old_ then Join([new_] + fields[1..], '=') else line
  }

  predicate IsComment(line: string) {
    var s := LeftStrip(line);
    s == "" || s[0] == '#' || s[0] == ';'
  }

  function Last<T>(s: seq<T>): T
    requires s != []
  {
    s[|s| - 1]
  }

  /** rename_policy on one line of the rules file: only a last field that is the old name changes. */
  function RenameRule(line: string, old_: string, new_: string): string {
    var fields := Split(line, ',');
    if IsComment(line) || Last(fields) != old_ then line
    else Join(fields[..|fields| - 1] + [new_], ',')
  }

  function RenameEntries(lines: Content, old_: string, new_: string): Content {
    Map(lines, line => RenameEntry(line, old_, new_))
  }

  function RenameRules(lines: Content, old_: string, new_: string): Content {
    Map(lines, line => RenameRule(line, old_, new_))
  }

  lemma {:induction false} FilterMember(lines: Content, keep: string -> bool, line: string)
    ensures line in Filter(lines, keep) <==> line in lines && keep(line)
  {
    if lines != [] {
      FilterMember(lines[1..], keep, line);
    }
  }

  /** What set_policy keeps of the other groups: an entry goes iff the new group's `group=` is part of it. */
  lemma OtherEntriesAfterSet(lines: Content, group: string, target: string, line: string)
    requires line != Entry(group, target)
    ensures line in WithoutText(lines, group) + [Entry(group, target)] <==>
            line in lines && !Contains(line, group + "=")
  {
    FilterMember(lines, l => !Contains(l, group + "="), line);
  }

  /** A group whose name ends in the new group's name is lost, whatever its target. */
  lemma LongerNameIsLost(lines: Content, prefix: string, group: string, target: string, other: string)
    requires Entry(prefix + group, other) != Entry(group, target)
    ensures Entry(prefix + group, other) !in WithoutText(lines, group) + [Entry(group, target)]
  {
    var line := Entry(prefix + group, other);
    assert line[|prefix|..] == group + "=" + other;
    assert Contains(line, group + "=");
    OtherEntriesAfterSet(lines, group, target, line);
  }

  /** del_policy takes the lines of the group and no others. */
  lemma OtherEntriesAfterDel(lines: Content, group: string, line: string)
    ensures line in WithoutKey(lines, group) <==> line in lines && KeyOf(line) != group
  {
    FilterMember(lines, l => KeyOf(l) != group, line);
  }
}
