/** Switching the egress exit: the exit table's default route, the devices, the rules and the current-exit file. */
module ExitSwitch {
  import opened Bytes
  import opened ExitRules

  /** exits: names with a configuration. links and up: devices that exist, and that are up (named after their exit).
      route: the device of the exit table's default route. current: the content of the current-exit file. downs
      records each exit_down with the route at that moment. */
  datatype Net = Net(exits: set<string>, links: set<string>, up: set<string>, route: Option<string>, rules: seq<Rule>,
                     current: Option<string>, downs: seq<(string, Option<string>)>)

  datatype End = End(net: Net, ok: bool)

  /** A write of the current-exit file; a failing one may leave anything. */
  datatype StateWrite = Wrote | Lost(left: Option<string>)

  /** The outcomes of the steps of one command. start: the exit's unit came up; waited: its device came up in time. */
  datatype Steps = Steps(add: bool, newPref: int, del: int -> bool, flush: bool, start: bool, waited: bool,
                         replace: bool, write: StateWrite, down: bool, downAgain: bool, removed: bool)

  const LOCAL := "local"

  /** The exit the current-exit file selects; a missing or empty file selects none, like "local". */
  function Active(current: Option<string>): Option<string> {
    if current.None? || current.value == "" || current.value == LOCAL then None else current
  }

  function Recorded(n: Net): string {
    n.current.GetOr(LOCAL)
  }

  /** exit_down: nothing happens to a name without a configuration. The kernel drops routes through a removed device. */
  function Down(n: Net, name: string, ok: bool): Net {
    var n1 := n.(downs := n.downs + [(name, n.route)]);
    if !ok || name !in n.exits then n1
    else n1.(links := n.links - {name}, up := n.up - {name}, route := if n.route == Some(name) then None else n.route)
  }

  function WriteState(n: Net, s: Steps, name: string): Net {
    n.(current := if s.write.Wrote? then Some(name) else s.write.left)
  }

  /** set_exit local, after the rule is in place. */
  function GoLocal(s: Steps, n: Net): End {
    var prev := Recorded(n);
    var n1 := WriteState(if s.flush then n.(route := None) else n, s, LOCAL);
    if s.write.Lost? then End(n1, false)
    else End(if prev != LOCAL then Down(n1, prev, s.down) else n1, true)
  }

  /** set_exit <name>, after the rule is in place. */
  function GoTo(s: Steps, n: Net, name: string): End {
    var prev := Recorded(n);
    if name !in n.exits || (name !in n.links && !s.start) then End(n, false)
    else
      var n1 := n.(links := n.links + {name}, up := if s.waited then n.up + {name} else n.up);
      if !s.waited || !s.replace then End(n1, false)
      else
        var n2 := WriteState(n1.(route := Some(name)), s, name);
        if s.write.Lost? then End(n2, false)
        else End(if prev != LOCAL && prev != name then Down(n2, prev, s.down) else n2, true)
  }

  function SetExit(s: Steps, n: Net, name: string): End {
    var rules := EnsureSingle(n.rules, s.add, s.newPref, s.del);
    if name == "" || rules.None? then End(n, false)
    else
      var n1 := n.(rules := rules.value);
      if name == LOCAL then GoLocal(s, n1) else GoTo(s, n1, name)
  }

  function AddExit(s: Steps, n: Net, name: string): End {
    if name == "" || name == LOCAL || !s.removed then End(n, false) else End(n.(exits := n.exits + {name}), true)
  }

  /** del_exit; an active exit is left first. */
  function DelExit(s: Steps, n: Net, name: string): End {
    if name == "" || name == LOCAL || name !in n.exits then End(n, false)
    else
      var e := if Recorded(n) == name then SetExit(s, n, LOCAL) else End(n, true);
      if !e.ok then e
      else
        var n1 := Down(e.net, name, s.downAgain);
        if s.removed then End(n1.(exits := n1.exits - {name}), true) else End(n1, false)
  }

  /** The helper that applies the current exit. */
  function Apply(s: Steps, n: Net): End {
    var rules := EnsureSingle(n.rules, s.add, s.newPref, s.del);
    if rules.None? then End(n, false)
    else
      var n1 := n.(rules := rules.value);
      var active := Active(n.current);
      if active.None? then End(if s.flush then n1.(route := None) else n1, true)
      else if active.value !in n.links && !s.start then End(n1, false)
      else
        var n2 := n1.(links := n1.links + {active.value}, up := if s.waited then n1.up + {active.value} else n1.up);
        if !s.waited || !s.replace then End(n2, false) else End(n2.(route := active), true)
  }

  /** After a boot only the files are left; others are the rules the system sets up by itself. */
  function Boot(n: Net, others: seq<Rule>): Net {
    n.(links := {}, up := {}, route := None, rules := others)
  }

  datatype Command =
    | Add(name: string)
    | Del(name: string)
    | Switch(name: string)
    | Reapply
    | Reboot(others: seq<Rule>)

  function Run(c: Command, s: Steps, n: Net): End {
    match c
    case Add(name) => AddExit(s, n, name)
    case Del(name) => DelExit(s, n, name)
    case Switch(name) => SetExit(s, n, name)
    case Reapply => Apply(s, n)
    case Reboot(others) => Apply(s, Boot(n, others))
  }

  // ----- What holds between commands ---------------------------------------------------

  /** The state file selects no exit and the table is empty, or it selects an existing exit and the table's default
      goes there; one rule sends marked traffic to the table. */
  ghost predicate Good(n: Net) {
    && |Ours(n.rules)| == 1
    && n.route == Active(n.current)
    && (n.route.Some? ==> n.route.value in n.exits)
    && LOCAL !in n.exits && "" !in n.exits
  }

  /** The system's own rules after a boot: none is ours. */
  ghost predicate Sane(c: Command) {
    c.Reboot? ==> Ours(c.others) == []
  }

  /** Leaving the exit went wrong: the state file was lost, or neither the flush nor the old device's removal emptied
      the table. */
  predicate LocalSlips(s: Steps, n: Net, removedLater: bool) {
    if s.write.Lost? then Active(s.write.left) != if s.flush then None else n.route
    else !s.flush && n.route.Some? && !s.down && !removedLater
  }

  /** The failures after which file and route disagree. */
  predicate Slips(c: Command, s: Steps, n: Net) {
    match c
    case Add(_) => false
    case Del(name) =>
      name != "" && name != LOCAL && name in n.exits && Recorded(n) == name && LocalSlips(s, n, s.downAgain)
    case Switch(name) =>
      if name == LOCAL then LocalSlips(s, n, false)
      else
        name in n.exits && (name in n.links || s.start) && s.waited && s.replace && s.write.Lost?
        && Active(s.write.left) != Some(name)
    case Reapply => false
    case Reboot(_) => !s.add || (Active(n.current).Some? && !(s.start && s.waited && s.replace))
  }

  /** With one rule in place, ensuring one rule changes nothing. */
  lemma RuleKept(s: Steps, n: Net)
    requires |Ours(n.rules)| == 1
    ensures EnsureSingle(n.rules, s.add, s.newPref, s.del) == Some(n.rules)
  {
    assert Ours(n.rules)[1..] == [];
  }

  lemma LocalKeepsIff(s: Steps, n: Net)
    requires Good(n)
    ensures Good(GoLocal(s, n).net) <==> !LocalSlips(s, n, false)
  {
    hide Ours;
  }

  lemma GoToKeepsIff(s: Steps, n: Net, name: string)
    requires Good(n) && name != LOCAL && name != ""
    ensures Good(GoTo(s, n, name).net) <==> !Slips(Switch(name), s, n)
  {
    hide Ours;
  }

  lemma SwitchKeepsIff(s: Steps, n: Net, name: string)
    requires Good(n)
    ensures Good(SetExit(s, n, name).net) <==> !Slips(Switch(name), s, n)
  {
    RuleKept(s, n);
    assert n.(rules := n.rules) == n;
    LocalKeepsIff(s, n);
    if name != "" && name != LOCAL {
      GoToKeepsIff(s, n, name);
    }
    hide EnsureSingle, Ours, GoLocal, GoTo;
  }

  lemma DelKeepsIff(s: Steps, n: Net, name: string)
    requires Good(n)
    ensures Good(DelExit(s, n, name).net) <==> !Slips(Del(name), s, n)
  {
    RuleKept(s, n);
    hide EnsureSingle, Ours;
    assert n.(rules := n.rules) == n;
  }

  lemma ReapplyKeeps(s: Steps, n: Net)
    requires Good(n)
    ensures Good(Apply(s, n).net)
  {
    RuleKept(s, n);
    hide EnsureSingle, Ours;
  }

  lemma RebootKeepsIff(s: Steps, n: Net, others: seq<Rule>)
    requires Good(n) && Sane(Reboot(others))
    ensures Good(Apply(s, Boot(n, others)).net) <==> !Slips(Reboot(others), s, n)
  {
    AppendOurs(others, Rule(s.newPref, true));
    hide Ours;
  }

  /** From a good state every command, successful or not, leads to a good state iff it does not slip. */
  lemma CommandKeepsIff(c: Command, s: Steps, n: Net)
    requires Good(n) && Sane(c)
    ensures Good(Run(c, s, n).net) <==> !Slips(c, s, n)
  {
    match c
    case Add(name) =>
    case Del(name) =>
      DelKeepsIff(s, n, name);
      hide *;
    case Switch(name) =>
      SwitchKeepsIff(s, n, name);
      hide *;
    case Reapply =>
      ReapplyKeeps(s, n);
      hide *;
    case Reboot(others) =>
      RebootKeepsIff(s, n, others);
      hide *;
  }

  /** A command that reports success slips only when it was to leave an exit and neither the flush nor exit_down
      worked. */
  lemma SuccessSlipsOnlyAtFlush(c: Command, s: Steps, n: Net)
    requires Good(n) && Sane(c) && Run(c, s, n).ok && Slips(c, s, n)
    ensures (c == Switch(LOCAL) || c.Del?) && !s.flush && !s.down && n.route.Some?
  {
    RuleKept(s, n);
    hide EnsureSingle;
  }

  // ----- What repairs ------------------------------------------------------------------------

  /** The state file names a local or an existing exit; nothing else is said of the state. */
  predicate Selects(n: Net) {
    (Active(n.current).Some? ==> Active(n.current).value in n.exits) && LOCAL !in n.exits && "" !in n.exits
  }

  /** ensure_single_exit_rule leaves one mark rule. */
  ghost predicate OneRuleLeft(s: Steps, rules: seq<Rule>) {
    Ours(rules) == [] || (AllGo(Ours(rules)[1..], s.del) && Spared(rules, Ours(rules)[1..], s.del))
  }

  lemma OneRuleLeftIff(s: Steps, n: Net)
    requires EnsureSingle(n.rules, s.add, s.newPref, s.del).Some?
    ensures |Ours(EnsureSingle(n.rules, s.add, s.newPref, s.del).value)| == 1 <==> OneRuleLeft(s, n.rules)
  {
    OneRuleIff(n.rules, s.add, s.newPref, s.del);
    hide Ours, EnsureSingle, AllGo, Spared;
  }

  /** However route and file came to disagree, a re-application that reports success makes the state good again iff it
      leaves one mark rule, and the flush worked if it was to empty a table that was not empty. */
  lemma ReapplyRepairsIff(s: Steps, n: Net)
    requires Selects(n) && Apply(s, n).ok
    ensures Good(Apply(s, n).net) <==>
            OneRuleLeft(s, n.rules) && (Active(n.current).Some? || s.flush || n.route.None?)
  {
    OneRuleLeftIff(s, n);
    hide Ours, EnsureSingle, OneRuleLeft;
  }

  /** So does a switch that reports success; one to local may also empty the table by taking down the old exit. */
  lemma SwitchRepairsIff(s: Steps, n: Net, name: string)
    requires LOCAL !in n.exits && "" !in n.exits && SetExit(s, n, name).ok
    ensures Good(SetExit(s, n, name).net) <==>
            && OneRuleLeft(s, n.rules)
            && (name != LOCAL || s.flush || n.route.None?
                || (s.down && Recorded(n) in n.exits && n.route == Some(Recorded(n))))
  {
    OneRuleLeftIff(s, n);
    hide Ours, EnsureSingle, OneRuleLeft;
  }

  // ----- What success means --------------------------------------------------------------------

  /** An exit that was added exists, and none of the others is gone; "" and "local" cannot be added. */
  lemma AddSucceeds(s: Steps, n: Net, name: string)
    ensures var e := AddExit(s, n, name);
            && (e.ok <==> name != "" && name != "local" && s.removed)
            && (forall x :: x in e.net.exits <==> x in n.exits || (e.ok && x == name))
            && e.net.route == n.route && e.net.current == n.current && e.net.links == n.links
            && e.net.rules == n.rules && e.net.downs == n.downs
  {
  }

  /** An exit that was deleted exists no more, all others do, and if it was the one in use the state file says local;
      its device is gone if exit_down worked. */
  lemma DelSucceeds(s: Steps, n: Net, name: string)
    ensures var e := DelExit(s, n, name);
            && (e.ok ==> name in n.exits && name != "" && name != "local")
            && (forall x :: x in e.net.exits <==> x in n.exits && (x != name || !e.ok))
            && (e.ok ==> e.net.current == if Recorded(n) == name then Some("local") else n.current)
            && (e.ok && s.downAgain ==> name !in e.net.links && e.net.route != Some(name))
            && (e.ok && Recorded(n) != name && n.route != Some(name) ==> e.net.route == n.route)
  {
    hide EnsureSingle;
  }

  /** A delete succeeds iff the exit can be deleted, can be left when it is in use, and its files can be removed. */
  lemma DelOkIff(s: Steps, n: Net, name: string)
    ensures DelExit(s, n, name).ok <==>
            && name != "" && name != "local" && name in n.exits && s.removed
            && (Recorded(n) == name ==> (Ours(n.rules) == [] ==> s.add) && s.write.Wrote?)
  {
    OneRuleIff(n.rules, s.add, s.newPref, s.del);
    hide EnsureSingle, Ours;
  }

  /** A re-application gets as far as the device of an exit. */
  ghost predicate Started(s: Steps, n: Net) {
    && (Ours(n.rules) == [] ==> s.add)
    && n.current.Some? && n.current.value != "" && n.current.value != "local"
    && (n.current.value in n.links || s.start)
  }

  /** A re-application succeeds iff the mark rule is there or can be added and, when an exit is selected, its device
      exists or starts, comes up in time and takes the route. */
  lemma ReapplyOkIff(s: Steps, n: Net)
    ensures Apply(s, n).ok <==>
            && (Ours(n.rules) == [] ==> s.add)
            && (n.current.Some? && n.current.value != "" && n.current.value != "local" ==>
                  (n.current.value in n.links || s.start) && s.waited && s.replace)
    ensures Apply(s, n).ok && n.current.Some? && n.current.value != "" && n.current.value != "local" ==>
              Apply(s, n).net.route == n.current && n.current.value in Apply(s, n).net.up
    ensures var e := Apply(s, n).net;
            && e.current == n.current && e.exits == n.exits && e.downs == n.downs
            && (forall x :: x in e.links <==> x in n.links || (Started(s, n) && Some(x) == n.current))
            && (forall x :: x in e.up <==> x in n.up || (Started(s, n) && s.waited && Some(x) == n.current))
  {
    OneRuleIff(n.rules, s.add, s.newPref, s.del);
    hide EnsureSingle, Ours;
  }

  /** After a reboot no device is there but that of the selected exit, and the route is that exit's or none. */
  lemma RebootOkIff(s: Steps, n: Net, others: seq<Rule>)
    ensures var e := Run(Reboot(others), s, n);
            && (e.ok <==> (Ours(others) == [] ==> s.add)
                          && (Active(n.current).Some? ==> s.start && s.waited && s.replace))
            && (forall x <- e.net.links + e.net.up :: Some(x) == Active(n.current))
            && e.net.route == (if e.ok then Active(n.current) else None)
            && e.net.current == n.current && e.net.exits == n.exits
  {
    OneRuleIff(others, s.add, s.newPref, s.del);
    hide EnsureSingle, Ours;
  }

  /** A switch to local succeeds iff the mark rule is there or can be added and the state file can be written; then the
      table is empty if the flush worked, and the old exit, and no other, was taken down. */
  lemma LocalOkIff(s: Steps, n: Net)
    ensures var e := SetExit(s, n, "local");
            && (e.ok <==> (Ours(n.rules) == [] ==> s.add) && s.write.Wrote?)
            && (e.ok ==> e.net.current == Some("local") && (s.flush ==> e.net.route == None))
            && (e.ok && Recorded(n) != "local" && Recorded(n) in n.exits && s.down ==>
                  e.net.links == n.links - {Recorded(n)} && e.net.up == n.up - {Recorded(n)})
            && (e.ok && (Recorded(n) == "local" || !s.down) ==> e.net.links == n.links && e.net.up == n.up)
  {
    OneRuleIff(n.rules, s.add, s.newPref, s.del);
    hide EnsureSingle, Ours;
  }

  // ----- Runs -------------------------------------------------------------------------------

  datatype Step = Step(command: Command, steps: Steps)

  ghost function After(n: Net, run: seq<Step>): Net
    decreases |run|
  {
    if run == [] then n else After(Run(run[0].command, run[0].steps, n).net, run[1..])
  }

  ghost predicate Smooth(n: Net, run: seq<Step>)
    decreases |run|
  {
    run == [] || (var c, s := run[0].command, run[0].steps;
                  Sane(c) && !Slips(c, s, n) && Smooth(Run(c, s, n).net, run[1..]))
  }

  /** Over every run of adding, deleting, switching and rebooting: the current exit is local or exists, the table
      agrees with it, and exactly one mark rule remains, unless some command slipped. */
  lemma {:induction false} RunKeepsGood(n: Net, run: seq<Step>)
    requires Good(n) && Smooth(n, run)
    ensures Good(After(n, run))
    decreases |run|
  {
    if run != [] {
      var c, s := run[0].command, run[0].steps;
      CommandKeepsIff(c, s, n);
      hide Good, Sane, Slips, Run;
      RunKeepsGood(Run(c, s, n).net, run[1..]);
    }
  }

  /** The state the installer sets up: no exits, local, one mark rule. */
  function Installed(rules: seq<Rule>): Net {
    Net({}, {}, {}, None, rules, Some(LOCAL), [])
  }

  /** So it is in every run from there. */
  lemma RunFromInstall(rules: seq<Rule>, run: seq<Step>)
    requires |Ours(rules)| == 1 && Smooth(Installed(rules), run)
    ensures Good(After(Installed(rules), run))
  {
    assert Good(Installed(rules));
    RunKeepsGood(Installed(rules), run);
  }

  // ----- One switch ----------------------------------------------------------------------------

  /** set_exit gets as far as the new route. */
  predicate Replaces(s: Steps, n: Net, name: string) {
    && name != "" && EnsureSingle(n.rules, s.add, s.newPref, s.del).Some?
    && name in n.exits && (name in n.links || s.start) && s.waited && s.replace
  }

  /** From any state: a switch that does not get as far fails, and leaves route, state file and old exit alone; one
      that does has the new route, and then fails only for the state file. */
  lemma SwitchAroundRoute(s: Steps, n: Net, name: string)
    requires name != LOCAL
    ensures var e := SetExit(s, n, name);
            if Replaces(s, n, name) then e.net.route == Some(name) && (e.ok <==> s.write.Wrote?)
            else !e.ok && e.net.route == n.route && e.net.current == n.current && e.net.downs == n.downs
                 && n.links <= e.net.links
  {
    hide EnsureSingle;
  }

  /** A switch takes down at most the recorded exit, and only when the new exit's route is in place. */
  lemma OldExitDownAfterRoute(s: Steps, n: Net, name: string)
    requires name != LOCAL
    ensures var e := SetExit(s, n, name);
            if e.ok && Recorded(n) != LOCAL && Recorded(n) != name
            then e.net.downs == n.downs + [(Recorded(n), Some(name))]
            else e.net.downs == n.downs
    ensures SetExit(s, n, name).ok ==>
              SetExit(s, n, name).net.route == Some(name) && SetExit(s, n, name).net.current == Some(name)
              && name in SetExit(s, n, name).net.up
  {
    hide EnsureSingle;
  }
}
