/** The exit commands as methods that change devices, route, rules and state file step by step. */
module ExitGateway {
  import opened Bytes
  import opened ExitRules
  import opened ExitSwitch

  class Gateway {
    var exits: set<string>
    var links: set<string>
    var up: set<string>
    var route: Option<string>
    var rules: seq<Rule>
    var current: Option<string>
    ghost var downs: seq<(string, Option<string>)>

    constructor (rules: seq<Rule>)
      ensures View() == Installed(rules)
    {
      exits, links, up, route, current, downs := {}, {}, {}, None, Some(LOCAL), [];
      this.rules := rules;
    }

    ghost function View(): Net
      reads this
    {
      Net(exits, links, up, route, rules, current, downs)
    }

    method EnsureSingleRule(s: Steps) returns (ok: bool)
      modifies this`rules
      ensures var r := EnsureSingle(old(rules), s.add, s.newPref, s.del);
              if ok then r == Some(rules) else r.None? && rules == old(rules)
    {
      var prefs := Ours(rules);
      if prefs == [] {
        if s.add {
          rules := rules + [Rule(s.newPref, true)];
        }
        return s.add;
      }
      for i := 1 to |prefs|
        invariant Prune(rules, prefs[i..], s.del) == Prune(old(rules), prefs[1..], s.del)
      {
        if s.del(prefs[i]) {
          rules := Delete(rules, prefs[i]);
        }
        assert prefs[i..][1..] == prefs[i + 1..];
      }
      return true;
    }

    method ExitDown(name: string, ok: bool)
      modifies this`links, this`up, this`route, this`downs
      ensures View() == Down(old(View()), name, ok)
    {
      downs := downs + [(name, route)];
      if ok && name in exits {
        links, up := links - {name}, up - {name};
        if route == Some(name) {
          route := None;
        }
      }
    }

    method SetExit(s: Steps, name: string) returns (ok: bool)
      modifies this
      ensures End(View(), ok) == ExitSwitch.SetExit(s, old(View()), name)
    {
      hide EnsureSingle;
      if name == "" {
        return false;
      }
      var ensured := EnsureSingleRule(s);
      if !ensured {
        return false;
      }
      var prev := current.GetOr(LOCAL);
      if name == LOCAL {
        if s.flush {
          route := None;
        }
        current := if s.write.Wrote? then Some(LOCAL) else s.write.left;
        if s.write.Lost? {
          return false;
        }
        if prev != LOCAL {
          ExitDown(prev, s.down);
        }
        return true;
      }
      if name !in exits || (name !in links && !s.start) {
        return false;
      }
      links := links + {name};
      if !s.waited {
        return false;
      }
      up := up + {name};
      if !s.replace {
        return false;
      }
      route := Some(name);
      current := if s.write.Wrote? then Some(name) else s.write.left;
      if s.write.Lost? {
        return false;
      }
      if prev != LOCAL && prev != name {
        ExitDown(prev, s.down);
      }
      return true;
    }

    method DelExit(s: Steps, name: string) returns (ok: bool)
      modifies this
      ensures End(View(), ok) == ExitSwitch.DelExit(s, old(View()), name)
    {
      hide ExitSwitch.SetExit, Down;
      if name == "" || name == LOCAL || name !in exits {
        return false;
      }
      if current.GetOr(LOCAL) == name {
        var left := SetExit(s, LOCAL);
        if !left {
          return false;
        }
      }
      ExitDown(name, s.downAgain);
      if s.removed {
        exits := exits - {name};
      }
      return s.removed;
    }

    method ApplyExit(s: Steps) returns (ok: bool)
      modifies this
      ensures End(View(), ok) == Apply(s, old(View()))
    {
      hide EnsureSingle;
      var ensured := EnsureSingleRule(s);
      if !ensured {
        return false;
      }
      var active := Active(current);
      if active.None? {
        if s.flush {
          route := None;
        }
        return true;
      }
      if active.value !in links && !s.start {
        return false;
      }
      links := links + {active.value};
      if !s.waited {
        return false;
      }
      up := up + {active.value};
      if !s.replace {
        return false;
      }
      route := active;
      return true;
    }
  }
}
