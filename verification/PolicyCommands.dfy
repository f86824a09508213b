/** What the commands on the policy map mean to the router once they have succeeded. */
module PolicyCommands {
  import opened Bytes
  import opened Text
  import opened PolicyLines
  import opened PolicyMap
  import SmartState
  import Router

  function LinesOf(fs: SmartState.Files, p: SmartState.Path): Content {
    SmartState.Get(fs, p).GetOr([])
  }

  /** The router's map as it is loaded from the files. */
  function Loaded(fs: SmartState.Files): map<string, string> {
    Load(LinesOf(fs, SmartState.Policy), map[])
  }

  /** The router's configuration for the files, behind the default rules. */
  function Configured(env: Router.Env, default_: seq<string>, fs: SmartState.Files): Option<Router.Config> {
    Router.Compile(env.(policies := Loaded(fs)), default_ + LinesOf(fs, SmartState.Rules), Router.EMPTY)
  }

  /** A mapping the router follows: reserved words, or the exit of that name. */
  function Following(env: Router.Env, target: string): Router.Target {
    var t := Strip(target);
    if Router.IsDirect(Lower(t)) then Router.Direct
    else if Router.IsReject(Lower(t)) then Router.Reject
    else Router.Exit(Router.Canonical(env, t))
  }

  /** After a successful set_policy, whatever its edit left of the map, a policy that is a loadable group and no word
      of the router's own goes to the target; and the rules are as they were. */
  lemma SetPolicyRoutes(r: SmartState.PolicyRun, fs: SmartState.Files, valid: bool, group: string, target: string,
                        env: Router.Env)
    requires SmartState.SetPolicyEnd(r, fs, valid, group, target).ok
    requires Loadable(group) && !Reserved(Lower(group))
    ensures var fs' := SmartState.SetPolicyEnd(r, fs, valid, group, target).files;
            && LinesOf(fs', SmartState.Rules) == LinesOf(fs, SmartState.Rules)
            && Router.Resolve(env.(policies := Loaded(fs')), group) == Following(env, target)
  {
    SmartState.SetPolicyEntry(r, fs, valid, group, target);
    var rest := SmartState.Remaining(r, SmartState.Touched(fs)[SmartState.Policy], group).value;
    SetTakesEffectIff(rest, group, target);
    StripStripped(group);
    StripTwice(target);
    var env' := env.(policies := Loaded(SmartState.SetPolicyEnd(r, fs, valid, group, target).files));
    assert forall name :: Router.Canonical(env', name) == Router.Canonical(env, name);
    hide SmartState.SetPolicyEnd, Load, Strip, Lower, Router.Canonical, SmartState.Remaining;
  }

  /** After a successful del_policy whose edit worked, the router's map lacks the group iff its entries had no blanks in
      front of their `=`; and then a policy that is the group, and no word of the router's own, is an exit of that
      name. */
  lemma DelPolicyRoutes(r: SmartState.PolicyRun, fs: SmartState.Files, valid: bool, group: string, env: Router.Env)
    requires SmartState.DelPolicyEnd(r, fs, valid, group).ok && r.edit.Done?
    requires Stripped(group) && !Reserved(Lower(group))
    ensures var fs' := SmartState.DelPolicyEnd(r, fs, valid, group).files;
            && LinesOf(fs', SmartState.Rules) == LinesOf(fs, SmartState.Rules)
            && (group !in Loaded(fs') <==>
                  forall line <- LinesOf(fs, SmartState.Policy) :: LoadsGroup(line, group) ==> KeyOf(line) == group)
            && (group !in Loaded(fs') ==>
                  Router.Resolve(env.(policies := Loaded(fs')), group) == Router.Exit(Router.Canonical(env, group)))
  {
    SmartState.DelPolicyEntry(r, fs, valid, group);
    DelTakesEffect(LinesOf(fs, SmartState.Policy), group);
    StripStripped(group);
    var env' := env.(policies := Loaded(SmartState.DelPolicyEnd(r, fs, valid, group).files));
    assert Router.Canonical(env', group) == Router.Canonical(env, group);
    hide SmartState.DelPolicyEnd, Load, Strip, Lower, Router.Canonical, LoadsGroup, KeyOf, WithoutKey;
  }

  /** After a successful rename_policy whose edits worked, to a free name that can stand where the old one stood, the
      router's configuration is what it was before the command. */
  lemma RenamePolicyRoutes(r: SmartState.PolicyRun, fs: SmartState.Files, valid: bool, old_: string, new_: string,
                           env: Router.Env, default_: seq<string>)
    requires SmartState.RenamePolicyEnd(r, fs, valid, old_, new_).ok && r.edit.Done? && r.ruleEdit.Done?
    requires SmartState.Policy in fs && SmartState.Rules in fs
    requires old_ in Loaded(fs) && old_ != "" && old_ != new_ && MapReady(fs[SmartState.Policy], old_, new_)
    requires Loadable(new_) && !Reserved(Lower(new_)) && !Reserved(Lower(old_))
    requires Strip(env.defaultTarget) == env.defaultTarget && env.defaultTarget != old_ && env.defaultTarget != new_
    requires UsesNeither(default_, old_, new_) && UserReady(fs[SmartState.Rules], old_, new_)
    ensures Configured(env, default_, SmartState.RenamePolicyEnd(r, fs, valid, old_, new_).files)
            == Configured(env, default_, fs)
  {
    SmartState.RenameInBothFiles(r, fs, valid, old_, new_);
    var before := env.(policies := Loaded(fs));
    hide SmartState.RenamePolicyEnd, Load, Strip, Lower, MapReady, UsesNeither, UserReady, Router.Compile, Loadable,
         RenameEntries, RenameRules;
    RenameKeepsRouting(before, fs[SmartState.Policy], default_, fs[SmartState.Rules], old_, new_);
    var renamed := Load(RenameEntries(fs[SmartState.Policy], old_, new_), map[]);
    assert before.(policies := renamed) == env.(policies := renamed);
  }
}
