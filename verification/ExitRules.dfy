/** ensure_single_exit_rule: keep one rule that sends marked packets to the exit table. */
module ExitRules {
  import opened Bytes

  /** One line of `ip rule`; ours tells whether it names the mark and the table. */
  datatype Rule = Rule(pref: int, ours: bool)

  function Ours(rules: seq<Rule>): seq<int> {
    if rules == [] then []
    else (if rules[0].ours then [rules[0].pref] else []) + Ours(rules[1..])
  }

  function Others(rules: seq<Rule>): seq<Rule> {
    if rules == [] then []
    else (if rules[0].ours then [] else [rules[0]]) + Others(rules[1..])
  }

  /** ip rule del priority p: the first rule of that priority. */
  function Delete(rules: seq<Rule>, p: int): seq<Rule> {
    if rules == [] then []
    else if rules[0].pref == p then rules[1..]
    else [rules[0]] + Delete(rules[1..], p)
  }

  /** The loop over the surplus priorities; a failing delete is ignored. */
  function Prune(rules: seq<Rule>, surplus: seq<int>, del: int -> bool): seq<Rule>
    decreases |surplus|
  {
    if surplus == [] then rules
    else Prune(if del(surplus[0]) then Delete(rules, surplus[0]) else rules, surplus[1..], del)
  }

  /** None when the rule could not be added. newPref is the priority the kernel gives a new rule. */
  function EnsureSingle(rules: seq<Rule>, add: bool, newPref: int, del: int -> bool): Option<seq<Rule>> {
    var prefs := Ours(rules);
    if prefs == [] then if add then Some(rules + [Rule(newPref, true)]) else None
    else Some(Prune(rules, prefs[1..], del))
  }

  function Failing(prefs: seq<int>, del: int -> bool): seq<int> {
    if prefs == [] then [] else (if del(prefs[0]) then [] else [prefs[0]]) + Failing(prefs[1..], del)
  }

  /** Which of the rules of one priority are ours, in their order. */
  function Flags(rules: seq<Rule>, p: int): seq<bool> {
    if rules == [] then []
    else (if rules[0].pref == p then [rules[0].ours] else []) + Flags(rules[1..], p)
  }

  function Times(prefs: seq<int>, p: int): nat {
    if prefs == [] then 0 else (if prefs[0] == p then 1 else 0) + Times(prefs[1..], p)
  }

  /** The first k rules of priority p are ours. */
  ghost predicate FirstOurs(rules: seq<Rule>, p: int, k: nat) {
    forall i :: 0 <= i < k && i < |Flags(rules, p)| ==> Flags(rules, p)[i]
  }

  /** No rule of the system's own stands where a delete takes a rule. */
  ghost predicate Spared(rules: seq<Rule>, surplus: seq<int>, del: int -> bool) {
    forall p :: del(p) ==> FirstOurs(rules, p, Times(surplus, p))
  }

  lemma MultisetCons(p: int, rest: seq<int>)
    ensures multiset([p] + rest) == multiset{p} + multiset(rest)
  {
  }

  lemma OursOf(first: Rule, rest: seq<Rule>)
    ensures Ours([first] + rest) == if first.ours then [first.pref] + Ours(rest) else Ours(rest)
    ensures Others([first] + rest) == if first.ours then Others(rest) else [first] + Others(rest)
  {
    assert ([first] + rest)[1..] == rest;
  }

  lemma DeleteOf(first: Rule, rest: seq<Rule>, p: int)
    ensures Delete([first] + rest, p) == if first.pref == p then rest else [first] + Delete(rest, p)
  {
    assert ([first] + rest)[1..] == rest;
  }

  lemma ConsMinus(q: int, m: multiset<int>, p: int)
    ensures multiset{p} + m - multiset{p} == m
    ensures p in m ==> multiset{q} + (m - multiset{p}) == multiset{q} + m - multiset{p}
  {
  }

  lemma FlagsOf(first: Rule, rest: seq<Rule>, p: int)
    ensures Flags([first] + rest, p) == if first.pref == p then [first.ours] + Flags(rest, p) else Flags(rest, p)
  {
    assert ([first] + rest)[1..] == rest;
  }

  lemma {:induction false} OursHaveFlags(rules: seq<Rule>, p: int)
    ensures p in Ours(rules) ==> Flags(rules, p) != []
  {
    if rules != [] {
      OursHaveFlags(rules[1..], p);
    }
  }

  /** Deleting a priority takes one rule of ours and no other if ours comes first, and else a rule that is not ours. */
  lemma {:induction false} DeleteTakes(rules: seq<Rule>, p: int)
    requires Flags(rules, p) != []
    ensures var r := Delete(rules, p);
            if Flags(rules, p)[0]
            then p in Ours(rules) && multiset(Ours(r)) == multiset(Ours(rules)) - multiset{p}
                 && |Ours(r)| + 1 == |Ours(rules)| && Others(r) == Others(rules)
            else Ours(r) == Ours(rules) && |Others(r)| + 1 == |Others(rules)|
  {
    assert rules != [];
    hide *;
    var first, rest := rules[0], rules[1..];
    assert rules == [first] + rest;
    OursOf(first, rest);
    FlagsOf(first, rest, p);
    DeleteOf(first, rest, p);
    MultisetCons(first.pref, Ours(rest));
    ConsMinus(first.pref, multiset(Ours(rest)), p);
    if first.pref != p {
      DeleteTakes(rest, p);
      OursOf(first, Delete(rest, p));
      MultisetCons(first.pref, Ours(Delete(rest, p)));
    }
  }

  lemma {:induction false} DeleteFlags(rules: seq<Rule>, p: int, q: int)
    requires Flags(rules, p) != []
    ensures Flags(Delete(rules, p), q) == if q == p then Flags(rules, p)[1..] else Flags(rules, q)
  {
    assert rules != [];
    hide *;
    var first, rest := rules[0], rules[1..];
    assert rules == [first] + rest;
    FlagsOf(first, rest, p);
    FlagsOf(first, rest, q);
    DeleteOf(first, rest, p);
    if first.pref != p {
      DeleteFlags(rest, p, q);
      FlagsOf(first, Delete(rest, p), q);
    }
  }

  lemma FirstOursStep(rules: seq<Rule>, p: int, k: nat)
    requires Flags(rules, p) != []
    ensures FirstOurs(rules, p, k + 1) <==> Flags(rules, p)[0] && FirstOurs(Delete(rules, p), p, k)
  {
    DeleteFlags(rules, p, p);
    hide Flags, Delete;
    var f, g := Flags(rules, p), Flags(Delete(rules, p), p);
    assert g == f[1..] && forall i :: 0 <= i < |g| ==> g[i] == f[i + 1];
    if FirstOurs(rules, p, k + 1) {
      assert f[0];
      forall i | 0 <= i < k && i < |g|
        ensures g[i]
      {
        assert f[i + 1];
      }
    }
    if f[0] && FirstOurs(Delete(rules, p), p, k) {
      forall i | 0 <= i < k + 1 && i < |f|
        ensures f[i]
      {
        assert i > 0 ==> g[i - 1];
      }
    }
  }

  lemma SparedStep(rules: seq<Rule>, surplus: seq<int>, del: int -> bool)
    requires surplus != [] && Flags(rules, surplus[0]) != []
    ensures var p, rest := surplus[0], surplus[1..];
            Spared(rules, surplus, del) <==>
            if del(p) then Flags(rules, p)[0] && Spared(Delete(rules, p), rest, del) else Spared(rules, rest, del)
  {
    hide Flags, Delete, FirstOurs;
    var p, rest := surplus[0], surplus[1..];
    FirstOursStep(rules, p, Times(rest, p));
    forall q
      ensures Times(surplus, q) == Times(rest, q) + (if q == p then 1 else 0)
      ensures q != p ==> (FirstOurs(Delete(rules, p), q, Times(rest, q)) <==> FirstOurs(rules, q, Times(rest, q)))
    {
      if q != p {
        OtherFlags(rules, p, q, Times(rest, q));
      }
    }
    if del(p) && Flags(rules, p)[0] && Spared(Delete(rules, p), rest, del) {
      assert FirstOurs(Delete(rules, p), p, Times(rest, p));
    }
    if del(p) && Spared(rules, surplus, del) {
      assert FirstOurs(rules, p, Times(surplus, p));
    }
  }

  lemma OtherFlags(rules: seq<Rule>, p: int, q: int, k: nat)
    requires Flags(rules, p) != [] && p != q
    ensures FirstOurs(Delete(rules, p), q, k) <==> FirstOurs(rules, q, k)
  {
    DeleteFlags(rules, p, q);
    hide Flags, Delete;
  }

  predicate Within(surplus: seq<int>, ours: seq<int>) {
    multiset(surplus) <= multiset(ours)
  }

  /** Our priorities without the surplus ones, but with those whose delete failed. */
  function Left(ours: seq<int>, surplus: seq<int>, failing: seq<int>): multiset<int> {
    multiset(ours) - multiset(surplus) + multiset(failing)
  }

  lemma WithinRest(surplus: seq<int>, ours: seq<int>)
    requires surplus != [] && Within(surplus, ours)
    ensures surplus[0] in ours && Within(surplus[1..], ours)
  {
    assert surplus == [surplus[0]] + surplus[1..];
    MultisetCons(surplus[0], surplus[1..]);
    assert surplus[0] in multiset(ours);
  }

  lemma LeftDeleted(ours: seq<int>, ours': seq<int>, surplus: seq<int>, failing: seq<int>)
    requires surplus != [] && Within(surplus, ours) && multiset(ours') == multiset(ours) - multiset{surplus[0]}
    ensures Within(surplus[1..], ours') && Left(ours', surplus[1..], failing) == Left(ours, surplus, failing)
  {
    assert surplus == [surplus[0]] + surplus[1..];
    MultisetCons(surplus[0], surplus[1..]);
  }

  lemma LeftFailed(ours: seq<int>, surplus: seq<int>, failing: seq<int>)
    requires surplus != [] && Within(surplus, ours)
    ensures Left(ours, surplus[1..], failing) == Left(ours, surplus, [surplus[0]] + failing)
  {
    assert surplus == [surplus[0]] + surplus[1..];
    MultisetCons(surplus[0], surplus[1..]);
    MultisetCons(surplus[0], failing);
  }

  /** Every delete that succeeds takes one rule; if none of the system's own stands in the way, they are all ours. */
  lemma {:induction false} PruneOurs(rules: seq<Rule>, surplus: seq<int>, del: int -> bool)
    requires Within(surplus, Ours(rules))
    ensures var r := Prune(rules, surplus, del);
            && |Ours(r)| + |Others(r)| + |surplus| == |Ours(rules)| + |Others(rules)| + |Failing(surplus, del)|
            && |Others(r)| <= |Others(rules)|
            && (|Others(r)| == |Others(rules)| <==> Spared(rules, surplus, del))
            && (Spared(rules, surplus, del) ==>
                  Others(r) == Others(rules) && multiset(Ours(r)) == Left(Ours(rules), surplus, Failing(surplus, del)))
    decreases |surplus|
  {
    if surplus == [] {
      assert forall p :: FirstOurs(rules, p, 0);
    } else {
      PruneOf(rules, surplus, del);
      hide *;
      var p, rest := surplus[0], surplus[1..];
      WithinRest(surplus, Ours(rules));
      OursHaveFlags(rules, p);
      SparedStep(rules, surplus, del);
      if del(p) {
        DeleteTakes(rules, p);
        if Flags(rules, p)[0] {
          LeftDeleted(Ours(rules), Ours(Delete(rules, p)), surplus, Failing(rest, del));
        }
        PruneOurs(Delete(rules, p), rest, del);
      } else {
        PruneOurs(rules, rest, del);
        LeftFailed(Ours(rules), surplus, Failing(rest, del));
      }
    }
  }

  lemma PruneOf(rules: seq<Rule>, surplus: seq<int>, del: int -> bool)
    requires surplus != []
    ensures var p, rest := surplus[0], surplus[1..];
            && Prune(rules, surplus, del) == Prune(if del(p) then Delete(rules, p) else rules, rest, del)
            && Failing(surplus, del) == (if del(p) then Failing(rest, del) else [p] + Failing(rest, del))
  {
  }

  ghost predicate AllGo(prefs: seq<int>, del: int -> bool) {
    forall i :: 0 <= i < |prefs| ==> del(prefs[i])
  }

  lemma {:induction false} FailingNone(prefs: seq<int>, del: int -> bool)
    ensures Failing(prefs, del) == [] <==> AllGo(prefs, del)
  {
    if prefs != [] {
      FailingNone(prefs[1..], del);
      assert AllGo(prefs, del) <==> del(prefs[0]) && AllGo(prefs[1..], del) by {
        assert prefs == [prefs[0]] + prefs[1..];
      }
    }
  }

  lemma {:induction false} AppendOurs(rules: seq<Rule>, r: Rule)
    requires r.ours
    ensures Ours(rules + [r]) == Ours(rules) + [r.pref] && Others(rules + [r]) == Others(rules)
  {
    if rules != [] {
      AppendOurs(rules[1..], r);
      assert (rules + [r])[1..] == rules[1..] + [r];
    }
  }

  /** The system's own rules are left alone iff none of them stands where a delete takes a rule; exactly one of our
      rules remains iff, besides, every surplus delete succeeds. */
  lemma OneRuleIff(rules: seq<Rule>, add: bool, newPref: int, del: int -> bool)
    ensures var r := EnsureSingle(rules, add, newPref, del);
            var prefs := Ours(rules);
            && (r.None? <==> prefs == [] && !add)
            && (r.Some? && prefs == [] ==> Others(r.value) == Others(rules) && Ours(r.value) == [newPref])
            && (prefs != [] ==>
                  && (Others(r.value) == Others(rules) <==> Spared(rules, prefs[1..], del))
                  && (|Ours(r.value)| == 1 <==> AllGo(prefs[1..], del) && Spared(rules, prefs[1..], del))
                  && (Spared(rules, prefs[1..], del) ==>
                        multiset(Ours(r.value)) == multiset{prefs[0]} + multiset(Failing(prefs[1..], del))))
  {
    var prefs := Ours(rules);
    hide Ours, Others, Prune, Failing, Spared, AllGo;
    if prefs == [] {
      AppendOurs(rules, Rule(newPref, true));
    } else {
      var first, surplus := prefs[0], prefs[1..];
      assert prefs == [first] + surplus;
      MultisetCons(first, surplus);
      assert multiset(surplus) <= multiset(prefs);
      PruneOurs(rules, surplus, del);
      FailingNone(surplus, del);
      if Spared(rules, surplus, del) {
        OneLeft(multiset(prefs), first, multiset(surplus), Failing(surplus, del), Ours(Prune(rules, surplus, del)));
      }
    }
  }

  lemma OneLeft(all: multiset<int>, first: int, surplus: multiset<int>, failing: seq<int>, left: seq<int>)
    requires all == multiset{first} + surplus && multiset(left) == all - surplus + multiset(failing)
    ensures multiset(left) == multiset{first} + multiset(failing)
    ensures |left| == 1 <==> failing == []
  {
    assert all - surplus == multiset{first};
    assert |multiset(left)| == |left| && |multiset(failing)| == |failing|;
  }
}
