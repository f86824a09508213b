/** The sections under the locks of the session manager, as methods that update its map. */
module SessionManager {
  import opened Bytes
  import opened Sessions

  lemma Nonempty(keys: set<Key>)
    ensures keys == {} || exists k :: k in keys
  {
    if forall k :: k !in keys {
      assert keys == {};
    }
  }

  /** The step that looks at one session. */
  lemma InspectOne(timeout: int, s: State, now: int, todo: set<Key>, found: seq<Key>, k: Key)
    requires Runs(s, GC) && k in todo && k in s.sessions && s.sessions[k] in s.info
    ensures var s1 := Goto(s, GC, Scanning(now, todo, found));
            && Enabled(s1, Inspect(k))
            && Next(timeout, s1, Inspect(k)) ==
               Goto(s, GC, Scanning(now, todo - {k},
                 if now - s.info[s.sessions[k]].lastActivity > timeout then found + [k] else found))
  {
    var s1 := Goto(s, GC, Scanning(now, todo, found));
    assert s1.threads[GC := Done] == s.threads[GC := Done];
  }

  class Manager {
    var sessions: map<Key, Conn>
    var info: map<Conn, Session>

    constructor ()
      ensures Agrees(INIT) && Valid()
    {
      sessions, info := map[], map[];
    }

    /** The object holds the shared part of state s of the step system. */
    ghost predicate Agrees(s: State)
      reads this
    {
      sessions == s.sessions && info == s.info
    }

    ghost predicate Valid()
      reads this
    {
      forall k <- sessions :: sessions[k] in info
    }

    /** main's lookup of the hot path. */
    method Find(k: Key) returns (e: Option<Conn>)
      ensures e == if k in sessions then Some(sessions[k]) else None
      ensures forall s: State, d, spawn :: Agrees(s) ==>
        DoReceive(s, k, d, spawn) ==
          if e.Some? then Goto(s, MAIN, Touching(k, d, e.value)) else Goto(s, spawn, Fresh(k, d))
    {
      if k in sessions {
        e := Some(sessions[k]);
      } else {
        e := None;
      }
    }

    /** A handler has dialled connection c for client k. */
    method Create(k: Key, c: Conn, now: int)
      requires Valid() && c !in info
      modifies this
      ensures Valid()
      ensures sessions == old(sessions) && info == old(info)[c := Session(k, now)]
      ensures forall s: State, t {:trigger DoDial(s, t, true, c)} ::
        old(Agrees(s)) && s.now == now && Runs(s, t) && s.threads[t].Fresh? && s.threads[t].k == k ==>
          Agrees(DoDial(s, t, true, c))
    {
      info := info[c := Session(k, now)];
    }

    /** handleNewSession keeps the first session of a client; the later handler learns which one. */
    method Register(k: Key, c: Conn) returns (existing: Option<Conn>)
      requires Valid() && c in info
      modifies this
      ensures Valid()
      ensures info == old(info)
      ensures existing == if k in old(sessions) then Some(old(sessions)[k]) else None
      ensures k in sessions && sessions[k] == existing.GetOr(c) && sessions - {k} == old(sessions) - {k}
      ensures forall s: State, t {:trigger DoRegister(s, t)} ::
        old(Agrees(s)) && Runs(s, t) && s.threads[t].Dialled? && s.threads[t].k == k && s.threads[t].c == c ==>
          Agrees(DoRegister(s, t)) && (DoRegister(s, t).threads[t].Losing? <==> existing.Some?)
    {
      if k in sessions {
        existing := Some(sessions[k]);
      } else {
        sessions := sessions[k := c];
        existing := None;
      }
    }

    /** A packet in either direction keeps the session alive. */
    method Touch(e: Conn, now: int)
      requires Valid() && e in info
      modifies this
      ensures Valid()
      ensures sessions == old(sessions) && info == old(info)[e := Session(old(info)[e].client, now)]
      ensures forall s: State, t {:trigger DoTouch(s, t)} ::
        (old(Agrees(s)) && s.now == now && Runs(s, t) && (s.threads[t].Touching? || s.threads[t].Got?)
         && Met(s.threads[t]) == e) ==> Agrees(DoTouch(s, t))
    {
      info := info[e := info[e].(lastActivity := now)];
    }

    /** removeSession: only the caller that finds the session gets to close it. */
    method Remove(k: Key) returns (taken: Option<Conn>)
      requires Valid()
      modifies this
      ensures Valid()
      ensures info == old(info) && sessions == old(sessions) - {k}
      ensures taken == if k in old(sessions) then Some(old(sessions)[k]) else None
      ensures forall s: State, t {:trigger DoTake(s, t)} ::
        old(Agrees(s)) && Runs(s, t) && s.threads[t].Removing? && s.threads[t].keys != []
        && s.threads[t].keys[0] == k ==>
          Agrees(DoTake(s, t)) && (DoTake(s, t).threads[t].Closing? <==> taken.Some?)
    {
      if k in sessions {
        taken := Some(sessions[k]);
        sessions := sessions - {k};
      } else {
        taken := None;
        assert sessions - {k} == sessions;
      }
    }

    /** gcLoop's scan: the keys idle for longer than timeout, each once. It is a run of Inspect steps of the
        collector from any state the object agrees with. */
    method FindIdle(timeout: int, now: int, ghost s: State) returns (found: seq<Key>, ghost steps: seq<Action>)
      requires Valid() && Agrees(s) && Runs(s, GC) && s.threads[GC] == Scanning(now, sessions.Keys, [])
      ensures forall k :: k in found <==> k in sessions && now - info[sessions[k]].lastActivity > timeout
      ensures forall i, j :: 0 <= i < j < |found| ==> found[i] != found[j]
      ensures (forall a <- steps :: a.Inspect?) && Possible(timeout, s, steps)
      ensures After(timeout, s, steps) == Goto(s, GC, Scanning(now, {}, found))
    {
      found, steps := [], [];
      var todo: set<Key> := sessions.Keys;
      assert After(timeout, s, []) == Goto(s, GC, s.threads[GC]);
      while todo != {}
        invariant todo <= sessions.Keys
        invariant forall k :: k in found <==>
          k in sessions && k !in todo && now - info[sessions[k]].lastActivity > timeout
        invariant forall i, j :: 0 <= i < j < |found| ==> found[i] != found[j]
        invariant (forall a <- steps :: a.Inspect?) && Possible(timeout, s, steps)
        invariant After(timeout, s, steps) == Goto(s, GC, Scanning(now, todo, found))
        decreases |todo|
      {
        hide Possible, After, Next, Enabled, Goto;
        Nonempty(todo);
        var k :| k in todo;
        InspectOne(timeout, s, now, todo, found, k);
        Extend(timeout, s, steps, Inspect(k));
        steps := steps + [Inspect(k)];
        if now - info[sessions[k]].lastActivity > timeout {
          found := found + [k];
        }
        todo := todo - {k};
      }
    }
  }
}
