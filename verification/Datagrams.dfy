/** What becomes of every datagram: a log beside the runs of Sessions, and which steps a thread can take. */
module Datagrams {
  import opened Bytes
  import opened Sessions

  /** A datagram of client k, or one that was read from connection c for client k. */
  datatype Item = FromClient(k: Key, d: Data) | FromBackend(k: Key, c: Conn)

  /** In the hands of a thread, written as i-th of all to a backend or to a client, or given up when a dial or a write
      failed. */
  datatype Fate = With(t: Tid) | Written(i: int) | Answered(i: int) | GivenUp

  /** Everything that has arrived, in order, and where it is. */
  datatype Log = Log(items: seq<Item>, fates: seq<Fate>)

  const EMPTY: Log := Log([], [])

  function Arrives(l: Log, item: Item, t: Tid): Log {
    Log(l.items + [item], l.fates + [With(t)])
  }

  function Leaves(l: Log, t: Tid, f: Fate): Log {
    l.(fates := seq(|l.fates|, n requires 0 <= n < |l.fates| => if l.fates[n] == With(t) then f else l.fates[n]))
  }

  /** The log after a step; it is told by the step and the state before. */
  function Note(s: State, l: Log, a: Action): Log
    requires Enabled(s, a)
  {
    match a
    case Receive(k, d, spawn) => Arrives(l, FromClient(k, d), if k in s.sessions then MAIN else spawn)
    case Read(t, ok) => if ok then Arrives(l, FromBackend(s.threads[t].k, s.threads[t].c), t) else l
    case Dial(t, ok, _) => if ok then l else Leaves(l, t, GivenUp)
    case Send(t) => Leaves(l, t, Written(|s.toBackend|))
    case SendFirst(t, ok, _) => Leaves(l, t, if ok then Written(|s.toBackend|) else GivenUp)
    case Forward(t, ok) => Leaves(l, t, if ok then Answered(|s.toClient|) else GivenUp)
    case _ => l
  }

  ghost function Noted(timeout: int, s: State, l: Log, actions: seq<Action>): Log
    requires Possible(timeout, s, actions)
    decreases |actions|
  {
    if actions == [] then l
    else Noted(timeout, Next(timeout, s, actions[0]), Note(s, l, actions[0]), actions[1..])
  }

  /** What a thread has in its hands. */
  function Hand(th: Thread): Option<Item> {
    match th
    case Fresh(k, d) => Some(FromClient(k, d))
    case Dialled(k, d, _) => Some(FromClient(k, d))
    case Losing(k, d, _, _) => Some(FromClient(k, d))
    case Touching(k, d, _) => Some(FromClient(k, d))
    case Sending(k, d, _) => Some(FromClient(k, d))
    case First(k, d, _) => Some(FromClient(k, d))
    case Got(k, c) => Some(FromBackend(k, c))
    case Forwarding(k, c) => Some(FromBackend(k, c))
    case _ => None
  }

  function HandOf(s: State, t: Tid): Option<Item> {
    if t in s.threads then Hand(s.threads[t]) else None
  }

  /** The place the log gives holds the very item. */
  ghost predicate FateOk(s: State, item: Item, f: Fate) {
    match f
    case With(t) => HandOf(s, t) == Some(item)
    case Written(i) => 0 <= i < |s.toBackend| && item == FromClient(s.toBackend[i].1, s.toBackend[i].2)
    case Answered(i) => 0 <= i < |s.toClient| && item == FromBackend(s.toClient[i].0, s.toClient[i].1)
    case GivenUp => true
  }

  /** Every item is where the log has it, no two are in one place, and there is nothing anywhere that did not arrive. */
  ghost predicate Kept(s: State, l: Log) {
    && |l.items| == |l.fates|
    && (forall n :: 0 <= n < |l.fates| ==> FateOk(s, l.items[n], l.fates[n]))
    && (forall m, n :: 0 <= m < n < |l.fates| && l.fates[m] == l.fates[n] ==> l.fates[m].GivenUp?)
    && (forall t :: HandOf(s, t).Some? ==> With(t) in l.fates)
    && (forall i :: 0 <= i < |s.toBackend| ==> Written(i) in l.fates)
    && (forall i :: 0 <= i < |s.toClient| ==> Answered(i) in l.fates)
  }

  /** The step changes the hands of t alone. */
  ghost predicate OnlyHand(s: State, s': State, t: Tid) {
    forall u :: u != t ==> HandOf(s', u) == HandOf(s, u)
  }

  lemma Same(s: State, l: Log, s': State)
    requires Kept(s, l) && s'.toBackend == s.toBackend && s'.toClient == s.toClient
    requires forall t :: HandOf(s', t) == HandOf(s, t)
    ensures Kept(s', l)
  {
    hide HandOf;
    forall n | 0 <= n < |l.fates|
      ensures FateOk(s', l.items[n], l.fates[n])
    {
      assert FateOk(s, l.items[n], l.fates[n]);
    }
  }

  lemma Gained(s: State, l: Log, s': State, t: Tid, item: Item)
    requires Kept(s, l) && s'.toBackend == s.toBackend && s'.toClient == s.toClient
    requires OnlyHand(s, s', t) && HandOf(s, t).None? && HandOf(s', t) == Some(item)
    ensures Kept(s', Arrives(l, item, t))
  {
    hide HandOf;
    var l' := Arrives(l, item, t);
    assert With(t) == l'.fates[|l.fates|] && forall f <- l.fates :: f in l'.fates;
    forall n | 0 <= n < |l'.fates|
      ensures FateOk(s', l'.items[n], l'.fates[n])
    {
      if n < |l.fates| {
        assert FateOk(s, l.items[n], l.fates[n]);
      }
    }
    forall n | 0 <= n < |l.fates|
      ensures l.fates[n] != With(t)
    {
      assert FateOk(s, l.items[n], l.fates[n]);
    }
  }

  /** The places outside of hands that a step fills. */
  ghost predicate Fills(s: State, s': State, item: Item, f: Fate) {
    match f
    case With(_) => false
    case Written(i) =>
      && i == |s.toBackend| && |s'.toBackend| == i + 1 && s'.toBackend[..i] == s.toBackend
      && item == FromClient(s'.toBackend[i].1, s'.toBackend[i].2) && s'.toClient == s.toClient
    case Answered(i) =>
      && i == |s.toClient| && |s'.toClient| == i + 1 && s'.toClient[..i] == s.toClient
      && item == FromBackend(s'.toClient[i].0, s'.toClient[i].1) && s'.toBackend == s.toBackend
    case GivenUp => s'.toBackend == s.toBackend && s'.toClient == s.toClient
  }

  lemma MemberLeaves(l: Log, t: Tid, f: Fate, g: Fate)
    requires g in l.fates
    ensures (if g == With(t) then f else g) in Leaves(l, t, f).fates
  {
    var n :| 0 <= n < |l.fates| && l.fates[n] == g;
    assert Leaves(l, t, f).fates[n] == if g == With(t) then f else g;
  }

  lemma Gone(s: State, l: Log, s': State, t: Tid, f: Fate)
    requires Kept(s, l) && OnlyHand(s, s', t)
    requires HandOf(s, t).Some? && HandOf(s', t).None? && Fills(s, s', HandOf(s, t).value, f)
    ensures Kept(s', Leaves(l, t, f))
  {
    GoneFates(s, l, s', t, f);
    GoneCovers(s, l, s', t, f);
    hide HandOf, Leaves;
  }

  lemma GoneFates(s: State, l: Log, s': State, t: Tid, f: Fate)
    requires Kept(s, l) && OnlyHand(s, s', t)
    requires HandOf(s, t).Some? && HandOf(s', t).None? && Fills(s, s', HandOf(s, t).value, f)
    ensures var l' := Leaves(l, t, f);
            && |l'.items| == |l'.fates|
            && (forall n :: 0 <= n < |l'.fates| ==> FateOk(s', l'.items[n], l'.fates[n]))
            && (forall m, n :: 0 <= m < n < |l'.fates| && l'.fates[m] == l'.fates[n] ==> l'.fates[m].GivenUp?)
  {
    hide HandOf;
    var l' := Leaves(l, t, f);
    forall n | 0 <= n < |l'.fates|
      ensures FateOk(s', l'.items[n], l'.fates[n])
      ensures l.fates[n] != f || f.GivenUp?
    {
      assert FateOk(s, l.items[n], l.fates[n]);
      assert f.Written? ==> forall i :: 0 <= i < |s.toBackend| ==> s'.toBackend[i] == s'.toBackend[..f.i][i];
      assert f.Answered? ==> forall i :: 0 <= i < |s.toClient| ==> s'.toClient[i] == s'.toClient[..f.i][i];
    }
  }

  lemma GoneCovers(s: State, l: Log, s': State, t: Tid, f: Fate)
    requires Kept(s, l) && OnlyHand(s, s', t)
    requires HandOf(s, t).Some? && HandOf(s', t).None? && Fills(s, s', HandOf(s, t).value, f)
    ensures var l' := Leaves(l, t, f);
            && (forall u :: HandOf(s', u).Some? ==> With(u) in l'.fates)
            && (forall i :: 0 <= i < |s'.toBackend| ==> Written(i) in l'.fates)
            && (forall i :: 0 <= i < |s'.toClient| ==> Answered(i) in l'.fates)
  {
    hide HandOf, Leaves;
    MemberLeaves(l, t, f, With(t));
    forall g | g in l.fates && g != With(t)
      ensures g in Leaves(l, t, f).fates
    {
      MemberLeaves(l, t, f, g);
    }
  }

  // ----- Every step --------------------------------------------------------------------

  lemma ReceiveKept(s: State, l: Log, k: Key, d: Data, spawn: Tid)
    requires Inv(s) && Kept(s, l) && Enabled(s, Receive(k, d, spawn))
    ensures Kept(DoReceive(s, k, d, spawn), Note(s, l, Receive(k, d, spawn)))
  {
    hide Inv, Kept;
    Gained(s, l, DoReceive(s, k, d, spawn), if k in s.sessions then MAIN else spawn, FromClient(k, d));
  }

  lemma DialKept(s: State, l: Log, t: Tid, ok: bool, c: Conn)
    requires Kept(s, l) && Enabled(s, Dial(t, ok, c))
    ensures Kept(DoDial(s, t, ok, c), Note(s, l, Dial(t, ok, c)))
  {
    hide Kept;
    if ok {
      Same(s, l, DoDial(s, t, ok, c));
    } else {
      Gone(s, l, DoDial(s, t, ok, c), t, GivenUp);
    }
  }

  lemma SendKept(s: State, l: Log, t: Tid)
    requires Kept(s, l) && Enabled(s, Send(t))
    ensures Kept(DoSend(s, t), Note(s, l, Send(t)))
  {
    hide Kept;
    Gone(s, l, DoSend(s, t), t, Written(|s.toBackend|));
  }

  lemma SendFirstKept(s: State, l: Log, t: Tid, ok: bool, spawn: Tid)
    requires Kept(s, l) && Enabled(s, SendFirst(t, ok, spawn))
    ensures Kept(DoSendFirst(s, t, ok, spawn), Note(s, l, SendFirst(t, ok, spawn)))
  {
    hide Kept;
    Gone(s, l, DoSendFirst(s, t, ok, spawn), t, if ok then Written(|s.toBackend|) else GivenUp);
  }

  lemma ReadKept(s: State, l: Log, t: Tid, ok: bool)
    requires Kept(s, l) && Enabled(s, Read(t, ok))
    ensures Kept(DoRead(s, t, ok), Note(s, l, Read(t, ok)))
  {
    hide Kept;
    if ok {
      Gained(s, l, DoRead(s, t, ok), t, FromBackend(s.threads[t].k, s.threads[t].c));
    } else {
      Same(s, l, DoRead(s, t, ok));
    }
  }

  lemma ForwardKept(s: State, l: Log, t: Tid, ok: bool)
    requires Inv(s) && Kept(s, l) && Enabled(s, Forward(t, ok))
    ensures Kept(DoForward(s, t, ok), Note(s, l, Forward(t, ok)))
  {
    assert ThreadOk(s, t, s.threads[t]);
    hide Inv, Kept, ThreadPlaced, Follows;
    Gone(s, l, DoForward(s, t, ok), t, if ok then Answered(|s.toClient|) else GivenUp);
  }

  lemma LockedKept(timeout: int, s: State, l: Log, a: Action)
    requires Kept(s, l) && Enabled(s, a) && (a.Register? || a.CloseLoser? || a.Touch?)
    ensures Kept(Next(timeout, s, a), Note(s, l, a))
  {
    hide Kept;
    Same(s, l, Next(timeout, s, a));
  }

  lemma RemoverKept(timeout: int, s: State, l: Log, a: Action)
    requires Kept(s, l) && Enabled(s, a)
    requires a.Take? || a.Close? || a.Finish? || a.Tick? || a.Inspect? || a.ScanDone? || a.Elapse?
    ensures Kept(Next(timeout, s, a), Note(s, l, a))
  {
    hide Kept;
    Same(s, l, Next(timeout, s, a));
  }

  lemma StepKept(timeout: int, s: State, l: Log, a: Action)
    requires Inv(s) && Kept(s, l) && Enabled(s, a)
    ensures Kept(Next(timeout, s, a), Note(s, l, a))
  {
    hide Inv, Kept, Enabled, Note, DoReceive, DoDial, DoRegister, DoCloseLoser, DoTouch, DoSend, DoSendFirst, DoRead,
         DoForward, DoTake, DoClose, DoInspect;
    match a
    case Receive(k, d, spawn) => ReceiveKept(s, l, k, d, spawn);
    case Dial(t, ok, c) => DialKept(s, l, t, ok, c);
    case Send(t) => SendKept(s, l, t);
    case SendFirst(t, ok, spawn) => SendFirstKept(s, l, t, ok, spawn);
    case Read(t, ok) => ReadKept(s, l, t, ok);
    case Forward(t, ok) => ForwardKept(s, l, t, ok);
    case Register(_) => LockedKept(timeout, s, l, a);
    case CloseLoser(_) => LockedKept(timeout, s, l, a);
    case Touch(_) => LockedKept(timeout, s, l, a);
    case _ => RemoverKept(timeout, s, l, a);
  }

  lemma {:induction false} RunKept(timeout: int, s: State, l: Log, actions: seq<Action>)
    requires Inv(s) && Kept(s, l) && Possible(timeout, s, actions)
    ensures Kept(After(timeout, s, actions), Noted(timeout, s, l, actions))
    decreases |actions|
  {
    hide Inv, Kept, Enabled, Next, Note;
    if actions != [] {
      StepInv(timeout, s, actions[0]);
      StepKept(timeout, s, l, actions[0]);
      RunKept(timeout, Next(timeout, s, actions[0]), Note(s, l, actions[0]), actions[1..]);
    }
  }

  /** In every interleaving every datagram that arrived from a client or a backend is in the hands of one thread, or was
      written once, as it is and under its own client, or was given up when its dial or its write failed; and every
      datagram written had arrived. A handler that loses the race writes its datagram like any other. */
  lemma NothingLost(timeout: int, actions: seq<Action>)
    requires Possible(timeout, INIT, actions)
    ensures Kept(After(timeout, INIT, actions), Noted(timeout, INIT, EMPTY, actions))
  {
    InitInv();
    assert Kept(INIT, EMPTY);
    RunKept(timeout, INIT, EMPTY, actions);
  }

  // ----- Who can go on ------------------------------------------------------------------

  /** Main receives and writes, the collector waits, scans and removes, and nobody else does. */
  ghost predicate RoleOk(t: Tid, th: Thread) {
    if t == MAIN then th.Receiving? || th.Touching? || th.Sending?
    else if t == GC then th.Waiting? || th.Scanning? || th.Removing? || th.Closing?
    else !th.Receiving? && !th.Waiting? && !th.Scanning?
  }

  ghost predicate Roles(s: State) {
    forall t <- s.threads :: RoleOk(t, s.threads[t])
  }

  /** The steps that bring a datagram in or set up its session. */
  predicate SetsUp(a: Action) {
    a.Receive? || a.Dial? || a.Register? || a.CloseLoser?
  }

  predicate Passes(a: Action) {
    a.Touch? || a.Send? || a.SendFirst? || a.Read? || a.Forward?
  }

  lemma SetUpRoles(timeout: int, s: State, a: Action)
    requires MAIN in s.threads && GC in s.threads && Roles(s) && Enabled(s, a) && SetsUp(a)
    ensures Roles(Next(timeout, s, a))
  {
    assert RoleOk(GC, s.threads[GC]) && RoleOk(MAIN, s.threads[MAIN]);
  }

  lemma PassRoles(timeout: int, s: State, a: Action)
    requires MAIN in s.threads && GC in s.threads && Roles(s) && Enabled(s, a) && Passes(a)
    ensures Roles(Next(timeout, s, a))
  {
    assert RoleOk(GC, s.threads[GC]) && RoleOk(MAIN, s.threads[MAIN]);
  }

  lemma RemoverRoles(timeout: int, s: State, a: Action)
    requires MAIN in s.threads && GC in s.threads && Roles(s) && Enabled(s, a) && !SetsUp(a) && !Passes(a)
    ensures Roles(Next(timeout, s, a))
  {
    assert RoleOk(GC, s.threads[GC]) && RoleOk(MAIN, s.threads[MAIN]);
  }

  lemma StepRoles(timeout: int, s: State, a: Action)
    requires Inv(s) && Roles(s) && Enabled(s, a)
    ensures Roles(Next(timeout, s, a))
  {
    hide Placed, Owned, OneWinner, ThreadOk, Roles, Enabled, Next;
    if SetsUp(a) {
      SetUpRoles(timeout, s, a);
    } else if Passes(a) {
      PassRoles(timeout, s, a);
    } else {
      RemoverRoles(timeout, s, a);
    }
  }

  lemma {:induction false} RunRoles(timeout: int, s: State, actions: seq<Action>)
    requires Inv(s) && Roles(s) && Possible(timeout, s, actions)
    ensures Roles(After(timeout, s, actions))
    decreases |actions|
  {
    hide Inv, Roles, Enabled, Next;
    if actions != [] {
      StepInv(timeout, s, actions[0]);
      StepRoles(timeout, s, actions[0]);
      RunRoles(timeout, Next(timeout, s, actions[0]), actions[1..]);
    }
  }

  /** The step that thread t takes next, whether its I/O succeeds or not; c and spawn are new. A relay can only read on
      as long as nobody closed its connection. */
  ghost predicate CanGoOn(s: State, t: Tid, c: Conn, spawn: Tid, k: Key, d: Data)
    requires t in s.threads
  {
    match s.threads[t]
    case Receiving => Enabled(s, Receive(k, d, spawn))
    case Fresh(_, _) => forall ok :: Enabled(s, Dial(t, ok, c))
    case Dialled(_, _, _) => MapFree(s) ==> Enabled(s, Register(t))
    case Losing(_, _, _, _) => Enabled(s, CloseLoser(t))
    case Touching(_, _, _) => Enabled(s, Touch(t))
    case Sending(_, _, _) => Enabled(s, Send(t))
    case First(_, _, _) => forall ok :: Enabled(s, SendFirst(t, ok, spawn))
    case Relaying(_, e) =>
      Enabled(s, Read(t, false)) && e in s.place && (Enabled(s, Read(t, true)) <==> s.place[e] != Shut)
    case Got(_, _) => Enabled(s, Touch(t))
    case Forwarding(_, _) => forall ok :: Enabled(s, Forward(t, ok))
    case Removing(keys) => if keys == [] then Enabled(s, Finish(t)) else MapFree(s) ==> Enabled(s, Take(t))
    case Closing(_, _) => Enabled(s, Close(t))
    case Waiting => Enabled(s, Tick)
    case Scanning(_, todo, _) => if todo == {} then Enabled(s, ScanDone) else forall x <- todo :: Enabled(s, Inspect(x))
    case Done => true
  }

  /** In every interleaving no thread is stuck: it can go on at once, or as soon as the collector, which never waits for
      anybody in its scan, has left the map. */
  lemma NobodyStuck(timeout: int, actions: seq<Action>, t: Tid, c: Conn, spawn: Tid, k: Key, d: Data)
    requires Possible(timeout, INIT, actions)
    requires var s := After(timeout, INIT, actions); t in s.threads && c !in s.info && spawn !in s.threads
    ensures var s := After(timeout, INIT, actions);
            RoleOk(t, s.threads[t]) && CanGoOn(s, t, c, spawn, k, d)
  {
    InitInv();
    RunInv(timeout, INIT, actions);
    assert Roles(INIT);
    RunRoles(timeout, INIT, actions);
    GoesOn(After(timeout, INIT, actions), t, c, spawn, k, d);
    hide Inv, Possible, After;
  }

  lemma GoesOn(s: State, t: Tid, c: Conn, spawn: Tid, k: Key, d: Data)
    requires Inv(s) && Roles(s) && t in s.threads && c !in s.info && spawn !in s.threads
    ensures CanGoOn(s, t, c, spawn, k, d)
  {
    var th := s.threads[t];
    assert ThreadOk(s, t, th) && RoleOk(t, th);
    hide OneWinner, Follows, Roles, Enabled, At;
    if th.Relaying? {
      RelayGoesOn(s, t);
    } else if th.Scanning? {
      ScanGoesOn(s);
    } else if th.Receiving? || th.Waiting? || th.Removing? || th.Fresh? || th.First? || th.Sending? || th.Dialled? {
      FreeGoesOn(s, t, c, spawn, k, d);
    } else {
      BoundGoesOn(s, t, c, spawn, k, d);
    }
  }

  lemma FreeGoesOn(s: State, t: Tid, c: Conn, spawn: Tid, k: Key, d: Data)
    requires t in s.threads && c !in s.info && spawn !in s.threads && RoleOk(t, s.threads[t])
    requires var th := s.threads[t];
             th.Receiving? || th.Waiting? || th.Removing? || th.Fresh? || th.First? || th.Sending? || th.Dialled?
    ensures CanGoOn(s, t, c, spawn, k, d)
  {
  }

  lemma BoundGoesOn(s: State, t: Tid, c: Conn, spawn: Tid, k: Key, d: Data)
    requires t in s.threads && Placed(s) && ThreadPlaced(s.place, t, s.threads[t]) && ThreadOwns(s.info, s.threads[t])
    requires var th := s.threads[t];
             th.Losing? || th.Touching? || th.Got? || th.Forwarding? || th.Closing? || th.Done?
    ensures CanGoOn(s, t, c, spawn, k, d)
  {
    hide At;
  }

  lemma RelayGoesOn(s: State, t: Tid)
    requires Placed(s) && t in s.threads && s.threads[t].Relaying? && s.threads[t].c in s.info
    ensures var e := s.threads[t].c;
            Enabled(s, Read(t, false)) && e in s.place && (Enabled(s, Read(t, true)) <==> s.place[e] != Shut)
  {
    hide At;
  }

  lemma ScanGoesOn(s: State)
    requires Inv(s) && s.threads[GC].Scanning?
    ensures var todo := s.threads[GC].todo;
            if todo == {} then Enabled(s, ScanDone) else forall x <- todo :: Enabled(s, Inspect(x))
  {
    assert ThreadOk(s, GC, s.threads[GC]);
    hide OneWinner, Follows, At;
  }
}
