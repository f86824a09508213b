/** What removals are for. History variables watch the step system of Sessions: which connection a relay gave up,
    which sessions a scan found idle, and how often a key was removed. They influence no step. */
module Removals {
  import opened Sessions

  /** Why a thread removes keys: its own connection failed, or a scan that began at `since` met idle sessions. */
  datatype Aim = Own(c: Conn) | Sweep(since: int, met: map<Key, Conn>)

  /** removals counts the removals of each key; born tells how many there had been when a connection registered. hot
      and sent are the datagrams of the receive loop: accepted for a session, and written to its backend. */
  datatype History = History(removals: map<Key, int>, born: map<Conn, int>, aims: map<Tid, Aim>,
                             hot: seq<(Conn, Key, Data)>, sent: seq<(Conn, Key, Data)>)

  const BLANK: History := History(map[], map[], map[], [], [])

  function Count(h: History, k: Key): int {
    if k in h.removals then h.removals[k] else 0
  }

  function GaveUp(h: History, t: Tid, ok: bool, c: Conn): History {
    if ok then h else h.(aims := h.aims[t := Own(c)])
  }

  function Inspected(timeout: int, s: State, h: History, k: Key): History
    requires Enabled(s, Inspect(k))
  {
    var now, met := s.threads[GC].now, if GC in h.aims && h.aims[GC].Sweep? then h.aims[GC].met else map[];
    if now - s.info[s.sessions[k]].lastActivity > timeout then
      h.(aims := h.aims[GC := Sweep(now, met[k := s.sessions[k]])])
    else h
  }

  /** What is recorded of step a from state s. */
  function Record(timeout: int, s: State, h: History, a: Action): History
    requires Enabled(s, a)
  {
    match a
    case Receive(k, d, _) => if k in s.sessions then h.(hot := h.hot + [(s.sessions[k], k, d)]) else h
    case Register(t) =>
      var th := s.threads[t];
      if th.k in s.sessions then h else h.(born := h.born[th.c := Count(h, th.k)])
    case Send(t) =>
      var th := s.threads[t];
      if t == MAIN then h.(sent := h.sent + [(th.e, th.k, th.d)]) else h
    case SendFirst(t, ok, _) => GaveUp(h, t, ok, s.threads[t].c)
    case Read(t, ok) => GaveUp(h, t, ok, s.threads[t].c)
    case Forward(t, ok) => GaveUp(h, t, ok, s.threads[t].c)
    case Take(t) =>
      var k := s.threads[t].keys[0];
      if k in s.sessions then h.(removals := h.removals[k := Count(h, k) + 1]) else h
    case Tick => h.(aims := h.aims[GC := Sweep(s.now, map[])])
    case Inspect(k) => Inspected(timeout, s, h, k)
    case _ => h
  }

  ghost function Recall(timeout: int, s: State, h: History, actions: seq<Action>): History
    requires Possible(timeout, s, actions)
    decreases |actions|
  {
    if actions == [] then h
    else Recall(timeout, Next(timeout, s, actions[0]), Record(timeout, s, h, actions[0]), actions[1..])
  }

  // ----- Registrations -------------------------------------------------------------

  ghost predicate Registered(s: State, k: Key, c: Conn) {
    k in s.sessions && s.sessions[k] == c
  }

  ghost predicate BirthOk(s: State, h: History, c: Conn) {
    && c in s.info && c in s.place && c in h.born && !s.place[c].ByHandler?
    && h.born[c] <= Count(h, s.info[c].client)
    && (Registered(s, s.info[c].client, c) <==> h.born[c] == Count(h, s.info[c].client))
  }

  /** A connection is in the map iff no removal of its key happened since it registered. */
  ghost predicate Births(s: State, h: History) {
    && (forall c <- h.born :: BirthOk(s, h, c))
    && (forall k <- s.sessions :: s.sessions[k] in h.born)
  }

  lemma RegisterBirths(s: State, h: History, t: Tid)
    requires Inv(s) && Births(s, h) && Enabled(s, Register(t))
    ensures Births(DoRegister(s, t), Record(0, s, h, Register(t)))
  {
    var th := s.threads[t];
    assert ThreadOk(s, t, th);
    hide OneWinner, Follows;
    var s', h' := DoRegister(s, t), Record(0, s, h, Register(t));
    forall c | c in h'.born
      ensures BirthOk(s', h', c)
    {
      if c in h.born {
        assert BirthOk(s, h, c);
      }
    }
  }

  lemma TakeBirths(s: State, h: History, t: Tid)
    requires Inv(s) && Births(s, h) && Enabled(s, Take(t))
    ensures Births(DoTake(s, t), Record(0, s, h, Take(t)))
  {
    hide OneWinner, ThreadOk;
    var s', h' := DoTake(s, t), Record(0, s, h, Take(t));
    forall c | c in h'.born
      ensures BirthOk(s', h', c)
    {
      assert BirthOk(s, h, c);
    }
  }

  /** What every other step leaves of the shared state. */
  ghost predicate Quiet(s: State, s': State) {
    && s'.sessions == s.sessions
    && (forall c <- s.info :: c in s'.info && s'.info[c].client == s.info[c].client)
    && (forall c <- s.place :: c in s'.place && (s'.place[c] == s.place[c] || s'.place[c].Shut?))
  }

  /** The steps that close a connection, dial one or record activity. */
  predicate Marks(a: Action) {
    a.Dial? || a.CloseLoser? || a.Close? || a.Touch? || a.Forward? || a.Read?
  }

  lemma QuietMark(timeout: int, s: State, a: Action)
    requires Placed(s) && Enabled(s, a) && Marks(a)
    ensures Quiet(s, Next(timeout, s, a))
  {
    hide At;
  }

  lemma QuietStep(timeout: int, s: State, a: Action)
    requires Placed(s) && Enabled(s, a) && !a.Register? && !a.Take?
    ensures Quiet(s, Next(timeout, s, a))
  {
    if Marks(a) {
      QuietMark(timeout, s, a);
      hide *;
    } else {
      hide Placed;
    }
  }

  lemma QuietRecord(timeout: int, s: State, h: History, a: Action)
    requires Enabled(s, a) && !a.Register? && !a.Take?
    ensures Record(timeout, s, h, a).born == h.born && Record(timeout, s, h, a).removals == h.removals
  {
  }

  /** Steps that neither register nor remove. */
  lemma OtherBirths(timeout: int, s: State, h: History, a: Action)
    requires Inv(s) && Births(s, h) && Enabled(s, a) && !a.Register? && !a.Take?
    ensures Births(Next(timeout, s, a), Record(timeout, s, h, a))
  {
    QuietStep(timeout, s, a);
    QuietRecord(timeout, s, h, a);
    hide Inv, Enabled, Next, Record;
    var s', h' := Next(timeout, s, a), Record(timeout, s, h, a);
    forall c | c in h'.born
      ensures BirthOk(s', h', c)
    {
      assert BirthOk(s, h, c);
    }
  }

  // ----- Aims ----------------------------------------------------------------------

  /** The session a scan met for k was idle as of the scan, or has been touched since the scan began. */
  ghost predicate Swept(timeout: int, s: State, h: History, since: int, met: map<Key, Conn>, k: Key) {
    && k in met && met[k] in s.info && met[k] in h.born && s.info[met[k]].client == k
    && (since - s.info[met[k]].lastActivity > timeout || s.info[met[k]].lastActivity >= since)
  }

  ghost predicate SweptAll(timeout: int, s: State, h: History, keys: seq<Key>) {
    && GC in h.aims && h.aims[GC].Sweep? && h.aims[GC].since <= s.now
    && forall i :: 0 <= i < |keys| ==> Swept(timeout, s, h, h.aims[GC].since, h.aims[GC].met, keys[i])
  }

  /** The collector's thread: what it has found is swept. */
  ghost predicate CollectorOk(timeout: int, s: State, h: History, th: Thread) {
    match th
    case Waiting => true
    case Scanning(now, _, found) => SweptAll(timeout, s, h, found) && h.aims[GC].since == now
    case Removing(keys) => SweptAll(timeout, s, h, keys)
    case Closing(_, keys) => SweptAll(timeout, s, h, keys)
    case _ => false
  }

  /** Any other thread removes for the connection it had registered. */
  ghost predicate RelayOk(s: State, h: History, t: Tid, th: Thread) {
    && (th.First? || th.Relaying? || th.Got? || th.Forwarding? ==> th.c in h.born)
    && (th.Removing? && th.keys != [] ==>
          t in h.aims && h.aims[t].Own? && h.aims[t].c in h.born && |th.keys| == 1
          && Owns(s.info, th.keys[0], h.aims[t].c))
    && (th.Closing? ==> th.keys == []) && !th.Scanning?
  }

  ghost predicate AimOk(timeout: int, s: State, h: History, t: Tid, th: Thread) {
    if t == GC then CollectorOk(timeout, s, h, th) else RelayOk(s, h, t, th)
  }

  ghost predicate Aims(timeout: int, s: State, h: History) {
    forall t <- s.threads :: AimOk(timeout, s, h, t, s.threads[t])
  }

  /** How clients, activity and time may change. */
  ghost predicate Grows(s: State, s': State) {
    && s.now <= s'.now
    && (forall c <- s.info :: c in s'.info && s'.info[c].client == s.info[c].client
         && (s'.info[c].lastActivity == s.info[c].lastActivity || s'.info[c].lastActivity >= s.now))
  }

  lemma SweptKept(timeout: int, s: State, h: History, s': State, h': History, keys: seq<Key>)
    requires SweptAll(timeout, s, h, keys) && Grows(s, s') && h.born.Keys <= h'.born.Keys
    requires GC in h'.aims && h'.aims[GC] == h.aims[GC]
    ensures SweptAll(timeout, s', h', keys)
  {
    var since, met := h.aims[GC].since, h.aims[GC].met;
    forall i | 0 <= i < |keys|
      ensures Swept(timeout, s', h', since, met, keys[i])
    {
      assert Swept(timeout, s, h, since, met, keys[i]);
      var c := met[keys[i]];
      assert c in s'.info && s'.info[c].client == s.info[c].client;
    }
  }

  lemma AimKept(timeout: int, s: State, h: History, s': State, h': History, t: Tid, th: Thread)
    requires AimOk(timeout, s, h, t, th) && Grows(s, s') && h.born.Keys <= h'.born.Keys
    requires t in h.aims ==> t in h'.aims && h'.aims[t] == h.aims[t]
    ensures AimOk(timeout, s', h', t, th)
  {
    if t == GC {
      match th
      case Scanning(_, _, found) => SweptKept(timeout, s, h, s', h', found);
      case Removing(keys) => SweptKept(timeout, s, h, s', h', keys);
      case Closing(_, keys) => SweptKept(timeout, s, h, s', h', keys);
      case _ =>
    }
  }

  /** The steps of a handler and of the way to a backend. */
  predicate Early(a: Action) {
    a.Receive? || a.Dial? || a.Register? || a.CloseLoser? || a.Touch? || a.Send? || a.SendFirst?
  }

  ghost predicate SameInfo(s: State, s': State) {
    s'.info == s.info && s'.now >= s.now
  }

  lemma ArrivalInfo(timeout: int, s: State, a: Action)
    requires Enabled(s, a) && (a.Receive? || a.Register? || a.CloseLoser?)
    ensures SameInfo(s, Next(timeout, s, a))
  {
  }

  lemma TrafficInfo(timeout: int, s: State, a: Action)
    requires Enabled(s, a) && (a.Send? || a.SendFirst? || a.Read? || a.Forward?)
    ensures SameInfo(s, Next(timeout, s, a))
  {
  }

  lemma RemoverInfo(timeout: int, s: State, a: Action)
    requires Enabled(s, a) && (a.Take? || a.Close? || a.Finish?)
    ensures SameInfo(s, Next(timeout, s, a))
  {
  }

  lemma ScanInfo(timeout: int, s: State, a: Action)
    requires Enabled(s, a) && (a.Tick? || a.Inspect? || a.ScanDone? || a.Elapse?)
    ensures SameInfo(s, Next(timeout, s, a))
  {
  }

  lemma StepGrows(timeout: int, s: State, a: Action)
    requires Enabled(s, a)
    ensures Grows(s, Next(timeout, s, a))
  {
    if !a.Dial? && !a.Touch? {
      if a.Receive? || a.Register? || a.CloseLoser? {
        ArrivalInfo(timeout, s, a);
      } else if a.Take? || a.Close? || a.Finish? {
        RemoverInfo(timeout, s, a);
      } else if a.Tick? || a.Inspect? || a.ScanDone? || a.Elapse? {
        ScanInfo(timeout, s, a);
      } else {
        TrafficInfo(timeout, s, a);
      }
      hide Enabled, Next;
    }
  }

  lemma RecordGrows(timeout: int, s: State, h: History, a: Action)
    requires Enabled(s, a)
    ensures h.born.Keys <= Record(timeout, s, h, a).born.Keys
  {
  }

  // ----- One step of a thread --------------------------------------------------------

  /** The threads a step moves. */
  predicate Moves(s: State, a: Action, t: Tid)
    requires Enabled(s, a)
  {
    match a
    case Receive(k, _, spawn) => t == if k in s.sessions then MAIN else spawn
    case Dial(u, _, _) => t == u
    case Register(u) => t == u
    case CloseLoser(u) => t == u
    case Touch(u) => t == u
    case Send(u) => t == u
    case SendFirst(u, ok, spawn) => t == u || (ok && t == spawn)
    case Read(u, _) => t == u
    case Forward(u, _) => t == u
    case Take(u) => t == u
    case Close(u) => t == u
    case Finish(u) => t == u
    case Tick => t == GC
    case Inspect(_) => t == GC
    case ScanDone => t == GC
    case Elapse(_) => false
  }

  ghost predicate Same(s: State, s': State, t: Tid) {
    (t in s'.threads <==> t in s.threads) && (t in s.threads ==> s'.threads[t] == s.threads[t])
  }

  lemma EarlyThread(timeout: int, s: State, a: Action, t: Tid)
    requires Enabled(s, a) && !Moves(s, a, t) && Early(a)
    ensures Same(s, Next(timeout, s, a), t)
  {
  }

  lemma LateThread(timeout: int, s: State, a: Action, t: Tid)
    requires Enabled(s, a) && !Moves(s, a, t) && !Early(a)
    ensures Same(s, Next(timeout, s, a), t)
  {
  }

  lemma SameAim(timeout: int, s: State, h: History, a: Action, t: Tid)
    requires Enabled(s, a) && !Moves(s, a, t)
    ensures var h' := Record(timeout, s, h, a); t in h.aims ==> t in h'.aims && h'.aims[t] == h.aims[t]
  {
  }

  /** A thread that gives its connection up. */
  lemma GaveUpAim(timeout: int, s: State, h: History, t: Tid, th: Thread)
    requires Inv(s) && Runs(s, t) && s.threads[t] == th && AimOk(timeout, s, h, t, th)
    requires th.First? || th.Relaying? || th.Forwarding?
    ensures t != GC
    ensures AimOk(timeout, Goto(s, t, Removing([th.k])), GaveUp(h, t, false, th.c), t, Removing([th.k]))
  {
    assert ThreadOk(s, t, th);
    hide Placed, Owned, OneWinner, ThreadPlaced, Follows;
  }

  lemma DialMoved(timeout: int, s: State, h: History, a: Action, t: Tid)
    requires Inv(s) && Aims(timeout, s, h) && Enabled(s, a) && a.Dial? && Moves(s, a, t)
    ensures var s' := Next(timeout, s, a);
            t in s'.threads && AimOk(timeout, s', Record(timeout, s, h, a), t, s'.threads[t])
  {
    hide Placed, Owned, OneWinner, ThreadOk;
    assert AimOk(timeout, s, h, t, s.threads[t]);
  }

  lemma ArrivalMoved(timeout: int, s: State, h: History, a: Action, t: Tid)
    requires Inv(s) && Aims(timeout, s, h) && Enabled(s, a) && (a.Receive? || a.Dial? || a.CloseLoser?)
    requires Moves(s, a, t)
    ensures var s' := Next(timeout, s, a);
            t in s'.threads && AimOk(timeout, s', Record(timeout, s, h, a), t, s'.threads[t])
  {
    hide Placed, Owned, OneWinner, ThreadOk;
    if a.Dial? {
      DialMoved(timeout, s, h, a, t);
    } else {
      assert t in s.threads ==> AimOk(timeout, s, h, t, s.threads[t]);
    }
  }

  lemma EarlyMoved(timeout: int, s: State, h: History, a: Action, t: Tid)
    requires Inv(s) && Aims(timeout, s, h) && Enabled(s, a) && (a.Register? || a.Touch? || a.Send?) && Moves(s, a, t)
    ensures var s' := Next(timeout, s, a);
            t in s'.threads && AimOk(timeout, s', Record(timeout, s, h, a), t, s'.threads[t])
  {
    hide Placed, Owned, OneWinner, ThreadOk;
    assert AimOk(timeout, s, h, t, s.threads[t]);
  }

  lemma SendFirstMoved(timeout: int, s: State, h: History, a: Action, t: Tid)
    requires Inv(s) && Aims(timeout, s, h) && Enabled(s, a) && a.SendFirst? && Moves(s, a, t)
    ensures var s' := Next(timeout, s, a);
            t in s'.threads && AimOk(timeout, s', Record(timeout, s, h, a), t, s'.threads[t])
  {
    assert AimOk(timeout, s, h, a.t, s.threads[a.t]);
    if !a.ok {
      GaveUpAim(timeout, s, h, t, s.threads[t]);
    }
    hide Placed, Owned, OneWinner, ThreadOk;
  }

  lemma RelayMoved(timeout: int, s: State, h: History, a: Action, t: Tid)
    requires Inv(s) && Aims(timeout, s, h) && Enabled(s, a) && (a.Read? || a.Forward?) && Moves(s, a, t)
    ensures var s' := Next(timeout, s, a);
            t in s'.threads && AimOk(timeout, s', Record(timeout, s, h, a), t, s'.threads[t])
  {
    assert AimOk(timeout, s, h, t, s.threads[t]);
    if !a.ok {
      GaveUpAim(timeout, s, h, t, s.threads[t]);
    }
    hide Placed, Owned, OneWinner, ThreadOk;
  }

  lemma SweptRest(timeout: int, s: State, h: History, keys: seq<Key>)
    requires SweptAll(timeout, s, h, keys) && keys != []
    ensures SweptAll(timeout, s, h, keys[1..])
  {
    hide Swept;
    assert forall i :: 0 <= i < |keys[1..]| ==> keys[1..][i] == keys[i + 1];
  }

  lemma TakeMoved(timeout: int, s: State, h: History, t: Tid)
    requires Inv(s) && Aims(timeout, s, h) && Enabled(s, Take(t))
    ensures var s' := DoTake(s, t);
            t in s'.threads && AimOk(timeout, s', Record(timeout, s, h, Take(t)), t, s'.threads[t])
  {
    hide Placed, Owned, OneWinner, ThreadOk;
    var th := s.threads[t];
    assert AimOk(timeout, s, h, t, th);
    if t == GC {
      SweptRest(timeout, s, h, th.keys);
      SweptKept(timeout, s, h, DoTake(s, t), Record(timeout, s, h, Take(t)), th.keys[1..]);
    }
  }

  lemma RemoverMoved(timeout: int, s: State, h: History, a: Action, t: Tid)
    requires Inv(s) && Aims(timeout, s, h) && Enabled(s, a) && (a.Close? || a.Finish?) && Moves(s, a, t)
    ensures var s' := Next(timeout, s, a);
            t in s'.threads && AimOk(timeout, s', Record(timeout, s, h, a), t, s'.threads[t])
  {
    hide Placed, Owned, OneWinner, ThreadOk;
    var th := s.threads[t];
    assert AimOk(timeout, s, h, t, th);
    if t == GC && a.Close? {
      SweptKept(timeout, s, h, Next(timeout, s, a), h, th.keys);
    }
  }

  lemma ScanMoved(timeout: int, s: State, h: History, a: Action)
    requires Inv(s) && Aims(timeout, s, h) && Enabled(s, a) && (a.Tick? || a.ScanDone?)
    ensures var s' := Next(timeout, s, a);
            GC in s'.threads && AimOk(timeout, s', Record(timeout, s, h, a), GC, s'.threads[GC])
  {
    hide Placed, Owned, OneWinner, ThreadOk;
    assert AimOk(timeout, s, h, GC, s.threads[GC]);
    if a.ScanDone? {
      SweptKept(timeout, s, h, Next(timeout, s, a), h, s.threads[GC].found);
    }
  }

  lemma InspectMoved(timeout: int, s: State, h: History, k: Key)
    requires Inv(s) && Births(s, h) && Aims(timeout, s, h) && Enabled(s, Inspect(k))
    ensures var s' := DoInspect(timeout, s, k);
            GC in s'.threads && AimOk(timeout, s', Inspected(timeout, s, h, k), GC, s'.threads[GC])
  {
    assert Owns(s.info, k, s.sessions[k]);
    assert s.sessions[k] in h.born;
    hide Placed, Owned, OneWinner, ThreadOk, Births;
    var th := s.threads[GC];
    assert AimOk(timeout, s, h, GC, th);
    var s', h' := DoInspect(timeout, s, k), Inspected(timeout, s, h, k);
    var c := s.sessions[k];
    if th.now - s.info[c].lastActivity > timeout {
      var found := th.found + [k];
      forall i | 0 <= i < |found|
        ensures Swept(timeout, s', h', th.now, h'.aims[GC].met, found[i])
      {
        if i < |th.found| {
          assert Swept(timeout, s, h, th.now, h.aims[GC].met, th.found[i]);
        }
      }
    } else {
      SweptKept(timeout, s, h, s', h', th.found);
    }
  }

  lemma Moved(timeout: int, s: State, h: History, a: Action, t: Tid)
    requires Inv(s) && Births(s, h) && Aims(timeout, s, h) && Enabled(s, a) && Moves(s, a, t)
    ensures var s' := Next(timeout, s, a);
            t in s'.threads && AimOk(timeout, s', Record(timeout, s, h, a), t, s'.threads[t])
  {
    hide Inv, Births, Aims, AimOk, DoTake, DoInspect, Inspected;
    match a
    case SendFirst(_, _, _) => SendFirstMoved(timeout, s, h, a, t);
    case Read(_, _) => RelayMoved(timeout, s, h, a, t);
    case Forward(_, _) => RelayMoved(timeout, s, h, a, t);
    case Take(_) => TakeMoved(timeout, s, h, t);
    case Close(_) => RemoverMoved(timeout, s, h, a, t);
    case Finish(_) => RemoverMoved(timeout, s, h, a, t);
    case Tick => ScanMoved(timeout, s, h, a);
    case ScanDone => ScanMoved(timeout, s, h, a);
    case Inspect(k) => InspectMoved(timeout, s, h, k);
    case Elapse(_) =>
    case Receive(_, _, _) => ArrivalMoved(timeout, s, h, a, t);
    case Dial(_, _, _) => ArrivalMoved(timeout, s, h, a, t);
    case CloseLoser(_) => ArrivalMoved(timeout, s, h, a, t);
    case _ => EarlyMoved(timeout, s, h, a, t);
  }

  lemma StepAims(timeout: int, s: State, h: History, a: Action)
    requires Inv(s) && Births(s, h) && Aims(timeout, s, h) && Enabled(s, a)
    ensures Aims(timeout, Next(timeout, s, a), Record(timeout, s, h, a))
  {
    hide Inv, Births, AimOk, Next, Record, Enabled, Moves, Grows;
    var s', h' := Next(timeout, s, a), Record(timeout, s, h, a);
    StepGrows(timeout, s, a);
    RecordGrows(timeout, s, h, a);
    forall t | t in s'.threads
      ensures AimOk(timeout, s', h', t, s'.threads[t])
    {
      if Moves(s, a, t) {
        Moved(timeout, s, h, a, t);
      } else {
        if Early(a) {
          EarlyThread(timeout, s, a, t);
        } else {
          LateThread(timeout, s, a, t);
        }
        SameAim(timeout, s, h, a, t);
        assert AimOk(timeout, s, h, t, s.threads[t]);
        AimKept(timeout, s, h, s', h', t, s.threads[t]);
      }
    }
  }

  lemma StepBirths(timeout: int, s: State, h: History, a: Action)
    requires Inv(s) && Births(s, h) && Enabled(s, a)
    ensures Births(Next(timeout, s, a), Record(timeout, s, h, a))
  {
    hide Inv, Births, DoRegister, DoTake;
    match a
    case Register(t) => RegisterBirths(s, h, t);
    case Take(t) => TakeBirths(s, h, t);
    case _ => OtherBirths(timeout, s, h, a);
  }

  // ----- The hot path ------------------------------------------------------------------

  /** What the receive loop is about to write. */
  function Pending(th: Thread): seq<(Conn, Key, Data)> {
    if th.Touching? || th.Sending? then [(th.e, th.k, th.d)] else []
  }

  /** Everything accepted for a session has been written, but for the datagram in hand. */
  ghost predicate InOrder(s: State, h: History) {
    && MAIN in s.threads && h.hot == h.sent + Pending(s.threads[MAIN])
    && (s.threads[MAIN].Receiving? || s.threads[MAIN].Touching? || s.threads[MAIN].Sending?)
  }

  lemma StepOrder(timeout: int, s: State, h: History, a: Action)
    requires InOrder(s, h) && Enabled(s, a)
    ensures InOrder(Next(timeout, s, a), Record(timeout, s, h, a))
  {
    if Moves(s, a, MAIN) {
      MainOrder(timeout, s, h, a);
    } else if Early(a) {
      EarlyThread(timeout, s, a, MAIN);
      SameOrder(timeout, s, h, a);
      hide Enabled, Next, Moves, Record;
    } else {
      LateThread(timeout, s, a, MAIN);
      SameOrder(timeout, s, h, a);
      hide Enabled, Next, Moves, Record;
    }
  }

  lemma SameOrder(timeout: int, s: State, h: History, a: Action)
    requires Enabled(s, a) && !Moves(s, a, MAIN)
    ensures Record(timeout, s, h, a).hot == h.hot && Record(timeout, s, h, a).sent == h.sent
  {
  }

  lemma MainOrder(timeout: int, s: State, h: History, a: Action)
    requires InOrder(s, h) && Enabled(s, a) && Moves(s, a, MAIN)
    ensures InOrder(Next(timeout, s, a), Record(timeout, s, h, a))
  {
    match a
    case Receive(_, _, _) =>
    case Touch(_) =>
    case Send(_) =>
  }

  // ----- What holds in every interleaving ----------------------------------------------

  ghost predicate Told(timeout: int, s: State, h: History) {
    Inv(s) && Births(s, h) && Aims(timeout, s, h) && InOrder(s, h)
  }

  lemma {:induction false} RunTold(timeout: int, s: State, h: History, actions: seq<Action>)
    requires Told(timeout, s, h) && Possible(timeout, s, actions)
    ensures Told(timeout, After(timeout, s, actions), Recall(timeout, s, h, actions))
    decreases |actions|
  {
    hide Inv, Births, Aims, InOrder, Enabled, Next, Record;
    if actions != [] {
      var a := actions[0];
      StepInv(timeout, s, a);
      StepBirths(timeout, s, h, a);
      StepAims(timeout, s, h, a);
      StepOrder(timeout, s, h, a);
      RunTold(timeout, Next(timeout, s, a), Record(timeout, s, h, a), actions[1..]);
    }
  }

  lemma AllTold(timeout: int, actions: seq<Action>)
    requires Possible(timeout, INIT, actions)
    ensures Told(timeout, After(timeout, INIT, actions), Recall(timeout, INIT, BLANK, actions))
  {
    InitInv();
    assert Told(timeout, INIT, BLANK);
    hide Told;
    RunTold(timeout, INIT, BLANK, actions);
  }

  /** A relay or first writer about to remove its key takes the connection it gave up iff no removal of that key
      happened since that connection registered; otherwise it takes nothing, or a later session. */
  lemma RelayTakesItsOwnIff(timeout: int, actions: seq<Action>, t: Tid)
    requires Possible(timeout, INIT, actions) && t != GC
    requires var s := After(timeout, INIT, actions); t in s.threads && s.threads[t].Removing? && s.threads[t].keys != []
    ensures var s, h := After(timeout, INIT, actions), Recall(timeout, INIT, BLANK, actions);
            && t in h.aims && h.aims[t].Own? && h.aims[t].c in h.born
            && (var k, c := s.threads[t].keys[0], h.aims[t].c;
                (Registered(s, k, c) <==> h.born[c] == Count(h, k)) && h.born[c] <= Count(h, k))
  {
    AllTold(timeout, actions);
    var s, h := After(timeout, INIT, actions), Recall(timeout, INIT, BLANK, actions);
    hide Inv, After, Recall;
    assert AimOk(timeout, s, h, t, s.threads[t]);
    assert BirthOk(s, h, h.aims[t].c);
  }

  /** A key the collector still holds is unregistered, or its session was idle as of the scan, or has been touched
      since the scan began, or registered after a removal of the session the scan met. */
  lemma CollectorTakesIdle(timeout: int, actions: seq<Action>, i: nat)
    requires Possible(timeout, INIT, actions)
    requires var s := After(timeout, INIT, actions);
             GC in s.threads && s.threads[GC].Removing? && i < |s.threads[GC].keys|
    ensures var s, h := After(timeout, INIT, actions), Recall(timeout, INIT, BLANK, actions);
            && GC in h.aims && h.aims[GC].Sweep?
            && (var k, since, met := s.threads[GC].keys[i], h.aims[GC].since, h.aims[GC].met;
                && k in met && met[k] in h.born
                && (k in s.sessions ==>
                      var c := s.sessions[k];
                      && c in s.info && c in h.born
                      && (c == met[k] ==>
                            since - s.info[c].lastActivity > timeout || s.info[c].lastActivity >= since)
                      && (c != met[k] ==> h.born[c] > h.born[met[k]])))
  {
    AllTold(timeout, actions);
    var s, h := After(timeout, INIT, actions), Recall(timeout, INIT, BLANK, actions);
    hide Inv, After, Recall;
    assert AimOk(timeout, s, h, GC, s.threads[GC]);
    var k, met := s.threads[GC].keys[i], h.aims[GC].met;
    assert Swept(timeout, s, h, h.aims[GC].since, met, k);
    var old_ := met[k];
    assert BirthOk(s, h, old_);
    if k in s.sessions {
      var c := s.sessions[k];
      SessionOwned(timeout, actions, k);
      assert BirthOk(s, h, c);
    }
  }

  lemma SessionOwned(timeout: int, actions: seq<Action>, k: Key)
    requires Possible(timeout, INIT, actions) && k in After(timeout, INIT, actions).sessions
    ensures var s := After(timeout, INIT, actions); Owns(s.info, k, s.sessions[k])
  {
    InitInv();
    RunInv(timeout, INIT, actions);
    hide Placed, OneWinner, ThreadOk;
  }

  /** The receive loop writes the datagrams it accepts for sessions in the order of their arrival, each once; at most
      the one in hand is missing. */
  lemma HotPathKeepsOrder(timeout: int, actions: seq<Action>)
    requires Possible(timeout, INIT, actions)
    ensures var h := Recall(timeout, INIT, BLANK, actions); h.sent <= h.hot && |h.hot| <= |h.sent| + 1
  {
    AllTold(timeout, actions);
    hide Inv, Births, Aims, Recall, After;
  }
}
