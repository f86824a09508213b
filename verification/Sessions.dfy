/** The QUIC session manager as interleaved steps, split at every lock and unlock. */
module Sessions {

  type Key = int
  type Conn = int
  type Tid = int
  type Data = int

  /** The thread of main's receive loop and the thread of gcLoop. */
  const MAIN: Tid := 0
  const GC: Tid := 1

  /** A Session object; it is identified with its backend connection. */
  datatype Session = Session(client: Key, lastActivity: int)

  /** Where a thread stands. k is a client address, d a datagram of that client. */
  datatype Thread =
    | Receiving
    | Fresh(k: Key, d: Data)                       // handleNewSession, before the dial
    | Dialled(k: Key, d: Data, c: Conn)            // before m.mu.Lock()
    | Losing(k: Key, d: Data, c: Conn, e: Conn)    // lost the race to session e, before bc.Close()
    | Touching(k: Key, d: Data, e: Conn)           // before the session's mu.Lock()
    | Sending(k: Key, d: Data, e: Conn)            // before the write to the backend
    | First(k: Key, d: Data, c: Conn)              // registered, before the first write
    | Relaying(k: Key, c: Conn)                    // before the read from the backend
    | Got(k: Key, c: Conn)
    | Forwarding(k: Key, c: Conn)                  // before the write to the client
    | Removing(keys: seq<Key>)                     // before removeSession(keys[0])
    | Closing(c: Conn, keys: seq<Key>)             // inside removeSession, before Close()
    | Waiting
    | Scanning(now: int, todo: set<Key>, found: seq<Key>)
    | Done

  /** Where a connection is. */
  datatype Place = ByHandler(t: Tid) | InMap(k: Key) | ByRemover(t: Tid) | Shut

  /** `closes` counts Close calls. The fields from `place` on record history only; `cause` is the client whose
      packet caused a dial. */
  datatype State = State(
    sessions: map<Key, Conn>, info: map<Conn, Session>, closes: map<Conn, int>, threads: map<Tid, Thread>, now: int,
    place: map<Conn, Place>, cause: map<Conn, Key>, toBackend: seq<(Conn, Key, Data)>, toClient: seq<(Key, Conn)>,
    wins: seq<(Key, Conn)>, contested: set<Key>, removed: set<Key>)

  const INIT: State :=
    State(map[], map[], map[], map[MAIN := Receiving, GC := Waiting], 0, map[], map[], [], [], [], {}, {})

  datatype Action =
    | Receive(k: Key, d: Data, spawn: Tid)
    | Dial(t: Tid, ok: bool, c: Conn)
    | Register(t: Tid)
    | CloseLoser(t: Tid)
    | Touch(t: Tid)
    | Send(t: Tid)
    | SendFirst(t: Tid, ok: bool, spawn: Tid)
    | Read(t: Tid, ok: bool)
    | Forward(t: Tid, ok: bool)
    | Take(t: Tid)
    | Close(t: Tid)
    | Finish(t: Tid)
    | Tick
    | Inspect(k: Key)
    | ScanDone
    | Elapse(dt: nat)

  /** A thread goes on to its loop, or ends. */
  function Rest(t: Tid): Thread {
    if t == MAIN then Receiving else if t == GC then Waiting else Done
  }

  /** gcLoop holds the read lock of the map while it scans. */
  predicate MapFree(s: State) {
    !(GC in s.threads && s.threads[GC].Scanning?)
  }

  function Goto(s: State, t: Tid, th: Thread): State {
    s.(threads := s.threads[t := th])
  }

  function Touched(s: State, e: Conn): State
    requires e in s.info
  {
    s.(info := s.info[e := s.info[e].(lastActivity := s.now)])
  }

  function ToBackend(s: State, c: Conn, k: Key, d: Data): State {
    s.(toBackend := s.toBackend + [(c, k, d)])
  }

  function ToClient(s: State, k: Key, c: Conn): State {
    s.(toClient := s.toClient + [(k, c)])
  }

  function Closed(s: State, c: Conn): State
    requires c in s.closes
  {
    s.(closes := s.closes[c := s.closes[c] + 1], place := s.place[c := Shut])
  }

  // ----- The sections between two lock operations -----------------------------

  predicate Runs(s: State, t: Tid) {
    t in s.threads
  }

  /** main: the lookup under the read lock, then the session's section or a new handler. */
  function DoReceive(s: State, k: Key, d: Data, spawn: Tid): State {
    if k in s.sessions then Goto(s, MAIN, Touching(k, d, s.sessions[k]))
    else Goto(s, spawn, Fresh(k, d))
  }

  /** handleNewSession up to the session object; not ok stands for every early return. */
  function DoDial(s: State, t: Tid, ok: bool, c: Conn): State
    requires Runs(s, t) && s.threads[t].Fresh?
  {
    var th := s.threads[t];
    if !ok then Goto(s, t, Done)
    else
      Goto(s, t, Dialled(th.k, th.d, c)).(
        info := s.info[c := Session(th.k, s.now)], closes := s.closes[c := 0], place := s.place[c := ByHandler(t)],
        cause := s.cause[c := th.k])
  }

  /** The section under m.mu in handleNewSession. */
  function DoRegister(s: State, t: Tid): State
    requires Runs(s, t) && s.threads[t].Dialled?
  {
    var th := s.threads[t];
    if th.k in s.sessions then
      Goto(s, t, Losing(th.k, th.d, th.c, s.sessions[th.k])).(contested := s.contested + {th.k})
    else
      Goto(s, t, First(th.k, th.d, th.c)).(
        sessions := s.sessions[th.k := th.c], place := s.place[th.c := InMap(th.k)], wins := s.wins + [(th.k, th.c)],
        contested := s.contested + {th.k})
  }

  function DoCloseLoser(s: State, t: Tid): State
    requires Runs(s, t) && s.threads[t].Losing? && s.threads[t].c in s.closes
  {
    var th := s.threads[t];
    Goto(Closed(s, th.c), t, Touching(th.k, th.d, th.e))
  }

  /** The section under a session's mu, on the way to its backend or to its client. */
  function DoTouch(s: State, t: Tid): State
    requires Runs(s, t) && (s.threads[t].Touching? || s.threads[t].Got?) && Met(s.threads[t]) in s.info
  {
    var th := s.threads[t];
    Goto(Touched(s, Met(th)), t, if th.Touching? then Sending(th.k, th.d, th.e) else Forwarding(th.k, th.c))
  }

  function Met(th: Thread): Conn
    requires th.Touching? || th.Got?
  {
    if th.Touching? then th.e else th.c
  }

  function DoSend(s: State, t: Tid): State
    requires Runs(s, t) && s.threads[t].Sending?
  {
    var th := s.threads[t];
    Goto(ToBackend(s, th.e, th.k, th.d), t, Rest(t))
  }

  function DoSendFirst(s: State, t: Tid, ok: bool, spawn: Tid): State
    requires Runs(s, t) && s.threads[t].First?
  {
    var th := s.threads[t];
    if !ok then Goto(s, t, Removing([th.k]))
    else Goto(Goto(ToBackend(s, th.c, th.k, th.d), t, Done), spawn, Relaying(th.k, th.c))
  }

  function DoRead(s: State, t: Tid, ok: bool): State
    requires Runs(s, t) && s.threads[t].Relaying?
  {
    var th := s.threads[t];
    Goto(s, t, if ok then Got(th.k, th.c) else Removing([th.k]))
  }

  /** relayBackendToClient writes to the address the session object holds. */
  function DoForward(s: State, t: Tid, ok: bool): State
    requires Runs(s, t) && s.threads[t].Forwarding? && s.threads[t].c in s.info
  {
    var th := s.threads[t];
    if !ok then Goto(s, t, Removing([th.k]))
    else Goto(ToClient(s, s.info[th.c].client, th.c), t, Relaying(th.k, th.c))
  }

  /** The section under m.mu in removeSession. */
  function DoTake(s: State, t: Tid): State
    requires Runs(s, t) && s.threads[t].Removing? && s.threads[t].keys != []
  {
    var k, rest := s.threads[t].keys[0], s.threads[t].keys[1..];
    if k !in s.sessions then Goto(s, t, Removing(rest))
    else
      var c := s.sessions[k];
      Goto(s, t, Closing(c, rest)).(
        sessions := s.sessions - {k}, place := s.place[c := ByRemover(t)], removed := s.removed + {k})
  }

  function DoClose(s: State, t: Tid): State
    requires Runs(s, t) && s.threads[t].Closing? && s.threads[t].c in s.closes
  {
    var th := s.threads[t];
    Goto(Closed(s, th.c), t, Removing(th.keys))
  }

  /** gcLoop looks at one session, under that session's mu; timeout is *idleTimeout. */
  function DoInspect(timeout: int, s: State, k: Key): State
    requires Runs(s, GC) && s.threads[GC].Scanning? && k in s.sessions && s.sessions[k] in s.info
  {
    var th := s.threads[GC];
    var idle := th.now - s.info[s.sessions[k]].lastActivity;
    Goto(s, GC, Scanning(th.now, th.todo - {k}, if idle > timeout then th.found + [k] else th.found))
  }

  predicate Enabled(s: State, a: Action) {
    match a
    case Receive(_, _, spawn) => Runs(s, MAIN) && s.threads[MAIN].Receiving? && spawn !in s.threads
    case Dial(t, ok, c) => Runs(s, t) && s.threads[t].Fresh? && c !in s.info
    case Register(t) => Runs(s, t) && s.threads[t].Dialled? && MapFree(s)
    case CloseLoser(t) => Runs(s, t) && s.threads[t].Losing? && s.threads[t].c in s.closes
    case Touch(t) => Runs(s, t) && (s.threads[t].Touching? || s.threads[t].Got?) && Met(s.threads[t]) in s.info
    case Send(t) => Runs(s, t) && s.threads[t].Sending?
    case SendFirst(t, _, spawn) => Runs(s, t) && s.threads[t].First? && spawn !in s.threads
    case Read(t, ok) =>
      && Runs(s, t) && s.threads[t].Relaying? && s.threads[t].c in s.closes
      && (ok ==> s.closes[s.threads[t].c] == 0)
    case Forward(t, _) => Runs(s, t) && s.threads[t].Forwarding? && s.threads[t].c in s.info
    case Take(t) => Runs(s, t) && s.threads[t].Removing? && s.threads[t].keys != [] && MapFree(s)
    case Close(t) => Runs(s, t) && s.threads[t].Closing? && s.threads[t].c in s.closes
    case Finish(t) => Runs(s, t) && s.threads[t].Removing? && s.threads[t].keys == []
    case Tick => Runs(s, GC) && s.threads[GC].Waiting?
    case Inspect(k) =>
      && Runs(s, GC) && s.threads[GC].Scanning? && k in s.threads[GC].todo
      && k in s.sessions && s.sessions[k] in s.info
    case ScanDone => Runs(s, GC) && s.threads[GC].Scanning? && s.threads[GC].todo == {}
    case Elapse(_) => true
  }

  function Next(timeout: int, s: State, a: Action): State
    requires Enabled(s, a)
  {
    match a
    case Receive(k, d, spawn) => DoReceive(s, k, d, spawn)
    case Dial(t, ok, c) => DoDial(s, t, ok, c)
    case Register(t) => DoRegister(s, t)
    case CloseLoser(t) => DoCloseLoser(s, t)
    case Touch(t) => DoTouch(s, t)
    case Send(t) => DoSend(s, t)
    case SendFirst(t, ok, spawn) => DoSendFirst(s, t, ok, spawn)
    case Read(t, ok) => DoRead(s, t, ok)
    case Forward(t, ok) => DoForward(s, t, ok)
    case Take(t) => DoTake(s, t)
    case Close(t) => DoClose(s, t)
    case Finish(t) => Goto(s, t, Rest(t))
    case Tick => Goto(s, GC, Scanning(s.now, s.sessions.Keys, []))
    case Inspect(k) => DoInspect(timeout, s, k)
    case ScanDone => Goto(s, GC, Removing(s.threads[GC].found))
    case Elapse(dt) => s.(now := s.now + dt)
  }

  // ----- The invariant -------------------------------------------------------

  /** What a thread holds: a handler between its dial and the map, a remover between the map and Close(). */
  predicate Holds(th: Thread, p: Place, t: Tid, c: Conn) {
    || (p == ByHandler(t) && (th.Dialled? || th.Losing?) && th.c == c)
    || (p == ByRemover(t) && th.Closing? && th.c == c)
  }

  /** c is at p, said of the program's own variables. */
  ghost predicate At(s: State, c: Conn, p: Place) {
    match p
    case ByHandler(t) => t in s.threads && Holds(s.threads[t], p, t, c)
    case ByRemover(t) => t in s.threads && Holds(s.threads[t], p, t, c)
    case InMap(k) => k in s.sessions && s.sessions[k] == c
    case Shut => c in s.closes && s.closes[c] > 0
  }

  /** `place` tells where every connection is, and Close was called once or not at all. */
  ghost predicate Placed(s: State) {
    && s.info.Keys == s.closes.Keys == s.place.Keys
    && (forall c <- s.place :: At(s, c, s.place[c]) && s.closes[c] == if s.place[c].Shut? then 1 else 0)
    && (forall k <- s.sessions :: s.sessions[k] in s.place && s.place[s.sessions[k]] == InMap(k))
  }

  ghost predicate ThreadPlaced(place: map<Conn, Place>, t: Tid, th: Thread) {
    && (th.Dialled? || th.Losing? ==> th.c in place && place[th.c] == ByHandler(t))
    && (th.Closing? ==> th.c in place && place[th.c] == ByRemover(t))
  }

  ghost predicate Owns(info: map<Conn, Session>, k: Key, c: Conn) {
    c in info && info[c].client == k
  }

  ghost predicate ThreadOwns(info: map<Conn, Session>, th: Thread) {
    && (th.Dialled? || th.Losing? || th.First? || th.Relaying? || th.Got? || th.Forwarding? ==> Owns(info, th.k, th.c))
    && (th.Losing? || th.Touching? || th.Sending? ==> Owns(info, th.k, th.e))
  }

  ghost predicate Owned(s: State) {
    && s.info.Keys == s.cause.Keys && (forall c <- s.cause :: s.info[c].client == s.cause[c])
    && (forall k <- s.sessions :: Owns(s.info, k, s.sessions[k]))
    && (forall i :: 0 <= i < |s.toBackend| ==> Owns(s.info, s.toBackend[i].1, s.toBackend[i].0))
    && (forall i :: 0 <= i < |s.toClient| ==> Owns(s.info, s.toClient[i].0, s.toClient[i].1))
  }

  ghost predicate Wins(sessions: map<Key, Conn>, k: Key, c: Conn) {
    k in sessions && sessions[k] == c
  }

  /** The session a thread has picked for a client none of whose sessions was removed is the winner. */
  ghost predicate Follows(sessions: map<Key, Conn>, removed: set<Key>, th: Thread) {
    && (th.Losing? || th.Touching? || th.Sending? ==> th.k in removed || Wins(sessions, th.k, th.e))
    && (th.First? ==> th.k in removed || Wins(sessions, th.k, th.c))
  }

  /** As long as no session of k has been removed, k has one winner. */
  ghost predicate OneWinner(s: State) {
    && s.sessions.Keys <= s.contested
    && (forall k <- s.contested :: k !in s.removed ==> k in s.sessions && (k, s.sessions[k]) in s.wins)
    && (forall i :: 0 <= i < |s.wins| ==> s.wins[i].0 in s.contested)
    && (forall i, j :: 0 <= i < j < |s.wins| && s.wins[i].0 == s.wins[j].0 ==> s.wins[i].0 in s.removed)
    && (forall i :: 0 <= i < |s.toBackend| ==>
          s.toBackend[i].1 in s.removed || Wins(s.sessions, s.toBackend[i].1, s.toBackend[i].0))
  }

  /** The scan only meets registered keys, because nothing leaves the map meanwhile. */
  ghost predicate ThreadOk(s: State, t: Tid, th: Thread) {
    && ThreadPlaced(s.place, t, th)
    && ThreadOwns(s.info, th)
    && Follows(s.sessions, s.removed, th)
    && (th.Scanning? ==> t == GC && th.todo <= s.sessions.Keys)
  }

  ghost predicate Inv(s: State) {
    && MAIN in s.threads && GC in s.threads
    && Placed(s) && Owned(s) && OneWinner(s)
    && (forall t <- s.threads :: ThreadOk(s, t, s.threads[t]))
  }

  lemma InitInv()
    ensures Inv(INIT)
  {
  }

  // ----- Steps that move no connection ----------------------------------------

  predicate Empty(th: Thread) {
    !th.Dialled? && !th.Losing? && !th.Closing?
  }

  lemma GotoInv(s: State, t: Tid, th: Thread)
    requires Inv(s) && ThreadOk(s, t, th) && Empty(th)
    requires t in s.threads ==> Empty(s.threads[t])
    ensures Inv(Goto(s, t, th))
  {
    GotoPlaced(s, t, th);
    hide Placed, ThreadPlaced, ThreadOwns, Follows;
  }

  lemma GotoPlaced(s: State, t: Tid, th: Thread)
    requires Placed(s) && Empty(th)
    requires t in s.threads ==> Empty(s.threads[t])
    ensures Placed(Goto(s, t, th))
  {
  }

  lemma TouchedInv(s: State, e: Conn)
    requires Inv(s) && e in s.info
    ensures Inv(Touched(s, e))
  {
    hide Placed, Owned, OneWinner, ThreadOk;
    var s' := Touched(s, e);
    TouchedShared(s, e);
    forall t | t in s'.threads ensures ThreadOk(s', t, s'.threads[t]) {
      TouchedThread(s, e, t, s.threads[t]);
    }
  }

  lemma TouchedShared(s: State, e: Conn)
    requires Placed(s) && Owned(s) && OneWinner(s) && e in s.info
    ensures var s' := Touched(s, e); Placed(s') && Owned(s') && OneWinner(s')
  {
    TouchedPlaced(s, e);
    TouchedOwned(s, e);
    hide Placed, Owned;
  }

  lemma TouchedPlaced(s: State, e: Conn)
    requires Placed(s) && e in s.info
    ensures Placed(Touched(s, e))
  {
  }

  lemma TouchedOwned(s: State, e: Conn)
    requires Owned(s) && e in s.info
    ensures Owned(Touched(s, e))
  {
  }

  lemma TouchedThread(s: State, e: Conn, t: Tid, th: Thread)
    requires ThreadOk(s, t, th) && e in s.info
    ensures ThreadOk(Touched(s, e), t, th)
  {
  }

  lemma ToBackendInv(s: State, c: Conn, k: Key, d: Data)
    requires Inv(s) && Owns(s.info, k, c) && (k in s.removed || Wins(s.sessions, k, c))
    ensures Inv(ToBackend(s, c, k, d))
  {
  }

  lemma ToClientInv(s: State, k: Key, c: Conn)
    requires Inv(s) && Owns(s.info, k, c)
    ensures Inv(ToClient(s, k, c))
  {
  }

  // ----- Steps that move a connection ------------------------------------------

  lemma DialPlaced(s: State, t: Tid, c: Conn)
    requires Inv(s) && Runs(s, t) && s.threads[t].Fresh? && c !in s.info
    ensures Placed(DoDial(s, t, true, c))
  {
    assert ThreadOk(s, t, s.threads[t]);
    hide Owned, OneWinner, ThreadOwns, Follows;
  }

  lemma DialShared(s: State, t: Tid, c: Conn)
    requires Inv(s) && Runs(s, t) && s.threads[t].Fresh? && c !in s.info
    ensures Owned(DoDial(s, t, true, c)) && OneWinner(DoDial(s, t, true, c))
  {
    assert ThreadOk(s, t, s.threads[t]);
    hide Placed, ThreadPlaced;
  }

  lemma DialInv(s: State, t: Tid, c: Conn)
    requires Inv(s) && Runs(s, t) && s.threads[t].Fresh? && c !in s.info
    ensures Inv(DoDial(s, t, true, c))
  {
    DialPlaced(s, t, c);
    DialShared(s, t, c);
    hide Placed, Owned, OneWinner;
  }

  lemma RegisterPlaced(s: State, t: Tid)
    requires Inv(s) && Runs(s, t) && s.threads[t].Dialled? && MapFree(s)
    ensures Placed(DoRegister(s, t))
  {
    assert ThreadOk(s, t, s.threads[t]);
    hide Owned, OneWinner, ThreadOwns, Follows;
  }

  lemma RegisterShared(s: State, t: Tid)
    requires Inv(s) && Runs(s, t) && s.threads[t].Dialled? && MapFree(s)
    ensures Owned(DoRegister(s, t)) && OneWinner(DoRegister(s, t))
  {
    assert ThreadOk(s, t, s.threads[t]);
    hide Placed, ThreadPlaced;
  }

  lemma RegisterInv(s: State, t: Tid)
    requires Inv(s) && Runs(s, t) && s.threads[t].Dialled? && MapFree(s)
    ensures Inv(DoRegister(s, t))
  {
    RegisterPlaced(s, t);
    RegisterShared(s, t);
    hide Placed, Owned, OneWinner;
    assert ThreadOk(s, t, s.threads[t]);
  }

  lemma CloseLoserPlaced(s: State, t: Tid)
    requires Inv(s) && Runs(s, t) && s.threads[t].Losing? && s.threads[t].c in s.closes
    ensures Placed(DoCloseLoser(s, t))
  {
    assert ThreadOk(s, t, s.threads[t]);
    hide Owned, OneWinner, ThreadOwns, Follows;
  }

  lemma CloseLoserShared(s: State, t: Tid)
    requires Inv(s) && Runs(s, t) && s.threads[t].Losing? && s.threads[t].c in s.closes
    ensures Owned(DoCloseLoser(s, t)) && OneWinner(DoCloseLoser(s, t))
  {
    assert ThreadOk(s, t, s.threads[t]);
    hide Placed, ThreadPlaced;
  }

  lemma CloseLoserInv(s: State, t: Tid)
    requires Inv(s) && Runs(s, t) && s.threads[t].Losing? && s.threads[t].c in s.closes
    ensures Inv(DoCloseLoser(s, t))
  {
    CloseLoserPlaced(s, t);
    CloseLoserShared(s, t);
    hide Placed, Owned, OneWinner;
  }

  lemma TakePlaced(s: State, t: Tid)
    requires Inv(s) && Runs(s, t) && s.threads[t].Removing? && s.threads[t].keys != [] && MapFree(s)
    ensures Placed(DoTake(s, t))
  {
    assert ThreadOk(s, t, s.threads[t]);
    hide Owned, OneWinner, ThreadOwns, Follows;
  }

  lemma TakeShared(s: State, t: Tid)
    requires Inv(s) && Runs(s, t) && s.threads[t].Removing? && s.threads[t].keys != [] && MapFree(s)
    ensures Owned(DoTake(s, t)) && OneWinner(DoTake(s, t))
  {
    assert ThreadOk(s, t, s.threads[t]);
    hide Placed, ThreadPlaced;
  }

  lemma TakeInv(s: State, t: Tid)
    requires Inv(s) && Runs(s, t) && s.threads[t].Removing? && s.threads[t].keys != [] && MapFree(s)
    ensures Inv(DoTake(s, t))
  {
    TakePlaced(s, t);
    TakeShared(s, t);
    hide Placed, Owned, OneWinner;
  }

  lemma ClosePlaced(s: State, t: Tid)
    requires Inv(s) && Runs(s, t) && s.threads[t].Closing? && s.threads[t].c in s.closes
    ensures Placed(DoClose(s, t))
  {
    assert ThreadOk(s, t, s.threads[t]);
    hide Owned, OneWinner, ThreadOwns, Follows;
  }

  lemma CloseShared(s: State, t: Tid)
    requires Inv(s) && Runs(s, t) && s.threads[t].Closing? && s.threads[t].c in s.closes
    ensures Owned(DoClose(s, t)) && OneWinner(DoClose(s, t))
  {
    assert ThreadOk(s, t, s.threads[t]);
    hide Placed, ThreadPlaced;
  }

  lemma CloseInv(s: State, t: Tid)
    requires Inv(s) && Runs(s, t) && s.threads[t].Closing? && s.threads[t].c in s.closes
    ensures Inv(DoClose(s, t))
  {
    ClosePlaced(s, t);
    CloseShared(s, t);
    hide Placed, Owned, OneWinner;
  }

  // ----- Every step, every run --------------------------------------------------

  lemma ReceiveInv(s: State, k: Key, d: Data, spawn: Tid)
    requires Inv(s) && s.threads[MAIN].Receiving? && spawn !in s.threads
    ensures Inv(DoReceive(s, k, d, spawn))
  {
    var th := if k in s.sessions then Touching(k, d, s.sessions[k]) else Fresh(k, d);
    assert ThreadOk(s, MAIN, th) && ThreadOk(s, spawn, Fresh(k, d));
    hide Placed, Owned, OneWinner, ThreadOk;
    GotoInv(s, if k in s.sessions then MAIN else spawn, th);
  }

  lemma TouchInv(s: State, t: Tid)
    requires Inv(s) && Runs(s, t) && (s.threads[t].Touching? || s.threads[t].Got?) && Met(s.threads[t]) in s.info
    ensures Inv(DoTouch(s, t))
  {
    var th := s.threads[t];
    var e := Met(th);
    var next := if th.Touching? then Sending(th.k, th.d, th.e) else Forwarding(th.k, th.c);
    assert ThreadOk(s, t, th);
    assert ThreadOk(s, t, next);
    TouchedThread(s, e, t, next);
    hide Placed, Owned, OneWinner, ThreadOk;
    TouchedInv(s, e);
    GotoInv(Touched(s, e), t, next);
  }

  lemma SendInv(s: State, t: Tid)
    requires Inv(s) && Runs(s, t) && s.threads[t].Sending?
    ensures Inv(DoSend(s, t))
  {
    var th := s.threads[t];
    assert ThreadOk(s, t, th);
    ToBackendInv(s, th.e, th.k, th.d);
    hide Placed, Owned, OneWinner;
    GotoInv(ToBackend(s, th.e, th.k, th.d), t, Rest(t));
  }

  lemma SendFirstInv(s: State, t: Tid, ok: bool, spawn: Tid)
    requires Inv(s) && Runs(s, t) && s.threads[t].First? && spawn !in s.threads
    ensures Inv(DoSendFirst(s, t, ok, spawn))
  {
    var th := s.threads[t];
    assert ThreadOk(s, t, th);
    hide Placed, Owned, OneWinner;
    if ok {
      var s1 := ToBackend(s, th.c, th.k, th.d);
      ToBackendInv(s, th.c, th.k, th.d);
      GotoInv(s1, t, Done);
      GotoInv(Goto(s1, t, Done), spawn, Relaying(th.k, th.c));
    } else {
      GotoInv(s, t, Removing([th.k]));
    }
  }

  lemma ForwardInv(s: State, t: Tid, ok: bool)
    requires Inv(s) && Runs(s, t) && s.threads[t].Forwarding? && s.threads[t].c in s.info
    ensures Inv(DoForward(s, t, ok))
  {
    var th := s.threads[t];
    assert ThreadOk(s, t, th);
    hide Placed, Owned, OneWinner;
    if ok {
      ToClientInv(s, th.k, th.c);
      GotoInv(ToClient(s, th.k, th.c), t, Relaying(th.k, th.c));
    } else {
      GotoInv(s, t, Removing([th.k]));
    }
  }

  lemma ReadInv(s: State, t: Tid, ok: bool)
    requires Inv(s) && Runs(s, t) && s.threads[t].Relaying?
    ensures Inv(DoRead(s, t, ok))
  {
    var th := s.threads[t];
    assert ThreadOk(s, t, th);
    hide Placed, Owned, OneWinner;
    GotoInv(s, t, if ok then Got(th.k, th.c) else Removing([th.k]));
  }

  lemma InspectInv(timeout: int, s: State, k: Key)
    requires Inv(s) && Enabled(s, Inspect(k))
    ensures Inv(DoInspect(timeout, s, k))
  {
    var th := s.threads[GC];
    assert ThreadOk(s, GC, th);
    var next := DoInspect(timeout, s, k).threads[GC];
    hide Placed, Owned, OneWinner;
    GotoInv(s, GC, next);
  }

  lemma ElapseInv(s: State, dt: nat)
    requires Inv(s)
    ensures Inv(s.(now := s.now + dt))
  {
  }

  /** A thread that carries nothing goes on carrying nothing. */
  lemma PlainInv(s: State, t: Tid, th: Thread)
    requires Inv(s) && Runs(s, t) && Empty(s.threads[t])
    requires th.Done? || th.Receiving? || th.Waiting? || th.Removing?
    ensures Inv(Goto(s, t, th))
  {
    GotoInv(s, t, th);
  }

  lemma TickInv(s: State)
    requires Inv(s) && Runs(s, GC) && s.threads[GC].Waiting?
    ensures Inv(Goto(s, GC, Scanning(s.now, s.sessions.Keys, [])))
  {
    GotoInv(s, GC, Scanning(s.now, s.sessions.Keys, []));
  }

  lemma StepInv(timeout: int, s: State, a: Action)
    requires Inv(s) && Enabled(s, a)
    ensures Inv(Next(timeout, s, a))
  {
    hide Inv, DoReceive, DoRegister, DoCloseLoser, DoTouch, DoSend, DoSendFirst, DoRead, DoForward, DoTake, DoClose,
         DoInspect;
    match a
    case Receive(k, d, spawn) => ReceiveInv(s, k, d, spawn);
    case Dial(t, ok, c) =>
      if ok {
        DialInv(s, t, c);
      } else {
        PlainInv(s, t, Done);
      }
    case Register(t) => RegisterInv(s, t);
    case CloseLoser(t) => CloseLoserInv(s, t);
    case Touch(t) => TouchInv(s, t);
    case Send(t) => SendInv(s, t);
    case SendFirst(t, ok, spawn) => SendFirstInv(s, t, ok, spawn);
    case Read(t, ok) => ReadInv(s, t, ok);
    case Forward(t, ok) => ForwardInv(s, t, ok);
    case Take(t) => TakeInv(s, t);
    case Close(t) => CloseInv(s, t);
    case Finish(t) => PlainInv(s, t, Rest(t));
    case Tick => TickInv(s);
    case Inspect(k) => InspectInv(timeout, s, k);
    case ScanDone => PlainInv(s, GC, Removing(s.threads[GC].found));
    case Elapse(dt) => ElapseInv(s, dt);
  }

  /** A schedule the program can follow from s. */
  ghost predicate Possible(timeout: int, s: State, actions: seq<Action>)
    decreases |actions|
  {
    actions == [] || (Enabled(s, actions[0]) && Possible(timeout, Next(timeout, s, actions[0]), actions[1..]))
  }

  ghost function After(timeout: int, s: State, actions: seq<Action>): State
    requires Possible(timeout, s, actions)
    decreases |actions|
  {
    if actions == [] then s else After(timeout, Next(timeout, s, actions[0]), actions[1..])
  }

  lemma {:induction false} RunInv(timeout: int, s: State, actions: seq<Action>)
    requires Inv(s) && Possible(timeout, s, actions)
    ensures Inv(After(timeout, s, actions))
    decreases |actions|
  {
    hide Inv, Enabled, Next;
    if actions != [] {
      StepInv(timeout, s, actions[0]);
      RunInv(timeout, Next(timeout, s, actions[0]), actions[1..]);
    }
  }

  // ----- What holds in every interleaving -----------------------------------------

  /** Every dialled connection is in exactly one place: with its handler, in the map, with one remover, or
      closed; and it is closed at most once. */
  lemma ExactlyOnePlace(timeout: int, actions: seq<Action>, c: Conn)
    requires Possible(timeout, INIT, actions) && c in After(timeout, INIT, actions).info
    ensures var s := After(timeout, INIT, actions);
            && (exists p :: At(s, c, p))
            && (forall p, q :: At(s, c, p) && At(s, c, q) ==> p == q)
            && c in s.closes && s.closes[c] <= 1
  {
    InitInv();
    RunInv(timeout, INIT, actions);
    var s := After(timeout, INIT, actions);
    assert At(s, c, s.place[c]);
    forall p | At(s, c, p) ensures p == s.place[c] {
      AtIsPlace(s, c, p);
    }
  }

  lemma AtIsPlace(s: State, c: Conn, p: Place)
    requires Inv(s) && At(s, c, p)
    ensures c in s.place && s.place[c] == p
  {
    hide Owned, OneWinner;
    match p
    case ByHandler(t) => assert ThreadOk(s, t, s.threads[t]);
    case ByRemover(t) => assert ThreadOk(s, t, s.threads[t]);
    case InMap(k) =>
    case Shut =>
  }

  /** The key of a registered session is its client; bytes of a backend reach only the client whose packet
      caused the dial, and only datagrams of that client reach the backend. */
  lemma TrafficStaysWithClient(timeout: int, actions: seq<Action>)
    requires Possible(timeout, INIT, actions)
    ensures var s := After(timeout, INIT, actions);
            && (forall k <- s.sessions :: s.sessions[k] in s.cause && s.cause[s.sessions[k]] == k)
            && (forall i :: 0 <= i < |s.toClient| ==>
                  s.toClient[i].1 in s.cause && s.cause[s.toClient[i].1] == s.toClient[i].0)
            && (forall i :: 0 <= i < |s.toBackend| ==>
                  s.toBackend[i].0 in s.cause && s.cause[s.toBackend[i].0] == s.toBackend[i].1)
  {
    InitInv();
    RunInv(timeout, INIT, actions);
    hide Placed, OneWinner, ThreadOk;
  }

  /** However many handlers race for a client none of whose sessions is removed: exactly one registers, and
      every datagram forwarded for that client, the losers' included, goes to its connection. */
  lemma OneHandlerWins(timeout: int, actions: seq<Action>, k: Key)
    requires Possible(timeout, INIT, actions)
    requires var s := After(timeout, INIT, actions); k in s.contested && k !in s.removed
    ensures var s := After(timeout, INIT, actions);
            && k in s.sessions
            && (exists i :: 0 <= i < |s.wins| && s.wins[i] == (k, s.sessions[k]))
            && (forall i, j :: 0 <= i < |s.wins| && 0 <= j < |s.wins| && s.wins[i].0 == k && s.wins[j].0 == k ==>
                  i == j)
            && (forall i :: 0 <= i < |s.toBackend| && s.toBackend[i].1 == k ==> s.toBackend[i].0 == s.sessions[k])
  {
    InitInv();
    RunInv(timeout, INIT, actions);
    hide Placed, Owned, ThreadOk;
  }

  // ----- Not only idle sessions are removed ------------------------------------------

  ghost predicate Reachable(timeout: int, s: State) {
    exists actions :: Possible(timeout, INIT, actions) && After(timeout, INIT, actions) == s
  }

  lemma {:induction false} Extend(timeout: int, s: State, actions: seq<Action>, a: Action)
    requires Possible(timeout, s, actions) && Enabled(After(timeout, s, actions), a)
    ensures Possible(timeout, s, actions + [a])
    ensures After(timeout, s, actions + [a]) == Next(timeout, After(timeout, s, actions), a)
    decreases |actions|
  {
    hide Enabled, Next;
    if actions == [] {
      assert [a][1..] == [];
      assert [] + [a] == [a];
      assert Possible(timeout, Next(timeout, s, a), []);
    } else {
      assert (actions + [a])[1..] == actions[1..] + [a];
      Extend(timeout, Next(timeout, s, actions[0]), actions[1..], a);
    }
  }

  lemma ReachNext(timeout: int, s: State, a: Action)
    requires Reachable(timeout, s) && Enabled(s, a)
    ensures Reachable(timeout, Next(timeout, s, a))
  {
    hide Enabled, Next;
    var actions :| Possible(timeout, INIT, actions) && After(timeout, INIT, actions) == s;
    Extend(timeout, INIT, actions, a);
  }

  lemma ReachInit(timeout: int)
    ensures Reachable(timeout, INIT)
  {
    assert Possible(timeout, INIT, []) && After(timeout, INIT, []) == INIT;
  }

  /** Client 7 has a session on connection 0, with relay thread 3. */
  lemma FirstSession() returns (s: State)
    ensures Reachable(300, s)
    ensures s == State(map[7 := 0], map[0 := Session(7, 0)], map[0 := 0],
                       map[MAIN := Receiving, GC := Waiting, 2 := Done, 3 := Relaying(7, 0)], 0,
                       map[0 := InMap(7)], map[0 := 7], [(0, 7, 0)], [], [(7, 0)], {7}, {})
  {
    ReachInit(300);
    hide Reachable;
    ReachNext(300, INIT, Receive(7, 0, 2));
    var s1 := Next(300, INIT, Receive(7, 0, 2));
    ReachNext(300, s1, Dial(2, true, 0));
    var s2 := Next(300, s1, Dial(2, true, 0));
    ReachNext(300, s2, Register(2));
    var s3 := Next(300, s2, Register(2));
    ReachNext(300, s3, SendFirst(2, true, 3));
    s := Next(300, s3, SendFirst(2, true, 3));
  }

  /** Long after, the collector starts a scan. */
  lemma ScannedSession() returns (s: State)
    ensures Reachable(300, s)
    ensures s == State(map[7 := 0], map[0 := Session(7, 0)], map[0 := 0],
                       map[MAIN := Receiving, GC := Scanning(301, {7}, []), 2 := Done, 3 := Relaying(7, 0)], 301,
                       map[0 := InMap(7)], map[0 := 7], [(0, 7, 0)], [], [(7, 0)], {7}, {})
  {
    var s1 := FirstSession();
    hide Reachable;
    ReachNext(300, s1, Elapse(301));
    var s2 := Next(300, s1, Elapse(301));
    assert s2.sessions.Keys == {7};
    ReachNext(300, s2, Tick);
    s := Next(300, s2, Tick);
  }

  /** It finds the session idle. */
  lemma IdleSession() returns (s: State)
    ensures Reachable(300, s)
    ensures s == State(map[7 := 0], map[0 := Session(7, 0)], map[0 := 0],
                       map[MAIN := Receiving, GC := Removing([7]), 2 := Done, 3 := Relaying(7, 0)], 301,
                       map[0 := InMap(7)], map[0 := 7], [(0, 7, 0)], [], [(7, 0)], {7}, {})
  {
    var s1 := ScannedSession();
    hide Reachable;
    ReachNext(300, s1, Inspect(7));
    var s2 := Next(300, s1, Inspect(7));
    assert s2.threads[GC] == Scanning(301, {}, [7]);
    ReachNext(300, s2, ScanDone);
    s := Next(300, s2, ScanDone);
  }

  /** The collector takes the session out of the map. */
  lemma TakenSession() returns (s: State)
    ensures Reachable(300, s)
    ensures s == State(map[], map[0 := Session(7, 0)], map[0 := 0],
                       map[MAIN := Receiving, GC := Closing(0, []), 2 := Done, 3 := Relaying(7, 0)], 301,
                       map[0 := ByRemover(GC)], map[0 := 7], [(0, 7, 0)], [], [(7, 0)], {7}, {7})
  {
    var s1 := IdleSession();
    hide Reachable;
    assert [7][1..] == [];
    ReachNext(300, s1, Take(GC));
    s := Next(300, s1, Take(GC));
    assert s.sessions == map[];
  }

  /** The collector's Close ends the relay's blocked read. */
  lemma CollectedSession() returns (s: State)
    ensures Reachable(300, s)
    ensures s == State(map[], map[0 := Session(7, 0)], map[0 := 1],
                       map[MAIN := Receiving, GC := Removing([]), 2 := Done, 3 := Removing([7])], 301,
                       map[0 := Shut], map[0 := 7], [(0, 7, 0)], [], [(7, 0)], {7}, {7})
  {
    var s2 := TakenSession();
    hide Reachable;
    ReachNext(300, s2, Close(GC));
    var s3 := Next(300, s2, Close(GC));
    assert !Enabled(s3, Read(3, true));
    ReachNext(300, s3, Read(3, false));
    s := Next(300, s3, Read(3, false));
  }

  /** The next packet of the client dials connection 1. */
  lemma SecondDial() returns (s: State)
    ensures Reachable(300, s)
    ensures s == State(map[], map[0 := Session(7, 0), 1 := Session(7, 301)], map[0 := 1, 1 := 0],
                       map[MAIN := Receiving, GC := Removing([]), 2 := Done, 3 := Removing([7]), 4 := Dialled(7, 1, 1)],
                       301, map[0 := Shut, 1 := ByHandler(4)], map[0 := 7, 1 := 7], [(0, 7, 0)], [], [(7, 0)], {7}, {7})
  {
    var s1 := CollectedSession();
    hide Reachable;
    ReachNext(300, s1, Receive(7, 1, 4));
    var s2 := Next(300, s1, Receive(7, 1, 4));
    ReachNext(300, s2, Dial(4, true, 1));
    s := Next(300, s2, Dial(4, true, 1));
  }

  /** removeSession works by key, so it may take more than idle or failed sessions: the relay of collected
      connection 0 is about to take the session a later packet has this very moment put on connection 1. */
  lemma StaleRelayTakesNewerSession() returns (s: State)
    ensures Reachable(300, s)
    ensures s.sessions == map[7 := 1] && s.info == map[0 := Session(7, 0), 1 := Session(7, s.now)]
    ensures s.closes == map[0 := 1, 1 := 0]
    ensures Enabled(s, Take(3)) && DoTake(s, 3).threads[3] == Closing(1, [])
  {
    var s1 := SecondDial();
    hide Reachable;
    ReachNext(300, s1, Register(4));
    s := Next(300, s1, Register(4));
  }
}
