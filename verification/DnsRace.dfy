/** raceQuery as a timed step system: the select loop, three timers, one goroutine per upstream, a bounded channel. */
module DnsRace {
  import opened Bytes
  import opened DnsMessage
  import opened DnsTcp

  /** One call. The last three are the moments at which the timers are created, counted from the call. */
  datatype Race = Race(
    query: seq<byte>, primary: nat, fallback: nat, tcpDelay: int, fallbackDelay: int, timeout: int,
    tcpSet: nat, fallbackSet: nat, timeoutSet: nat)
  {
    ghost predicate Ordered() {
      tcpSet <= fallbackSet <= timeoutSet
    }

    /** The fallback never overtakes the TCP retry. */
    function EffectiveFallbackDelay(): int {
      if fallbackDelay < tcpDelay then tcpDelay else fallbackDelay
    }

    function Capacity(): int {
      2 * primary + fallback
    }
  }

  datatype Timer = Armed | Fired | Taken

  datatype Outcome = Racing | Won(response: seq<byte>) | TimedOut | Refused

  /** udp and tcp count the exchanges under way; ready holds the responses whose goroutines stand before the
      channel send. tcpStarts, fallbackStarts, sends and silent (exchanges without a valid response) record
      history only; turns counts the rounds of the select loop that did not return. */
  datatype State = State(
    now: int, tcpTimer: Timer, fallbackTimer: Timer, timeoutTimer: Timer, tcpStarted: bool, fallbackStarted: bool,
    udp: int, tcp: int, ready: seq<seq<byte>>, channel: seq<seq<byte>>, outcome: Outcome, turns: int,
    tcpStarts: seq<int>, fallbackStarts: seq<int>, sends: int, silent: int)

  function Start(r: Race): State {
    if |r.query| < 2 then
      State(0, Armed, Armed, Armed, true, true, 0, 0, [], [], Refused, 0, [], [], 0, 0)
    else
      State(0, Armed, Armed, Armed, r.primary == 0, r.fallback == 0, r.primary, 0, [], [], Racing, 0, [], [], 0, 0)
  }

  datatype Action =
    | Elapse(dt: nat)
    | FireTcp
    | FireFallback
    | FireTimeout
    | Hear(network: Network, heard: Option<seq<byte>>)
    | Send(j: nat)
    | Receive
    | TakeTcp
    | TakeFallback
    | TakeTimeout

  /** The call is in its select loop. */
  predicate Selecting(r: Race, s: State) {
    s.outcome.Racing? && s.now >= r.timeoutSet
  }

  predicate Enabled(r: Race, s: State, a: Action) {
    match a
    case Elapse(_) => true
    case FireTcp => s.outcome.Racing? && s.tcpTimer.Armed? && s.now >= r.tcpSet && s.now >= r.tcpSet + r.tcpDelay
    case FireFallback =>
      s.outcome.Racing? && s.fallbackTimer.Armed? && s.now >= r.fallbackSet
      && s.now >= r.fallbackSet + r.EffectiveFallbackDelay()
    case FireTimeout =>
      s.outcome.Racing? && s.timeoutTimer.Armed? && s.now >= r.timeoutSet && s.now >= r.timeoutSet + r.timeout
    case Hear(network, _) => if network.Udp? then s.udp > 0 else s.tcp > 0
    case Send(j) => j < |s.ready| && |s.channel| < r.Capacity()
    case Receive => Selecting(r, s) && s.channel != []
    case TakeTcp => Selecting(r, s) && s.tcpTimer.Fired?
    case TakeFallback => Selecting(r, s) && s.fallbackTimer.Fired?
    case TakeTimeout => Selecting(r, s) && s.timeoutTimer.Fired?
  }

  /** The end of one upstream exchange: only valid responses go on to the channel. */
  function DoHear(r: Race, s: State, network: Network, heard: Option<seq<byte>>): State {
    var s1 := if network.Udp? then s.(udp := s.udp - 1) else s.(tcp := s.tcp - 1);
    var response := Exchange(network, r.query, heard);
    if response.None? || !ValidResponse(r.query, response.value) then s1.(silent := s1.silent + 1)
    else s1.(ready := s1.ready + [response.value])
  }

  function DoSend(s: State, j: nat): State
    requires j < |s.ready|
  {
    s.(ready := s.ready[..j] + s.ready[j + 1..], channel := s.channel + [s.ready[j]], sends := s.sends + 1)
  }

  function DoTakeTcp(r: Race, s: State): State {
    var s1 := s.(tcpTimer := Taken, turns := s.turns + 1);
    if s.tcpStarted then s1
    else s1.(tcp := s.tcp + r.primary, tcpStarted := true, tcpStarts := s.tcpStarts + [s.now])
  }

  function DoTakeFallback(r: Race, s: State): State {
    var s1 := s.(fallbackTimer := Taken, turns := s.turns + 1);
    if s.fallbackStarted then s1
    else s1.(udp := s.udp + r.fallback, fallbackStarted := true, fallbackStarts := s.fallbackStarts + [s.now])
  }

  function Next(r: Race, s: State, a: Action): State
    requires Enabled(r, s, a)
  {
    match a
    case Elapse(dt) => s.(now := s.now + dt)
    case FireTcp => s.(tcpTimer := Fired)
    case FireFallback => s.(fallbackTimer := Fired)
    case FireTimeout => s.(timeoutTimer := Fired)
    case Hear(network, heard) => DoHear(r, s, network, heard)
    case Send(j) => DoSend(s, j)
    case Receive => s.(channel := s.channel[1..], outcome := Won(s.channel[0]))
    case TakeTcp => DoTakeTcp(r, s)
    case TakeFallback => DoTakeFallback(r, s)
    case TakeTimeout => s.(outcome := TimedOut)
  }

  // ----- The invariant ---------------------------------------------------------------

  function Once(b: bool, n: int): int {
    if b then n else 0
  }

  /** A stage with upstreams starts on the tick of its own timer, and only then. */
  ghost predicate StageOk(upstreams: int, timer: Timer, starts: seq<int>, due: int) {
    && |starts| <= 1
    && (starts != [] <==> upstreams > 0 && timer.Taken?)
    && (starts != [] ==> starts[0] >= due)
  }

  ghost predicate Stages(r: Race, s: State) {
    && StageOk(r.primary, s.tcpTimer, s.tcpStarts, r.tcpSet + r.tcpDelay)
    && StageOk(r.fallback, s.fallbackTimer, s.fallbackStarts, r.fallbackSet + r.EffectiveFallbackDelay())
    && (s.outcome.Racing? ==> s.tcpStarted == (r.primary == 0 || s.tcpStarts != []))
    && (s.outcome.Racing? ==> s.fallbackStarted == (r.fallback == 0 || s.fallbackStarts != []))
    && (s.tcpTimer.Fired? ==> s.now >= r.tcpSet + r.tcpDelay)
    && (s.fallbackTimer.Fired? ==> s.now >= r.fallbackSet + r.EffectiveFallbackDelay())
    && s.turns == Once(s.tcpTimer.Taken?, 1) + Once(s.fallbackTimer.Taken?, 1)
  }

  /** Every goroutine started is asking, about to send, has sent, or ended without a response; what was sent is in
      the channel or won. */
  ghost predicate Counted(r: Race, s: State) {
    && s.udp >= 0 && s.tcp >= 0 && s.silent >= 0
    && s.sends == |s.channel| + Once(s.outcome.Won?, 1)
    && s.udp + s.tcp + |s.ready| + s.sends + s.silent
       == Once(!s.outcome.Refused?, r.primary) + Once(s.tcpStarts != [], r.primary)
          + Once(s.fallbackStarts != [], r.fallback)
  }

  ghost predicate Fits(r: Race, response: seq<byte>) {
    ValidResponse(r.query, response) && |response| <= 65535
  }

  ghost predicate Answers(r: Race, s: State) {
    && (forall j :: 0 <= j < |s.ready| ==> Fits(r, s.ready[j]))
    && (forall j :: 0 <= j < |s.channel| ==> Fits(r, s.channel[j]))
    && (s.outcome.Won? ==> Fits(r, s.outcome.response))
  }

  ghost predicate Inv(r: Race, s: State) {
    Stages(r, s) && Counted(r, s) && Answers(r, s)
  }

  lemma TakeTcpStages(r: Race, s: State)
    requires Stages(r, s) && Enabled(r, s, TakeTcp)
    ensures Stages(r, DoTakeTcp(r, s))
  {
  }

  lemma TakeFallbackStages(r: Race, s: State)
    requires Stages(r, s) && Enabled(r, s, TakeFallback)
    ensures Stages(r, DoTakeFallback(r, s))
  {
  }

  lemma HearStages(r: Race, s: State, network: Network, heard: Option<seq<byte>>)
    requires Stages(r, s)
    ensures Stages(r, DoHear(r, s, network, heard))
  {
    hide ValidResponse, Exchange;
  }

  lemma StepStages(r: Race, s: State, a: Action)
    requires Stages(r, s) && Enabled(r, s, a)
    ensures Stages(r, Next(r, s, a))
  {
    hide ValidResponse, Exchange, DoHear, DoTakeTcp, DoTakeFallback;
    match a
    case TakeTcp => TakeTcpStages(r, s);
    case TakeFallback => TakeFallbackStages(r, s);
    case Hear(network, heard) => HearStages(r, s, network, heard);
    case _ =>
  }

  lemma TakeCounted(r: Race, s: State)
    requires Stages(r, s) && Counted(r, s)
    ensures Enabled(r, s, TakeTcp) ==> Counted(r, DoTakeTcp(r, s))
    ensures Enabled(r, s, TakeFallback) ==> Counted(r, DoTakeFallback(r, s))
  {
  }

  lemma HearCounted(r: Race, s: State, network: Network, heard: Option<seq<byte>>)
    requires Counted(r, s) && Enabled(r, s, Hear(network, heard))
    ensures Counted(r, DoHear(r, s, network, heard))
  {
    hide ValidResponse, Exchange;
  }

  lemma SendCounted(r: Race, s: State, j: nat)
    requires Counted(r, s) && Enabled(r, s, Send(j))
    ensures Counted(r, DoSend(s, j))
  {
  }

  lemma StepCounted(r: Race, s: State, a: Action)
    requires Stages(r, s) && Counted(r, s) && Enabled(r, s, a)
    ensures Counted(r, Next(r, s, a))
  {
    hide Stages, DoHear, DoTakeTcp, DoTakeFallback, DoSend;
    match a
    case TakeTcp => TakeCounted(r, s);
    case TakeFallback => TakeCounted(r, s);
    case Hear(network, heard) => HearCounted(r, s, network, heard);
    case Send(j) => SendCounted(r, s, j);
    case _ =>
  }

  lemma StepAnswers(r: Race, s: State, a: Action)
    requires Answers(r, s) && Enabled(r, s, a)
    ensures Answers(r, Next(r, s, a))
  {
    hide ValidResponse, Exchange;
  }

  ghost predicate Possible(r: Race, s: State, actions: seq<Action>)
    decreases |actions|
  {
    actions == [] || (Enabled(r, s, actions[0]) && Possible(r, Next(r, s, actions[0]), actions[1..]))
  }

  ghost function After(r: Race, s: State, actions: seq<Action>): State
    requires Possible(r, s, actions)
    decreases |actions|
  {
    if actions == [] then s else After(r, Next(r, s, actions[0]), actions[1..])
  }

  lemma {:induction false} RunInv(r: Race, s: State, actions: seq<Action>)
    requires Inv(r, s) && Possible(r, s, actions)
    ensures Inv(r, After(r, s, actions))
    decreases |actions|
  {
    hide Stages, Counted, Answers, Enabled, Next;
    if actions != [] {
      StepStages(r, s, actions[0]);
      StepCounted(r, s, actions[0]);
      StepAnswers(r, s, actions[0]);
      RunInv(r, Next(r, s, actions[0]), actions[1..]);
    }
  }

  lemma StartInv(r: Race, actions: seq<Action>)
    requires Possible(r, Start(r), actions)
    ensures Inv(r, After(r, Start(r), actions))
  {
    RunInv(r, Start(r), actions);
  }

  // ----- What holds in every run ---------------------------------------------------------

  /** Each later stage starts at most once, on its own tick, and not before its delay; the fallback waits for the
      longer one. */
  lemma StagesStartOnceInTime(r: Race, actions: seq<Action>)
    requires Possible(r, Start(r), actions) && r.Ordered()
    ensures var s := After(r, Start(r), actions);
            && |s.tcpStarts| <= 1 && |s.fallbackStarts| <= 1
            && (s.tcpStarts != [] ==> s.tcpStarts[0] >= r.tcpDelay)
            && (s.fallbackStarts != [] ==> s.fallbackStarts[0] >= r.tcpDelay && s.fallbackStarts[0] >= r.fallbackDelay)
            && (s.tcpStarts != [] <==> r.primary > 0 && s.tcpTimer.Taken?)
            && (s.fallbackStarts != [] <==> r.fallback > 0 && s.fallbackTimer.Taken?)
  {
    StartInv(r, actions);
  }

  /** Every upstream of every started stage is asked exactly once: it is still being asked, or its response is on
      its way, delivered, or missing. */
  lemma EveryUpstreamAsked(r: Race, actions: seq<Action>)
    requires Possible(r, Start(r), actions) && |r.query| >= 2
    ensures var s := After(r, Start(r), actions);
            s.udp + s.tcp + |s.ready| + s.sends + s.silent ==
            r.primary + (if s.tcpStarts != [] then r.primary else 0)
            + (if s.fallbackStarts != [] then r.fallback else 0)
  {
    StartInv(r, actions);
    RefusedIff(r, Start(r), actions);
  }

  /** How many exchanges over a network ended during a run. */
  function Ended(actions: seq<Action>, network: Network): nat {
    if actions == [] then 0
    else (if actions[0].Hear? && actions[0].network == network then 1 else 0) + Ended(actions[1..], network)
  }

  /** The exchanges over each network that a state accounts for. */
  ghost predicate Account(r: Race, s: State, udpEnded: int, tcpEnded: int) {
    && s.udp + udpEnded == Once(|r.query| >= 2, r.primary) + Once(s.fallbackStarts != [], r.fallback)
    && s.tcp + tcpEnded == Once(s.tcpStarts != [], r.primary)
  }

  lemma HearAccount(r: Race, s: State, network: Network, heard: Option<seq<byte>>, udpEnded: int, tcpEnded: int)
    requires Account(r, s, udpEnded, tcpEnded)
    ensures Account(r, DoHear(r, s, network, heard), udpEnded + Once(network.Udp?, 1), tcpEnded + Once(network.Tcp?, 1))
  {
    hide ValidResponse, Exchange;
  }

  lemma TakeAccount(r: Race, s: State, udpEnded: int, tcpEnded: int)
    requires Stages(r, s) && Account(r, s, udpEnded, tcpEnded)
    ensures Enabled(r, s, TakeTcp) ==> Account(r, DoTakeTcp(r, s), udpEnded, tcpEnded)
    ensures Enabled(r, s, TakeFallback) ==> Account(r, DoTakeFallback(r, s), udpEnded, tcpEnded)
  {
  }

  lemma StepAccount(r: Race, s: State, a: Action, udpEnded: int, tcpEnded: int)
    requires Stages(r, s) && Account(r, s, udpEnded, tcpEnded) && Enabled(r, s, a)
    ensures Account(r, Next(r, s, a), udpEnded + Once(a.Hear? && a.network.Udp?, 1),
                    tcpEnded + Once(a.Hear? && a.network.Tcp?, 1))
  {
    hide DoHear, DoTakeTcp, DoTakeFallback, Stages;
    match a
    case Hear(network, heard) => HearAccount(r, s, network, heard, udpEnded, tcpEnded);
    case TakeTcp => TakeAccount(r, s, udpEnded, tcpEnded);
    case TakeFallback => TakeAccount(r, s, udpEnded, tcpEnded);
    case _ =>
  }

  lemma {:induction false} RunAccount(r: Race, s: State, actions: seq<Action>, udpEnded: int, tcpEnded: int)
    requires Stages(r, s) && Account(r, s, udpEnded, tcpEnded) && Possible(r, s, actions)
    ensures Account(r, After(r, s, actions), udpEnded + Ended(actions, Udp), tcpEnded + Ended(actions, Tcp))
    decreases |actions|
  {
    hide Stages, Account, Enabled, Next;
    if actions != [] {
      var a := actions[0];
      StepStages(r, s, a);
      StepAccount(r, s, a, udpEnded, tcpEnded);
      RunAccount(r, Next(r, s, a), actions[1..], udpEnded + Once(a.Hear? && a.network.Udp?, 1),
                 tcpEnded + Once(a.Hear? && a.network.Tcp?, 1));
    }
  }

  /** The first stage and the fallback ask over UDP, the retry over TCP: per network, the exchanges under way and those
      that ended are the upstreams of the stages that started. */
  lemma StagesUseTheirNetwork(r: Race, actions: seq<Action>)
    requires Possible(r, Start(r), actions) && |r.query| >= 2
    ensures var s := After(r, Start(r), actions);
            && s.udp + Ended(actions, Udp) == r.primary + (if s.fallbackStarts != [] then r.fallback else 0)
            && s.tcp + Ended(actions, Tcp) == if s.tcpStarts != [] then r.primary else 0
  {
    RunAccount(r, Start(r), actions, 0, 0);
  }

  /** The valid responses that were heard during a run. */
  function Valids(r: Race, actions: seq<Action>): multiset<seq<byte>> {
    if actions == [] then multiset{} else Heard(r, actions[0]) + Valids(r, actions[1..])
  }

  function Heard(r: Race, a: Action): multiset<seq<byte>> {
    if !a.Hear? then multiset{}
    else
      var response := Exchange(a.network, r.query, a.heard);
      if response.Some? && ValidResponse(r.query, response.value) then multiset{response.value} else multiset{}
  }

  /** The responses a state holds: at the channel, in it, or returned. */
  function Held(s: State): multiset<seq<byte>> {
    multiset(s.ready) + multiset(s.channel) + if s.outcome.Won? then multiset{s.outcome.response} else multiset{}
  }

  lemma TakeAt<T>(s: seq<T>, j: nat)
    requires j < |s|
    ensures multiset(s) == multiset(s[..j] + s[j + 1..]) + multiset{s[j]}
  {
    assert s == s[..j] + [s[j]] + s[j + 1..];
  }

  lemma Appended<T>(s: seq<T>, x: T)
    ensures multiset(s + [x]) == multiset(s) + multiset{x}
  {
  }

  lemma HearHeld(r: Race, s: State, network: Network, heard: Option<seq<byte>>)
    ensures Held(DoHear(r, s, network, heard)) == Held(s) + Heard(r, Hear(network, heard))
  {
    hide ValidResponse, Exchange;
    var response := Exchange(network, r.query, heard);
    if response.Some? {
      Appended(s.ready, response.value);
    }
  }

  lemma SendHeld(s: State, j: nat)
    requires j < |s.ready|
    ensures Held(DoSend(s, j)) == Held(s)
  {
    TakeAt(s.ready, j);
    Appended(s.channel, s.ready[j]);
    var rest := s.ready[..j] + s.ready[j + 1..];
    assert multiset(s.ready) == multiset(rest) + multiset{s.ready[j]};
  }

  lemma ReceiveHeld(r: Race, s: State)
    requires Enabled(r, s, Receive)
    ensures Held(Next(r, s, Receive)) == Held(s)
  {
    HeadAndTail(s.channel);
    hide Enabled;
  }

  lemma HeadAndTail<T>(s: seq<T>)
    requires s != []
    ensures multiset(s) == multiset{s[0]} + multiset(s[1..])
  {
    assert s == [s[0]] + s[1..];
  }

  lemma StepHeld(r: Race, s: State, a: Action)
    requires Enabled(r, s, a)
    ensures Held(Next(r, s, a)) == Held(s) + Heard(r, a)
  {
    match a
    case Hear(network, heard) =>
      HearHeld(r, s, network, heard);
      hide *;
    case Send(j) =>
      SendHeld(s, j);
      hide Held, DoSend;
    case Receive =>
      ReceiveHeld(r, s);
      hide Held;
    case _ =>
  }

  lemma {:induction false} RunHeld(r: Race, s: State, actions: seq<Action>)
    requires Possible(r, s, actions)
    ensures Held(After(r, s, actions)) == Held(s) + Valids(r, actions)
    decreases |actions|
  {
    hide Held, Heard, Enabled, Next;
    if actions != [] {
      StepHeld(r, s, actions[0]);
      RunHeld(r, Next(r, s, actions[0]), actions[1..]);
    }
  }

  /** Every valid response that was heard is before the channel, in it, or returned, and nothing else is. */
  lemma NoResponseLost(r: Race, actions: seq<Action>)
    requires Possible(r, Start(r), actions)
    ensures Held(After(r, Start(r), actions)) == Valids(r, actions)
  {
    RunHeld(r, Start(r), actions);
    assert Held(Start(r)) == multiset{};
  }

  lemma {:induction false} OutcomeStands(r: Race, s: State, actions: seq<Action>)
    requires Possible(r, s, actions)
    ensures var end := After(r, s, actions).outcome;
            && (!s.outcome.Racing? ==> end == s.outcome)
            && (s.outcome.Racing? ==> (end.Won? <==> Receive in actions) && (end.TimedOut? <==> TakeTimeout in actions)
                                      && !end.Refused? && !(Receive in actions && TakeTimeout in actions))
            && (!s.outcome.Racing? ==> Receive !in actions && TakeTimeout !in actions)
    decreases |actions|
  {
    hide DoHear, DoTakeTcp, DoTakeFallback, DoSend;
    if actions != [] {
      StepOutcome(r, s, actions[0]);
      OutcomeStands(r, Next(r, s, actions[0]), actions[1..]);
      hide Enabled, Next;
      assert forall a :: a in actions <==> a == actions[0] || a in actions[1..];
    }
  }

  lemma StepOutcome(r: Race, s: State, a: Action)
    requires Enabled(r, s, a)
    ensures var s' := Next(r, s, a);
            if a.Receive? then s.outcome.Racing? && s'.outcome.Won?
            else if a.TakeTimeout? then s.outcome.Racing? && s'.outcome.TimedOut?
            else s'.outcome == s.outcome
  {
    hide ValidResponse, Exchange;
  }

  /** A call with a query returns a response iff it took one from the channel, and fails iff it took the timeout, never
      both; a query too short to have an ID is refused. */
  lemma OutcomeIff(r: Race, actions: seq<Action>)
    requires Possible(r, Start(r), actions)
    ensures var end := After(r, Start(r), actions).outcome;
            if |r.query| < 2 then end.Refused?
            else (end.Won? <==> Receive in actions) && (end.TimedOut? <==> TakeTimeout in actions) && !end.Refused?
                 && !(Receive in actions && TakeTimeout in actions)
  {
    OutcomeStands(r, Start(r), actions);
  }

  /** The time a run takes. */
  function Elapsed(actions: seq<Action>): nat {
    if actions == [] then 0 else (if actions[0].Elapse? then actions[0].dt else 0) + Elapsed(actions[1..])
  }

  /** A timer after a run in which it fired or was taken, or not. */
  function Set(before: Timer, taken: bool, fired: bool): Timer {
    if taken then Taken else if fired then Fired else before
  }

  lemma StepTimers(r: Race, s: State, a: Action)
    requires Enabled(r, s, a)
    ensures var s' := Next(r, s, a);
            && s'.now == s.now + (if a.Elapse? then a.dt else 0)
            && s'.tcpTimer == Set(s.tcpTimer, a.TakeTcp?, a.FireTcp?)
            && s'.fallbackTimer == Set(s.fallbackTimer, a.TakeFallback?, a.FireFallback?)
            && s'.timeoutTimer == Set(s.timeoutTimer, false, a.FireTimeout?)
    ensures a.FireTcp? ==> s.tcpTimer.Armed?
    ensures a.FireFallback? ==> s.fallbackTimer.Armed?
    ensures a.TakeTcp? ==> s.tcpTimer.Fired?
    ensures a.TakeFallback? ==> s.fallbackTimer.Fired?
  {
    hide ValidResponse, Exchange;
  }

  lemma {:induction false} RunTimers(r: Race, s: State, actions: seq<Action>)
    requires Possible(r, s, actions)
    ensures var end := After(r, s, actions);
            && end.now == s.now + Elapsed(actions)
            && end.tcpTimer == Set(s.tcpTimer, TakeTcp in actions, FireTcp in actions)
            && end.fallbackTimer == Set(s.fallbackTimer, TakeFallback in actions, FireFallback in actions)
            && end.timeoutTimer == Set(s.timeoutTimer, false, FireTimeout in actions)
    ensures s.tcpTimer.Taken? ==> FireTcp !in actions
    ensures s.fallbackTimer.Taken? ==> FireFallback !in actions
    decreases |actions|
  {
    hide Enabled, Next;
    if actions != [] {
      StepTimers(r, s, actions[0]);
      RunTimers(r, Next(r, s, actions[0]), actions[1..]);
      assert forall a :: a in actions <==> a == actions[0] || a in actions[1..];
    }
  }

  /** The clock is what has elapsed since the call, and each timer is as armed, fired or taken as the run made it; a
      call times out only when it has lasted that long. */
  lemma TimersFollow(r: Race, actions: seq<Action>)
    requires Possible(r, Start(r), actions)
    ensures var s := After(r, Start(r), actions);
            && s.now == Elapsed(actions)
            && s.tcpTimer == Set(Armed, TakeTcp in actions, FireTcp in actions)
            && s.fallbackTimer == Set(Armed, TakeFallback in actions, FireFallback in actions)
            && s.timeoutTimer == Set(Armed, false, FireTimeout in actions)
            && (s.timeoutTimer.Fired? || s.outcome.TimedOut? ==> Elapsed(actions) >= r.timeoutSet + r.timeout)
  {
    RunTimers(r, Start(r), actions);
    RunTimeout(r, Start(r), actions);
  }

  ghost predicate TimeoutOk(r: Race, s: State) {
    s.timeoutTimer.Fired? || s.outcome.TimedOut? ==> s.now >= r.timeoutSet + r.timeout
  }

  lemma {:induction false} RunTimeout(r: Race, s: State, actions: seq<Action>)
    requires TimeoutOk(r, s) && Possible(r, s, actions)
    ensures TimeoutOk(r, After(r, s, actions))
    decreases |actions|
  {
    hide ValidResponse, Exchange;
    if actions != [] {
      RunTimeout(r, Next(r, s, actions[0]), actions[1..]);
    }
  }

  /** Nothing holds a race back: exchanges under way can end, a waiting response and a fired timer can be taken, and a
      timer fires once its time has come, the fallback's not before the retry's. */
  lemma NothingHeldBack(r: Race, s: State, heard: Option<seq<byte>>)
    requires s.outcome.Racing? && r.Ordered() && r.tcpDelay >= 0 && r.fallbackDelay >= 0 && r.timeout >= 0
    ensures forall dt :: Enabled(r, s, Elapse(dt))
    ensures s.udp > 0 ==> Enabled(r, s, Hear(Udp, heard))
    ensures s.tcp > 0 ==> Enabled(r, s, Hear(Tcp, heard))
    ensures s.tcpTimer.Armed? && s.now >= r.tcpSet + r.tcpDelay ==> Enabled(r, s, FireTcp)
    ensures s.fallbackTimer.Armed? ==>
              s.now >= r.fallbackSet + r.fallbackDelay && s.now >= r.fallbackSet + r.tcpDelay ==>
                Enabled(r, s, FireFallback)
    ensures s.timeoutTimer.Armed? && s.now >= r.timeoutSet + r.timeout ==> Enabled(r, s, FireTimeout)
    ensures s.now >= r.timeoutSet ==>
              && (s.channel != [] ==> Enabled(r, s, Receive))
              && (s.tcpTimer.Fired? ==> Enabled(r, s, TakeTcp))
              && (s.fallbackTimer.Fired? ==> Enabled(r, s, TakeFallback))
              && (s.timeoutTimer.Fired? ==> Enabled(r, s, TakeTimeout))
  {
  }

  lemma {:induction false} RefusedIff(r: Race, s: State, actions: seq<Action>)
    requires Possible(r, s, actions) && !s.outcome.Refused?
    ensures !After(r, s, actions).outcome.Refused?
    decreases |actions|
  {
    if actions != [] {
      RefusedIff(r, Next(r, s, actions[0]), actions[1..]);
    }
  }

  /** No goroutine ever waits at the channel, whether the call has returned or not; in all, no more is sent than
      the channel can hold. */
  lemma SendersNeverBlock(r: Race, actions: seq<Action>, j: nat)
    requires Possible(r, Start(r), actions)
    ensures var s := After(r, Start(r), actions);
            && s.sends <= 2 * r.primary + r.fallback == r.Capacity()
            && (j < |s.ready| ==> Enabled(r, s, Send(j)))
  {
    StartInv(r, actions);
  }

  /** At most two rounds do not return: after two of them every round does. */
  lemma AtMostTwoTurns(r: Race, actions: seq<Action>, a: Action)
    requires Possible(r, Start(r), actions)
    requires a.Receive? || a.TakeTcp? || a.TakeFallback? || a.TakeTimeout?
    ensures var s := After(r, Start(r), actions);
            && s.turns <= 2
            && (s.turns == 2 && Enabled(r, s, a) ==> !Next(r, s, a).outcome.Racing?)
            && (Selecting(r, s) && s.timeoutTimer.Fired? ==> Enabled(r, s, TakeTimeout))
  {
    StartInv(r, actions);
  }

  /** A response that is returned is valid for the query, and fits a 16-bit length. */
  lemma AnswerIsValid(r: Race, actions: seq<Action>)
    requires Possible(r, Start(r), actions) && After(r, Start(r), actions).outcome.Won?
    ensures var response := After(r, Start(r), actions).outcome.response;
            ValidResponse(r.query, response) && |response| <= 65535
  {
    StartInv(r, actions);
  }

  /** w answers every race of the TCP loop as some run of raceQuery on that query does. */
  ghost predicate Raced(w: World) {
    forall i, q :: w.race(i, q).Some? ==>
      exists r, actions :: ReturnedBy(r, actions, q, w.race(i, q).value)
  }

  ghost predicate ReturnedBy(r: Race, actions: seq<Action>, query: seq<byte>, response: seq<byte>) {
    r.query == query && Possible(r, Start(r), actions) && After(r, Start(r), actions).outcome == Won(response)
  }

  /** What the TCP loop relies on. */
  lemma RacesAreLawful(w: World)
    requires Raced(w)
    ensures Lawful(w)
  {
    forall i, q | w.race(i, q).Some?
      ensures ValidResponse(q, w.race(i, q).value) && |w.race(i, q).value| <= 65535
    {
      var r, actions :| ReturnedBy(r, actions, q, w.race(i, q).value);
      AnswerIsValid(r, actions);
    }
  }
}
