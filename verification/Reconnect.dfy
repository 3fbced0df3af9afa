/**
  The reconnecting client (dao/client.js, lines 99-221 and 281-288) as a machine over the events
  Node delivers to it. Sockets and timers are numbered in the order they are created.
*/
module Reconnect {
  import opened Common

  /** config.maxRetries and what is left of it */
  datatype Budget = Finite(n: int) | Infinite {
    predicate Spent() { Finite? && n < 1 }
    function Less(): Budget { if Finite? then Finite(n - 1) else Infinite }
  }

  /** Fixed for a client: its retry budget, whether it has a path, whether its transport is refused. */
  datatype Config = Config(maxRetries: Budget, hasPath: bool, refused: bool)

  datatype Socket = Socket(destroyed: bool, connected: bool, closed: bool)

  datatype Note = Opened(automatic: bool) | Connect | Disconnect | Destroy | Error

  datatype State = State(
    socket: Option<nat>,             // the current socket
    retryTimer: Option<nat>,
    retriesRemaining: Budget,
    explicitlyDisconnected: bool,
    protocolViolation: bool,
    sockets: seq<Socket>,            // all sockets this client has opened
    timers: map<nat, nat>,           // timers that can still fire, and the socket each closes over
    nextTimer: nat,
    log: seq<Note>)

  /** `stop` is the value config.stopRetrying has when the event is handled. */
  datatype Event =
    | ManualConnect
    | Dies(s: nat)                   // Node destroys the socket on its own account
    | Connected(s: nat)
    | Closed(s: nat, stop: bool)
    | Fires(t: nat, stop: bool)
    | Violates(s: nat)               // protocolFailure
    | Evicted                        // disconnect, or replacement in the registry

  function New(cfg: Config): (c: State)
    ensures Inv(cfg, c)
  {
    State(None, None, cfg.maxRetries, false, false, [], map[], 0, [])
  }

  // ----- the handlers -----

  function DestroySocket(c: State, s: nat): State
    requires s < |c.sockets|
  {
    c.(sockets := c.sockets[s := c.sockets[s].(destroyed := true)])
  }

  function ClearRetry(c: State): State {
    if c.retryTimer.None? then c else c.(retryTimer := None, timers := c.timers - {c.retryTimer.value})
  }

  function Publish(c: State, note: Note): State {
    c.(log := c.log + [note])
  }

  function ConnectStep(cfg: Config, c: State, automatic: bool): State
    requires c.socket.Some? ==> c.socket.value < |c.sockets|
  {
    if !cfg.hasPath then c
    else if c.socket.Some? && !c.sockets[c.socket.value].destroyed then c
    else
      var d := ClearRetry(c);
      if cfg.refused then d
      else Publish(d.(socket := Some(|d.sockets|), sockets := d.sockets + [Socket(false, false, false)]), Opened(automatic))
  }

  function ConnectedStep(cfg: Config, c: State, s: nat): State {
    if c.socket != Some(s) then c else Publish(c.(retriesRemaining := cfg.maxRetries), Connect)
  }

  predicate GivesUp(c: State, stop: bool) {
    stop || c.retriesRemaining.Spent() || c.explicitlyDisconnected || c.protocolViolation
  }

  function ClosedStep(c: State, s: nat, stop: bool): State
    requires s < |c.sockets|
  {
    if c.socket != Some(s) then c
    else if GivesUp(c, stop) then Publish(DestroySocket(Publish(c, Disconnect), s), Destroy)
    else Publish(c.(retryTimer := Some(c.nextTimer), timers := c.timers[c.nextTimer := s], nextTimer := c.nextTimer + 1), Disconnect)
  }

  function FiresStep(cfg: Config, c: State, t: nat, stop: bool): State
    requires t in c.timers && c.timers[t] < |c.sockets|
    requires c.socket.Some? ==> c.socket.value < |c.sockets|
  {
    var s := c.timers[t];
    var d := c.(timers := c.timers - {t}, retryTimer := None);
    if d.explicitlyDisconnected then d
    else if stop then Publish(DestroySocket(d, s), Destroy)
    else ConnectStep(cfg, d.(retriesRemaining := d.retriesRemaining.Less()), true)
  }

  function ViolatesStep(c: State, s: nat): State
    requires s < |c.sockets|
  {
    Publish(DestroySocket(c.(protocolViolation := true), s), Error)
  }

  function EvictedStep(c: State): State
    requires c.socket.Some? ==> c.socket.value < |c.sockets|
  {
    var d := ClearRetry(c.(explicitlyDisconnected := true));
    if d.socket.Some? then DestroySocket(d, d.socket.value) else d
  }

  // ----- what Node can do, and the machine -----

  /** A socket connects or closes at most once, closes only when destroyed, and never connects after that. */
  predicate Enabled(c: State, e: Event) {
    match e
    case Dies(s) => s < |c.sockets| && !c.sockets[s].destroyed
    case Connected(s) => s < |c.sockets| && !c.sockets[s].destroyed && !c.sockets[s].connected
    case Closed(s, _) => s < |c.sockets| && c.sockets[s].destroyed && !c.sockets[s].closed
    case Fires(t, _) => t in c.timers
    case Violates(s) => s < |c.sockets|
    case _ => true
  }

  ghost predicate Sound(c: State) {
    && (c.socket.Some? ==> c.socket.value < |c.sockets|)
    && forall t :: t in c.timers ==> c.timers[t] < |c.sockets|
  }

  function Step(cfg: Config, c: State, e: Event): State
    requires Sound(c) && Enabled(c, e)
  {
    match e
    case ManualConnect => ConnectStep(cfg, c, false)
    case Dies(s) => DestroySocket(c, s)
    case Connected(s) => ConnectedStep(cfg, c.(sockets := c.sockets[s := c.sockets[s].(connected := true)]), s)
    case Closed(s, stop) => ClosedStep(c.(sockets := c.sockets[s := c.sockets[s].(closed := true)]), s, stop)
    case Fires(t, stop) => FiresStep(cfg, c, t, stop)
    case Violates(s) => ViolatesStep(c, s)
    case Evicted => EvictedStep(c)
  }

  /** The client object: the handlers of the source update its fields. */
  class Client {
    const cfg: Config
    var socket: Option<nat>
    var retryTimer: Option<nat>
    var retriesRemaining: Budget
    var explicitlyDisconnected: bool
    var protocolViolation: bool
    var sockets: seq<Socket>
    var timers: map<nat, nat>
    var nextTimer: nat
    var log: seq<Note>

    function View(): State
      reads this
    {
      State(socket, retryTimer, retriesRemaining, explicitlyDisconnected, protocolViolation, sockets, timers, nextTimer, log)
    }

    constructor (cfg: Config)
      ensures this.cfg == cfg && View() == New(cfg)
    {
      this.cfg := cfg;
      socket, retryTimer, retriesRemaining := None, None, cfg.maxRetries;
      explicitlyDisconnected, protocolViolation := false, false;
      sockets, timers, nextTimer, log := [], map[], 0, [];
    }

    method ConnectClient(automatic: bool)
      requires Sound(View())
      modifies this
      ensures View() == ConnectStep(cfg, old(View()), automatic)
    {
      if !cfg.hasPath { return; }
      if socket.Some? && !sockets[socket.value].destroyed { return; }
      if retryTimer.Some? {
        timers := timers - {retryTimer.value};
        retryTimer := None;
      }
      if cfg.refused { return; }
      socket := Some(|sockets|);
      sockets := sockets + [Socket(false, false, false)];
      log := log + [Opened(automatic)];
    }

    method HandleConnected(s: nat)
      modifies this
      ensures View() == ConnectedStep(cfg, old(View()), s)
    {
      if socket != Some(s) { return; }
      retriesRemaining := cfg.maxRetries;
      log := log + [Connect];
    }

    method HandleClosed(s: nat, stop: bool)
      requires s < |sockets|
      modifies this
      ensures View() == ClosedStep(old(View()), s, stop)
    {
      if socket != Some(s) { return; }
      if stop || retriesRemaining.Spent() || explicitlyDisconnected || protocolViolation {
        log := log + [Disconnect];
        sockets := sockets[s := sockets[s].(destroyed := true)];
        log := log + [Destroy];
        return;
      }
      retryTimer := Some(nextTimer);
      timers := timers[nextTimer := s];
      nextTimer := nextTimer + 1;
      log := log + [Disconnect];
    }

    method RetryFires(t: nat, stop: bool)
      requires t in timers && Sound(View())
      modifies this
      ensures View() == FiresStep(cfg, old(View()), t, stop)
    {
      var s := timers[t];
      timers := timers - {t};
      retryTimer := None;
      if explicitlyDisconnected { return; }
      if stop {
        sockets := sockets[s := sockets[s].(destroyed := true)];
        log := log + [Destroy];
        return;
      }
      retriesRemaining := retriesRemaining.Less();
      ConnectClient(true);
    }

    method ProtocolFailure(s: nat)
      requires s < |sockets|
      modifies this
      ensures View() == ViolatesStep(old(View()), s)
    {
      protocolViolation := true;
      sockets := sockets[s := sockets[s].(destroyed := true)];
      log := log + [Error];
    }
  }

  // ----- the invariant -----

  /** Automatic reconnects since the last successful connect. */
  function Autos(log: seq<Note>): nat
    decreases |log|
  {
    if log == [] then 0
    else match log[|log| - 1]
      case Connect => 0
      case Opened(true) => Autos(log[..|log| - 1]) + 1
      case _ => Autos(log[..|log| - 1])
  }

  /** A finite budget is exactly the automatic reconnects spent since the last connect and those left. */
  ghost predicate InBudget(cfg: Config, c: State) {
    match cfg.maxRetries
    case Infinite => c.retriesRemaining == Infinite
    case Finite(m) =>
      && c.retriesRemaining.Finite?
      && (if m >= 0 then 0 <= c.retriesRemaining.n && Autos(c.log) + c.retriesRemaining.n == m
          else c.retriesRemaining.n == m && Autos(c.log) == 0)
      && (c.timers != map[] ==> c.retriesRemaining.n >= 1)
  }

  /** The invariant but for the budget. */
  ghost predicate Shape(cfg: Config, c: State) {
    && Sound(c)
    && (if c.sockets == [] then c.socket.None? else c.socket == Some(|c.sockets| - 1))
    && (c.retryTimer.None? ==> c.timers == map[])
    && (c.socket.Some? ==> cfg.hasPath && !cfg.refused)
    && (c.retryTimer.Some? ==> c.socket.Some? && c.timers == map[c.retryTimer.value := c.socket.value])
    && (c.retryTimer.Some? ==> c.sockets[c.socket.value].closed && !c.explicitlyDisconnected)
    && (forall s :: 0 <= s < |c.sockets| ==> (c.sockets[s].closed || c.socket != Some(s) ==> c.sockets[s].destroyed))
  }

  ghost predicate Inv(cfg: Config, c: State) {
    Shape(cfg, c) && InBudget(cfg, c)
  }

  lemma AutosAppend(log: seq<Note>, note: Note)
    ensures Autos(log + [note]) == match note { case Connect => 0 case Opened(true) => Autos(log) + 1 case _ => Autos(log) }
  {
    assert (log + [note])[..|log|] == log;
  }

  lemma ClearKeeps(cfg: Config, c: State)
    requires Inv(cfg, c)
    ensures Inv(cfg, ClearRetry(c)) && ClearRetry(c).timers == map[] && ClearRetry(c).retryTimer == None
  {
  }

  lemma AutoConnectKeeps(cfg: Config, c: State)
    requires Shape(cfg, c) && c.timers == map[] && c.retryTimer.None?
    requires c.socket.Some? && c.sockets[c.socket.value].destroyed
    requires InBudget(cfg, c.(log := c.log + [Opened(true)]))
    ensures Inv(cfg, ConnectStep(cfg, c, true))
  {
  }

  lemma ConnectKeeps(cfg: Config, c: State)
    requires Inv(cfg, c)
    ensures Inv(cfg, ConnectStep(cfg, c, false))
  {
    hide Autos;
    ClearKeeps(cfg, c);
    AutosAppend(c.log, Opened(false));
    var d := ClearRetry(c);
    assert d.socket == c.socket && d.sockets == c.sockets && d.log == c.log && d.retriesRemaining == c.retriesRemaining;
  }

  lemma ClosedKeeps(cfg: Config, c: State, s: nat, stop: bool)
    requires Inv(cfg, c) && Enabled(c, Closed(s, stop))
    ensures Inv(cfg, Step(cfg, c, Closed(s, stop)))
  {
    hide Autos;
    AutosAppend(c.log, Disconnect);
    AutosAppend(c.log + [Disconnect], Destroy);
  }

  lemma FiresKeeps(cfg: Config, c: State, t: nat, stop: bool)
    requires Inv(cfg, c) && Enabled(c, Fires(t, stop))
    ensures Inv(cfg, Step(cfg, c, Fires(t, stop)))
  {
    hide Autos;
    AutosAppend(c.log, Destroy);
    AutosAppend(c.log, Opened(true));
    var d := c.(timers := c.timers - {t}, retryTimer := None);
    assert d.timers == map[];
    if !stop {
      AutoConnectKeeps(cfg, d.(retriesRemaining := d.retriesRemaining.Less()));
    }
  }

  lemma ManualKeeps(cfg: Config, c: State)
    requires Inv(cfg, c)
    ensures Inv(cfg, Step(cfg, c, ManualConnect))
  {
    hide Autos;
    ConnectKeeps(cfg, c);
  }

  lemma DiesKeeps(cfg: Config, c: State, s: nat)
    requires Inv(cfg, c) && Enabled(c, Dies(s))
    ensures Inv(cfg, Step(cfg, c, Dies(s)))
  {
    hide Autos;
  }

  lemma ConnectedKeeps(cfg: Config, c: State, s: nat)
    requires Inv(cfg, c) && Enabled(c, Connected(s))
    ensures Inv(cfg, Step(cfg, c, Connected(s)))
  {
    hide Autos;
    AutosAppend(c.log, Connect);
  }

  lemma ViolatesKeeps(cfg: Config, c: State, s: nat)
    requires Inv(cfg, c) && Enabled(c, Violates(s))
    ensures Inv(cfg, Step(cfg, c, Violates(s)))
  {
    hide Autos;
    AutosAppend(c.log, Error);
  }

  lemma EvictedKeeps(cfg: Config, c: State)
    requires Inv(cfg, c)
    ensures Inv(cfg, Step(cfg, c, Evicted))
  {
    hide Autos;
    ClearKeeps(cfg, c);
  }

  lemma StepKeepsInv(cfg: Config, c: State, e: Event)
    requires Inv(cfg, c) && Enabled(c, e)
    ensures Inv(cfg, Step(cfg, c, e))
  {
    hide Inv;
    match e
    case ManualConnect => ManualKeeps(cfg, c);
    case Dies(s) => DiesKeeps(cfg, c, s);
    case Connected(s) => ConnectedKeeps(cfg, c, s);
    case Closed(s, stop) => ClosedKeeps(cfg, c, s, stop);
    case Fires(t, stop) => FiresKeeps(cfg, c, t, stop);
    case Violates(s) => ViolatesKeeps(cfg, c, s);
    case Evicted => EvictedKeeps(cfg, c);
  }

  // ----- whole runs -----

  ghost predicate Runs(cfg: Config, c: State, es: seq<Event>)
    requires Inv(cfg, c)
    decreases |es|
  {
    es == [] || (Enabled(c, es[0]) && (StepKeepsInv(cfg, c, es[0]); Runs(cfg, Step(cfg, c, es[0]), es[1..])))
  }

  ghost function After(cfg: Config, c: State, es: seq<Event>): (d: State)
    requires Inv(cfg, c) && Runs(cfg, c, es)
    ensures Inv(cfg, d)
    decreases |es|
  {
    if es == [] then c else (StepKeepsInv(cfg, c, es[0]); After(cfg, Step(cfg, c, es[0]), es[1..]))
  }

  /**
    At every point of every run: at most one retry timer is armed, and only while the current socket is
    closed; at most one socket is alive, the current one; and the automatic reconnects since the last
    successful connect stay within maxRetries.
  */
  lemma ReconnectSafety(cfg: Config, es: seq<Event>)
    requires Runs(cfg, New(cfg), es)
    ensures var c := After(cfg, New(cfg), es);
            && |c.timers| <= 1
            && (c.timers != map[] ==> c.socket.Some? && c.sockets[c.socket.value].closed)
            && (forall s :: 0 <= s < |c.sockets| && !c.sockets[s].destroyed ==> c.socket == Some(s))
            && (cfg.maxRetries.Finite? ==> Autos(c.log) <= Max(0, cfg.maxRetries.n))
  {
    var c := After(cfg, New(cfg), es);
    if c.retryTimer.Some? { assert c.timers.Keys == {c.retryTimer.value}; }
  }

  /** Automatic reconnects over the whole life of the client. */
  function AutoOpens(log: seq<Note>): nat
    decreases |log|
  {
    if log == [] then 0
    else AutoOpens(log[..|log| - 1]) + if log[|log| - 1] == Opened(true) then 1 else 0
  }

  lemma AutoOpensAppend(log: seq<Note>, note: Note)
    ensures AutoOpens(log + [note]) == AutoOpens(log) + if note == Opened(true) then 1 else 0
  {
    assert (log + [note])[..|log|] == log;
  }

  ghost predicate InTrouble(c: State) {
    c.explicitlyDisconnected || c.protocolViolation
  }

  lemma TroubleStep(cfg: Config, c: State, e: Event)
    requires Inv(cfg, c) && Enabled(c, e) && InTrouble(c)
    ensures var d := Step(cfg, c, e);
            && InTrouble(d) && (c.explicitlyDisconnected ==> d.explicitlyDisconnected)
            && d.timers.Keys <= c.timers.Keys
            && AutoOpens(d.log) + |d.timers| <= AutoOpens(c.log) + |c.timers|
  {
    hide AutoOpens, InBudget;
    if c.retryTimer.Some? { assert c.timers.Keys == {c.retryTimer.value}; }
    match e
    case ManualConnect => AutoOpensAppend(c.log, Opened(false));
    case Dies(s) =>
    case Connected(s) => AutoOpensAppend(c.log, Connect);
    case Closed(s, _) =>
      AutoOpensAppend(c.log, Disconnect);
      AutoOpensAppend(c.log + [Disconnect], Destroy);
    case Fires(t, _) =>
      assert c.timers - {t} == map[];
      AutoOpensAppend(c.log, Destroy);
      AutoOpensAppend(c.log, Opened(true));
    case Violates(s) => AutoOpensAppend(c.log, Error);
    case Evicted =>
  }

  /**
    Once the client is explicitly disconnected or in protocol violation, no retry timer is armed any more.
    A timer armed before a violation may still reconnect, once; after an explicit disconnect none does.
  */
  lemma {:induction false} NoNewTimers(cfg: Config, c: State, es: seq<Event>)
    requires Inv(cfg, c) && Runs(cfg, c, es) && InTrouble(c)
    ensures var d := After(cfg, c, es);
            && d.timers.Keys <= c.timers.Keys
            && AutoOpens(d.log) <= AutoOpens(c.log) + |c.timers|
            && (c.explicitlyDisconnected ==> d.timers == map[] && AutoOpens(d.log) == AutoOpens(c.log))
    decreases |es|
  {
    if c.explicitlyDisconnected { assert c.timers == map[]; }
    if es != [] {
      TroubleStep(cfg, c, es[0]);
      StepKeepsInv(cfg, c, es[0]);
      LogGrows(cfg, c, es[0]);
      NoNewTimers(cfg, Step(cfg, c, es[0]), es[1..]);
    }
  }

  lemma LogGrows(cfg: Config, c: State, e: Event)
    requires Inv(cfg, c) && Enabled(c, e)
    ensures AutoOpens(c.log) <= AutoOpens(Step(cfg, c, e).log)
  {
    hide AutoOpens, InBudget;
    match e
    case ManualConnect => AutoOpensAppend(c.log, Opened(false));
    case Dies(s) =>
    case Connected(s) => AutoOpensAppend(c.log, Connect);
    case Closed(s, _) =>
      AutoOpensAppend(c.log, Disconnect);
      AutoOpensAppend(c.log + [Disconnect], Destroy);
    case Fires(t, _) =>
      AutoOpensAppend(c.log, Destroy);
      AutoOpensAppend(c.log, Opened(true));
    case Violates(s) => AutoOpensAppend(c.log, Error);
    case Evicted =>
  }

  lemma RunsMore(cfg: Config, c: State, e: Event, es: seq<Event>)
    requires Inv(cfg, c) && Enabled(c, e)
    ensures Inv(cfg, Step(cfg, c, e))
    ensures Runs(cfg, Step(cfg, c, e), es) ==>
              Runs(cfg, c, [e] + es) && After(cfg, c, [e] + es) == After(cfg, Step(cfg, c, e), es)
  {
    hide Inv, Step, Enabled;
    StepKeepsInv(cfg, c, e);
    assert ([e] + es)[1..] == es;
  }

  /** An armed timer that fires opens a socket. */
  lemma ArmedTimerReconnects(cfg: Config, c: State)
    requires Inv(cfg, c) && c.timers != map[]
    ensures exists es :: Runs(cfg, c, es) && AutoOpens(After(cfg, c, es).log) > AutoOpens(c.log)
  {
    hide AutoOpens;
    var e := Fires(c.retryTimer.value, false);
    RunsMore(cfg, c, e, []);
    AutoOpensAppend(c.log, Opened(true));
    assert Runs(cfg, Step(cfg, c, e), []);
    assert Runs(cfg, c, [e] + []) && AutoOpens(After(cfg, c, [e] + []).log) > AutoOpens(c.log);
  }

  /**
    The callback does not test protocolViolation: a client in violation can still reconnect by itself
    if and only if a retry timer was armed at that moment.
  */
  lemma ViolationReconnectsIff(cfg: Config, c: State)
    requires Inv(cfg, c) && c.protocolViolation
    ensures (exists es :: Runs(cfg, c, es) && AutoOpens(After(cfg, c, es).log) > AutoOpens(c.log)) <==> c.timers != map[]
  {
    hide Inv, AutoOpens, Runs, After;
    if c.timers != map[] {
      ArmedTimerReconnects(cfg, c);
    } else {
      forall es | Runs(cfg, c, es) ensures AutoOpens(After(cfg, c, es).log) <= AutoOpens(c.log) {
        NoNewTimers(cfg, c, es);
      }
    }
  }

  /** Such a client can be reached: its socket closes, arming the timer, and is then found in violation. */
  lemma ViolationWithArmedTimer()
    ensures var cfg, es := Config(Finite(1), true, false), [ManualConnect, Dies(0), Closed(0, false), Violates(0)];
            && Runs(cfg, New(cfg), es)
            && After(cfg, New(cfg), es).protocolViolation && After(cfg, New(cfg), es).timers != map[]
  {
    hide Inv, Runs, After;
    var cfg := Config(Finite(1), true, false);
    var c1 := Step(cfg, New(cfg), ManualConnect);
    RunsMore(cfg, New(cfg), ManualConnect, [Dies(0), Closed(0, false), Violates(0)]);
    var c2 := Step(cfg, c1, Dies(0));
    RunsMore(cfg, c1, Dies(0), [Closed(0, false), Violates(0)]);
    var c3 := Step(cfg, c2, Closed(0, false));
    RunsMore(cfg, c2, Closed(0, false), [Violates(0)]);
    RunsMore(cfg, c3, Violates(0), []);
    RunsNothing(cfg, Step(cfg, c3, Violates(0)));
    assert 0 in c3.timers;
    assert [ManualConnect] + [Dies(0), Closed(0, false), Violates(0)] == [ManualConnect, Dies(0), Closed(0, false), Violates(0)];
    assert [Dies(0)] + [Closed(0, false), Violates(0)] == [Dies(0), Closed(0, false), Violates(0)];
    assert [Closed(0, false)] + [Violates(0)] == [Closed(0, false), Violates(0)];
    assert [Violates(0)] + [] == [Violates(0)];
  }

  lemma RunsNothing(cfg: Config, c: State)
    requires Inv(cfg, c)
    ensures Runs(cfg, c, []) && After(cfg, c, []) == c
  {
  }

  // ----- exactly when the handlers retry, open and give up -----

  /**
    At every point of every run: when the current socket closes, a retry timer is armed if and only if
    retrying is not switched off, the client is neither disconnected nor in violation, and fewer than
    maxRetries automatic reconnects happened since the last successful connect. Otherwise it gives up.
    The close of an older socket is ignored.
  */
  lemma CloseArmsIff(cfg: Config, es: seq<Event>, s: nat, stop: bool)
    requires Runs(cfg, New(cfg), es) && Enabled(After(cfg, New(cfg), es), Closed(s, stop))
    ensures var c := After(cfg, New(cfg), es);
            var d := Step(cfg, c, Closed(s, stop));
            var arms := !stop && !InTrouble(c) && (cfg.maxRetries.Finite? ==> Autos(c.log) < cfg.maxRetries.n);
            if c.socket == Some(s) then
              && c.timers == map[]
              && (d.timers != map[] <==> arms)
              && d.log == c.log + (if arms then [Disconnect] else [Disconnect, Destroy])
            else d.timers == c.timers && d.log == c.log
  {
    hide Runs, After, Autos;
    var c := After(cfg, New(cfg), es);
    assert c.log + [Disconnect] + [Destroy] == c.log + [Disconnect, Destroy];
    if c.socket == Some(s) && !GivesUp(c, stop) {
      assert c.nextTimer in Step(cfg, c, Closed(s, stop)).timers;
    }
  }

  /** A timer that fires is spent, and opens a socket if and only if retrying is not switched off meanwhile. */
  lemma FireOpensIff(cfg: Config, es: seq<Event>, t: nat, stop: bool)
    requires Runs(cfg, New(cfg), es) && Enabled(After(cfg, New(cfg), es), Fires(t, stop))
    ensures var c := After(cfg, New(cfg), es);
            var d := Step(cfg, c, Fires(t, stop));
            && d.timers == map[]
            && d.sockets == c.sockets + (if stop then [] else [Socket(false, false, false)])
            && d.log == c.log + (if stop then [Destroy] else [Opened(true)])
  {
    hide Runs, After, Autos;
    var c := After(cfg, New(cfg), es);
    assert c.timers == map[t := c.socket.value];
    assert c.timers - {t} == map[];
    assert c.sockets[c.socket.value := c.sockets[c.socket.value].(destroyed := true)] == c.sockets;
  }

  /** connect() opens a socket if and only if the client may connect and has no live socket; no timer is left then. */
  lemma CallOpensIff(cfg: Config, es: seq<Event>)
    requires Runs(cfg, New(cfg), es)
    ensures var c := After(cfg, New(cfg), es);
            var d := Step(cfg, c, ManualConnect);
            if cfg.hasPath && !cfg.refused && (forall s :: 0 <= s < |c.sockets| ==> c.sockets[s].destroyed) then
              && d.sockets == c.sockets + [Socket(false, false, false)] && d.log == c.log + [Opened(false)]
              && d.timers == map[]
            else d == c
  {
    hide Runs, After, Autos;
  }

  /** A violation of the current socket is the end of it: an error, and when it closes the client gives up. */
  lemma ViolationGivesUp(cfg: Config, c: State, s: nat, stop: bool)
    requires Inv(cfg, c) && c.socket == Some(s) && !c.sockets[s].closed
    ensures var d := Step(cfg, c, Violates(s));
            && Inv(cfg, d) && Enabled(d, Closed(s, stop))
            && Step(cfg, d, Closed(s, stop)).log == c.log + [Error, Disconnect, Destroy]
            && Step(cfg, d, Closed(s, stop)).timers == map[]
  {
    hide Autos;
    StepKeepsInv(cfg, c, Violates(s));
    assert c.log + [Error] + [Disconnect] + [Destroy] == c.log + [Error, Disconnect, Destroy];
  }

  // ----- a server that is not there -----

  function Destroys(log: seq<Note>): nat
    decreases |log|
  {
    if log == [] then 0
    else Destroys(log[..|log| - 1]) + if log[|log| - 1] == Destroy then 1 else 0
  }

  lemma DestroysAppend(log: seq<Note>, note: Note)
    ensures Destroys(log + [note]) == Destroys(log) + if note == Destroy then 1 else 0
  {
    assert (log + [note])[..|log|] == log;
  }

  /** Only failures happen: sockets die and close, timers fire, and retrying is not switched off. */
  predicate Failing(e: Event) {
    e.Dies? || (e.Closed? && !e.stop) || (e.Fires? && !e.stop)
  }

  /** A failure the client takes notice of: not the late close of an older socket. */
  predicate Noticed(c: State, e: Event) {
    Failing(e) && (e.Closed? ==> c.socket == Some(e.s))
  }

  /** The sockets still to close. */
  function Unclosed(sockets: seq<Socket>): nat {
    if sockets == [] then 0 else Unclosed(sockets[1..]) + if sockets[0].closed then 0 else 1
  }

  lemma {:induction false} UnclosedAppend(sockets: seq<Socket>, last: Socket)
    ensures Unclosed(sockets + [last]) == Unclosed(sockets) + if last.closed then 0 else 1
  {
    if sockets != [] {
      assert (sockets + [last])[1..] == sockets[1..] + [last];
      UnclosedAppend(sockets[1..], last);
    }
  }

  lemma {:induction false} UnclosedUpdate(sockets: seq<Socket>, s: nat, socket: Socket)
    requires s < |sockets|
    ensures Unclosed(sockets[s := socket]) + (if sockets[s].closed then 0 else 1) == Unclosed(sockets) + if socket.closed then 0 else 1
  {
    if s == 0 {
      assert sockets[s := socket][1..] == sockets[1..];
    } else {
      assert sockets[s := socket][1..] == sockets[1..][s - 1 := socket];
      UnclosedUpdate(sockets[1..], s - 1, socket);
    }
  }

  lemma {:induction false} NoneUnclosed(sockets: seq<Socket>)
    ensures Unclosed(sockets) == 0 <==> forall s :: 0 <= s < |sockets| ==> sockets[s].closed
  {
    if sockets != [] {
      NoneUnclosed(sockets[1..]);
      assert forall s :: 0 < s < |sockets| ==> sockets[s] == sockets[1..][s - 1];
    }
  }

  function Older(c: State): seq<Socket> {
    if c.sockets == [] then [] else c.sockets[..|c.sockets| - 1]
  }

  ghost predicate Done(c: State) {
    c.socket.Some? && c.socket.value < |c.sockets| && c.sockets[c.socket.value].closed && c.timers == map[]
  }

  /** A client that has a socket, has not given up, and is free to retry. */
  ghost predicate Started(cfg: Config, m: int, c: State) {
    Inv(cfg, c) && cfg.maxRetries == Finite(m) && c.socket.Some? && !InTrouble(c)
  }

  /** What holds of a client on which there was nothing but failures since b. */
  ghost predicate Trying(cfg: Config, m: int, b: State, c: State) {
    && Started(cfg, m, b) && Started(cfg, m, c) && !Done(b)
    && |c.sockets| - |b.sockets| == b.retriesRemaining.n - c.retriesRemaining.n
    && Destroys(c.log) == Destroys(b.log) + (if Done(c) then 1 else 0)
    && (Done(c) ==> c.retriesRemaining.n == Min(0, m))
  }

  /** Events the client takes notice of before it gives up. */
  ghost function Left(c: State): int
    requires c.retriesRemaining.Finite?
  {
    if c.sockets == [] || Done(c) then 0
    else
      var last := c.sockets[|c.sockets| - 1];
      3 * Max(0, c.retriesRemaining.n) + if !last.destroyed then 2 else if !last.closed then 1 else 0
  }

  lemma TryingDies(cfg: Config, m: int, b: State, c: State, s: nat)
    requires Trying(cfg, m, b, c) && Enabled(c, Dies(s))
    ensures var d := Step(cfg, c, Dies(s)); Trying(cfg, m, b, d) && 0 <= Left(d) < Left(c) && Older(d) == Older(c)
  {
    hide Autos, Destroys;
    StepKeepsInv(cfg, c, Dies(s));
  }

  lemma TryingCloses(cfg: Config, m: int, b: State, c: State, s: nat)
    requires Trying(cfg, m, b, c) && Enabled(c, Closed(s, false)) && c.socket == Some(s)
    ensures var d := Step(cfg, c, Closed(s, false)); Trying(cfg, m, b, d) && 0 <= Left(d) < Left(c) && Older(d) == Older(c)
  {
    hide Autos, Destroys;
    StepKeepsInv(cfg, c, Closed(s, false));
    DestroysAppend(c.log, Disconnect);
    DestroysAppend(c.log + [Disconnect], Destroy);
    if !GivesUp(c, false) { assert c.nextTimer in Step(cfg, c, Closed(s, false)).timers; }
  }

  lemma TryingLateClose(cfg: Config, m: int, b: State, c: State, s: nat)
    requires Trying(cfg, m, b, c) && Enabled(c, Closed(s, false)) && c.socket != Some(s)
    ensures var d := Step(cfg, c, Closed(s, false));
            Trying(cfg, m, b, d) && Left(d) == Left(c) && Unclosed(Older(d)) == Unclosed(Older(c)) - 1
  {
    hide Autos, Destroys, Unclosed;
    StepKeepsInv(cfg, c, Closed(s, false));
    UnclosedUpdate(Older(c), s, c.sockets[s].(closed := true));
    assert Older(Step(cfg, c, Closed(s, false))) == Older(c)[s := c.sockets[s].(closed := true)];
  }

  lemma TryingFires(cfg: Config, m: int, b: State, c: State, t: nat)
    requires Trying(cfg, m, b, c) && Enabled(c, Fires(t, false))
    ensures var d := Step(cfg, c, Fires(t, false));
            Trying(cfg, m, b, d) && 0 <= Left(d) < Left(c) && Unclosed(Older(d)) == Unclosed(Older(c))
  {
    hide Autos, Destroys, Unclosed;
    StepKeepsInv(cfg, c, Fires(t, false));
    DestroysAppend(c.log, Opened(true));
    assert c.timers - {t} == map[];
    var last := c.sockets[|c.sockets| - 1];
    UnclosedAppend(Older(c), last);
    assert Older(Step(cfg, c, Fires(t, false))) == c.sockets == Older(c) + [last];
  }

  lemma TryingStep(cfg: Config, m: int, b: State, c: State, e: Event)
    requires Trying(cfg, m, b, c) && Failing(e) && Enabled(c, e)
    ensures var d := Step(cfg, c, e);
            && Trying(cfg, m, b, d) && Unclosed(Older(d)) <= Unclosed(Older(c))
            && 0 <= Left(d) + Unclosed(Older(d)) < Left(c) + Unclosed(Older(c))
  {
    LeftIsNatural(cfg, m, b, c);
    hide Trying, Step, Left, Unclosed, Older, Done;
    match e
    case Dies(s) => TryingDies(cfg, m, b, c, s);
    case Closed(s, _) => if c.socket == Some(s) { TryingCloses(cfg, m, b, c, s); } else { TryingLateClose(cfg, m, b, c, s); }
    case Fires(t, _) => TryingFires(cfg, m, b, c, t);
  }

  lemma LeftIsNatural(cfg: Config, m: int, b: State, c: State)
    requires Trying(cfg, m, b, c)
    ensures c.retriesRemaining.Finite? && 0 <= Left(c) <= 3 * Max(0, c.retriesRemaining.n) + 2
  {
    hide Autos, Destroys;
  }

  /** While the client has not given up, a failure it takes notice of is possible, and none is afterwards. */
  lemma TryingCanFail(cfg: Config, m: int, b: State, c: State)
    requires Trying(cfg, m, b, c)
    ensures Done(c) <==> forall e :: Noticed(c, e) ==> !Enabled(c, e)
  {
    hide Autos, Destroys;
    var s := |c.sockets| - 1;
    if !Done(c) {
      if !c.sockets[s].destroyed {
        assert Noticed(c, Dies(s)) && Enabled(c, Dies(s));
      } else if !c.sockets[s].closed {
        assert Noticed(c, Closed(s, false)) && Enabled(c, Closed(s, false));
      } else {
        assert Noticed(c, Fires(c.retryTimer.value, false)) && Enabled(c, Fires(c.retryTimer.value, false));
      }
    }
  }

  lemma {:induction false} TryingRun(cfg: Config, m: int, b: State, c: State, es: seq<Event>)
    requires Trying(cfg, m, b, c) && Runs(cfg, c, es) && forall k :: 0 <= k < |es| ==> Failing(es[k])
    ensures Trying(cfg, m, b, After(cfg, c, es)) && |es| <= Left(c) + Unclosed(Older(c))
    ensures Unclosed(Older(After(cfg, c, es))) <= Unclosed(Older(c))
    decreases |es|
  {
    LeftIsNatural(cfg, m, b, c);
    hide Trying, Step, Left, Unclosed, Older, Inv, Enabled;
    if es != [] {
      StepKeepsInv(cfg, c, es[0]);
      TryingStep(cfg, m, b, c, es[0]);
      TryingRun(cfg, m, b, Step(cfg, c, es[0]), es[1..]);
    }
  }

  /** The retries left are what maxRetries leaves over since the last successful connect. */
  lemma TryingBooks(cfg: Config, m: int, b: State, c: State)
    requires Trying(cfg, m, b, c)
    ensures Max(0, b.retriesRemaining.n) == Max(0, m - Autos(b.log))
    ensures |c.sockets| <= |b.sockets| + Max(0, m - Autos(b.log))
    ensures Destroys(c.log) == Destroys(b.log) + (if Done(c) then 1 else 0)
    ensures Done(c) ==> |c.sockets| == |b.sockets| + Max(0, m - Autos(b.log))
  {
  }

  lemma TryingStarts(cfg: Config, m: int, b: State)
    requires Started(cfg, m, b) && !Done(b)
    ensures Trying(cfg, m, b, b)
  {
  }

  /**
    From any state of a client that has a socket, may retry and has not given up: with r retries left of
    maxRetries since the last successful connect, a run of failures ends after at most 3r + 2 events beside
    the late closes of older sockets. When nothing can fail any more the client has published exactly one
    destroy and opened exactly r more sockets, and not before.
  */
  lemma FailuresEnd(cfg: Config, m: int, b: State, es: seq<Event>)
    requires Started(cfg, m, b) && !Done(b) && Runs(cfg, b, es)
    requires forall k :: 0 <= k < |es| ==> Failing(es[k])
    ensures var end := After(cfg, b, es);
            var r := Max(0, m - Autos(b.log));
            && |es| <= 3 * r + 2 + Unclosed(Older(b))
            && |end.sockets| <= |b.sockets| + r
            && Destroys(end.log) <= Destroys(b.log) + 1
            && ((forall e :: Noticed(end, e) ==> !Enabled(end, e)) <==> Destroys(end.log) == Destroys(b.log) + 1)
            && (Destroys(end.log) == Destroys(b.log) + 1 ==> |end.sockets| == |b.sockets| + r)
  {
    hide Runs, After, Enabled, Trying, Left, Done, Unclosed, Older, Noticed, Autos, Destroys;
    TryingStarts(cfg, m, b);
    LeftIsNatural(cfg, m, b, b);
    TryingRun(cfg, m, b, b, es);
    TryingCanFail(cfg, m, b, After(cfg, b, es));
    TryingBooks(cfg, m, b, After(cfg, b, es));
  }

  /** A successful connect restores the whole budget: after it failures end with exactly maxRetries more sockets. */
  lemma ConnectRestores(cfg: Config, m: int, c: State, s: nat)
    requires Started(cfg, m, c) && Enabled(c, Connected(s))
    ensures var b := Step(cfg, c, Connected(s));
            Started(cfg, m, b) && !Done(b) && b.log == c.log + [Connect] && Max(0, m - Autos(b.log)) == Max(0, m)
  {
    StepKeepsInv(cfg, c, Connected(s));
    AutosAppend(c.log, Connect);
  }

  lemma FirstTry(cfg: Config, m: int)
    requires cfg.maxRetries == Finite(m) && cfg.hasPath && !cfg.refused
    ensures var b := ConnectStep(cfg, New(cfg), false);
            && Started(cfg, m, b) && !Done(b)
            && |b.sockets| == 1 && Older(b) == [] && Autos(b.log) == 0 && Destroys(b.log) == 0
  {
    DestroysAppend([], Opened(false));
    AutosAppend([], Opened(false));
    assert [] + [Opened(false)] == [Opened(false)];
  }

  lemma AllNoticed(cfg: Config, m: int, b: State, c: State)
    requires Trying(cfg, m, b, c) && Unclosed(Older(c)) == 0
    ensures forall e :: Failing(e) && Enabled(c, e) ==> Noticed(c, e)
  {
    hide Autos, Destroys;
    NoneUnclosed(Older(c));
    assert forall s :: 0 <= s < |c.sockets| - 1 ==> c.sockets[s] == Older(c)[s];
  }

  /**
    Against a server that is never there, with maxRetries m and no manual calls, every run ends: after at
    most 3m + 2 events; and when no further failure is possible the client has published exactly one
    destroy and opened exactly m + 1 sockets, and not before. A negative limit counts as 0.
  */
  lemma NeverSucceedingRunEnds(cfg: Config, m: int, es: seq<Event>)
    requires cfg.maxRetries == Finite(m) && cfg.hasPath && !cfg.refused
    requires var start := ConnectStep(cfg, New(cfg), false); Inv(cfg, start) && Runs(cfg, start, es)
    requires forall k :: 0 <= k < |es| ==> Failing(es[k])
    ensures var end := After(cfg, ConnectStep(cfg, New(cfg), false), es);
            && |es| <= 3 * Max(0, m) + 2
            && |end.sockets| <= Max(0, m) + 1 && Destroys(end.log) <= 1
            && ((forall e :: Failing(e) ==> !Enabled(end, e)) <==> Destroys(end.log) == 1)
            && (Destroys(end.log) == 1 ==> |end.sockets| == Max(0, m) + 1)
  {
    hide Step, Runs, After, Enabled, ConnectStep, Trying, Left, Done, Older, Autos, Destroys;
    var start := ConnectStep(cfg, New(cfg), false);
    FirstTry(cfg, m);
    FailuresEnd(cfg, m, start, es);
    TryingStarts(cfg, m, start);
    TryingRun(cfg, m, start, start, es);
    AllNoticed(cfg, m, start, After(cfg, start, es));
  }
}
