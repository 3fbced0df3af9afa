/** The registry of clients, `of` (services/IPC.js, lines 79-96 and 209-332), over runs of all its clients' events. */
module Registry {
  import opened Common
  import opened Reconnect

  /** Every client ever made, the id it was made for, and the registered client of each id. */
  datatype World = World(clients: seq<State>, ids: seq<string>, of: map<string, nat>)

  datatype Action =
    | ConnectTo(id: string)          // connect and connectNet
    | DisconnectFrom(id: string)
    | Deliver(k: nat, e: Event)      // an event of client k that Node delivers

  const EMPTY: World := World([], [], map[])

  /** A client that has a path and whose transport is not refused: connect() does not throw. */
  ghost predicate Usable(cfg: Config) {
    cfg.hasPath && !cfg.refused
  }

  function EvictClient(w: World, k: nat): World
    requires k < |w.clients| && (w.clients[k].socket.Some? ==> w.clients[k].socket.value < |w.clients[k].sockets|)
  {
    w.(clients := w.clients[k := EvictedStep(w.clients[k])])
  }

  function AddClient(cfg: Config, w: World, id: string): World {
    World(w.clients + [ConnectStep(cfg, New(cfg), false)], w.ids + [id], w.of[id := |w.clients|])
  }

  /** `of[id].socket.destroyed` is false, or there is no socket at all */
  predicate Live(c: State) {
    c.socket.Some? && c.socket.value < |c.sockets| ==> !c.sockets[c.socket.value].destroyed
  }

  function ConnectWorld(cfg: Config, w: World, id: string): World
    requires forall i :: i in w.of ==> w.of[i] < |w.clients|
    requires forall k :: 0 <= k < |w.clients| ==> Sound(w.clients[k])
  {
    if id == "" then w
    else if id in w.of then
      if Live(w.clients[w.of[id]]) then w else AddClient(cfg, EvictClient(w, w.of[id]), id)
    else AddClient(cfg, w, id)
  }

  function DisconnectWorld(w: World, id: string): World
    requires forall i :: i in w.of ==> w.of[i] < |w.clients|
    requires forall k :: 0 <= k < |w.clients| ==> Sound(w.clients[k])
  {
    if id !in w.of then w
    else
      assert Sound(w.clients[w.of[id]]);
      var v := EvictClient(w, w.of[id]);
      v.(of := v.of - {id})
  }

  class IPC {
    const cfg: Config
    var clients: seq<State>
    var ids: seq<string>
    var of: map<string, nat>

    function View(): World
      reads this
    {
      World(clients, ids, of)
    }

    constructor (cfg: Config)
      ensures this.cfg == cfg && View() == EMPTY && Safe(cfg, View())
    {
      this.cfg := cfg;
      clients, ids, of := [], [], map[];
    }

    /** Marks a client as given up: no retry timer, its socket destroyed. */
    method Evict(k: nat)
      requires k < |clients| && Sound(clients[k])
      modifies this`clients
      ensures View() == EvictClient(old(View()), k)
    {
      var c := clients[k].(explicitlyDisconnected := true);
      if c.retryTimer.Some? {
        c := c.(timers := c.timers - {c.retryTimer.value}, retryTimer := None);
      }
      if c.socket.Some? {
        c := c.(sockets := c.sockets[c.socket.value := c.sockets[c.socket.value].(destroyed := true)]);
      }
      clients := clients[k := c];
    }

    method Disconnect(id: string)
      requires Safe(cfg, View())
      modifies this
      ensures View() == DisconnectWorld(old(View()), id)
    {
      if id !in of { return; }
      Evict(of[id]);
      of := of - {id};
    }

    method Connect(id: string)
      requires Safe(cfg, View())
      modifies this
      ensures View() == ConnectWorld(cfg, old(View()), id)
    {
      if id == "" { return; }
      if id in of {
        if Live(clients[of[id]]) { return; }
        Evict(of[id]);
      }
      of := of[id := |clients|];
      ids := ids + [id];
      clients := clients + [ConnectStep(cfg, New(cfg), false)];
    }
  }

  // ----- the invariant -----

  /** Given up for good: nothing armed, nothing alive, and marked so. */
  ghost predicate Retired(c: State) {
    c.explicitlyDisconnected && c.timers == map[] && forall s :: 0 <= s < |c.sockets| ==> c.sockets[s].destroyed
  }

  ghost predicate Registered(w: World, k: nat) {
    k < |w.ids| && w.ids[k] in w.of && w.of[w.ids[k]] == k
  }

  ghost predicate Safe(cfg: Config, w: World) {
    && |w.ids| == |w.clients|
    && (forall k :: 0 <= k < |w.clients| ==> Inv(cfg, w.clients[k]) && Sound(w.clients[k]) && w.clients[k].socket.Some?)
    && (forall id :: id in w.of ==> w.of[id] < |w.clients| && w.ids[w.of[id]] == id && !w.clients[w.of[id]].explicitlyDisconnected)
    && (forall k :: 0 <= k < |w.clients| ==> Registered(w, k) || Retired(w.clients[k]))
  }

  /** Node never calls connect() of a client by itself, and evictions come only from the registry. */
  predicate Possible(w: World, a: Action) {
    a.Deliver? ==> a.k < |w.clients| && Enabled(w.clients[a.k], a.e) && !a.e.ManualConnect? && !a.e.Evicted?
  }

  function Act(cfg: Config, w: World, a: Action): World
    requires Safe(cfg, w) && Possible(w, a)
  {
    match a
    case ConnectTo(id) => ConnectWorld(cfg, w, id)
    case DisconnectFrom(id) => DisconnectWorld(w, id)
    case Deliver(k, e) => w.(clients := w.clients[k := Step(cfg, w.clients[k], e)])
  }

  lemma EvictionRetires(cfg: Config, c: State)
    requires Inv(cfg, c) && c.socket.Some?
    ensures Retired(EvictedStep(c)) && Inv(cfg, EvictedStep(c)) && EvictedStep(c).socket.Some?
    ensures |EvictedStep(c).sockets| == |c.sockets|
  {
    StepKeepsInv(cfg, c, Evicted);
    ClearKeeps(cfg, c.(explicitlyDisconnected := false));
  }

  /** A retired client stays retired, and opens nothing. */
  lemma RetiredStays(cfg: Config, c: State, e: Event)
    requires Inv(cfg, c) && Retired(c) && Enabled(c, e) && !e.ManualConnect?
    ensures Retired(Step(cfg, c, e)) && |Step(cfg, c, e).sockets| == |c.sockets|
  {
  }

  lemma EventKeepsClient(cfg: Config, c: State, e: Event)
    requires Inv(cfg, c) && c.socket.Some? && Enabled(c, e) && !e.Evicted?
    ensures var d := Step(cfg, c, e); Inv(cfg, d) && d.socket.Some? && d.explicitlyDisconnected == c.explicitlyDisconnected
  {
    StepKeepsInv(cfg, c, e);
  }

  lemma FreshClient(cfg: Config)
    requires Usable(cfg)
    ensures var c := ConnectStep(cfg, New(cfg), false); Inv(cfg, c) && c.socket.Some? && !c.explicitlyDisconnected
  {
    StepKeepsInv(cfg, New(cfg), ManualConnect);
  }

  lemma EvictKeeps(cfg: Config, w: World, id: string)
    requires Safe(cfg, w) && id in w.of
    ensures Safe(cfg, DisconnectWorld(w, id))
  {
    hide EvictedStep, Inv, Sound, Retired;
    var k := w.of[id];
    assert Sound(w.clients[k]) && Inv(cfg, w.clients[k]);
    InvIsSound(cfg, w.clients[k]);
    EvictionRetires(cfg, w.clients[k]);
    var v := DisconnectWorld(w, id);
    InvIsSound(cfg, v.clients[k]);
    forall j | 0 <= j < |v.clients| ensures Registered(v, j) || Retired(v.clients[j]) {
      if j != k { assert Registered(w, j) || Retired(w.clients[j]); }
    }
  }

  lemma InvIsSound(cfg: Config, c: State)
    requires Inv(cfg, c)
    ensures Sound(c) && (c.socket.Some? ==> c.socket.value < |c.sockets|)
  {
  }

  lemma AddKeeps(cfg: Config, w: World, id: string)
    requires Safe(cfg, w) && Usable(cfg) && id !in w.of
    ensures Safe(cfg, AddClient(cfg, w, id))
  {
    hide ConnectStep, Inv, Sound, Retired;
    FreshClient(cfg);
    InvIsSound(cfg, ConnectStep(cfg, New(cfg), false));
    var v := AddClient(cfg, w, id);
    forall j | 0 <= j < |v.clients| ensures Registered(v, j) || Retired(v.clients[j]) {
      if j < |w.clients| { assert Registered(w, j) || Retired(w.clients[j]); }
    }
  }

  lemma ActKeepsSafe(cfg: Config, w: World, a: Action)
    requires Safe(cfg, w) && Possible(w, a) && Usable(cfg)
    ensures Safe(cfg, Act(cfg, w, a))
  {
    hide EvictedStep, ConnectStep, Inv, Sound, Retired, Step;
    match a
    case DisconnectFrom(id) =>
      if id in w.of { EvictKeeps(cfg, w, id); }
    case ConnectTo(id) =>
      if id != "" {
        if id in w.of {
          if !Live(w.clients[w.of[id]]) {
            EvictKeeps(cfg, w, id);
            var v := DisconnectWorld(w, id);
            AddKeeps(cfg, v, id);
            assert v.of[id := |v.clients|] == w.of[id := |v.clients|];
          }
        } else {
          AddKeeps(cfg, w, id);
        }
      }
    case Deliver(k, e) =>
      EventKeepsClient(cfg, w.clients[k], e);
      InvIsSound(cfg, Step(cfg, w.clients[k], e));
      var v := Act(cfg, w, a);
      forall j | 0 <= j < |v.clients| ensures Registered(v, j) || Retired(v.clients[j]) {
        assert Registered(w, j) || Retired(w.clients[j]);
        if Registered(w, j) { assert Registered(v, j); } else if j == k { RetiredStays(cfg, w.clients[k], e); }
      }
  }

  // ----- runs -----

  ghost predicate Runs(cfg: Config, w: World, acts: seq<Action>)
    requires Safe(cfg, w) && Usable(cfg)
    decreases |acts|
  {
    acts == [] || (Possible(w, acts[0]) && (ActKeepsSafe(cfg, w, acts[0]); Runs(cfg, Act(cfg, w, acts[0]), acts[1..])))
  }

  ghost function After(cfg: Config, w: World, acts: seq<Action>): (v: World)
    requires Safe(cfg, w) && Usable(cfg) && Runs(cfg, w, acts)
    ensures Safe(cfg, v)
    decreases |acts|
  {
    if acts == [] then w else (ActKeepsSafe(cfg, w, acts[0]); After(cfg, Act(cfg, w, acts[0]), acts[1..]))
  }

  ghost predicate Alive(w: World, k: nat, s: nat) {
    k < |w.clients| && s < |w.clients[k].sockets| && !w.clients[k].sockets[s].destroyed
  }

  /** Over any run of connects, disconnects and events: each id has at most one socket that is not destroyed. */
  lemma OneSocketPerId(cfg: Config, acts: seq<Action>, k: nat, s: nat, k': nat, s': nat)
    requires Usable(cfg) && Runs(cfg, EMPTY, acts)
    requires var w := After(cfg, EMPTY, acts); Alive(w, k, s) && Alive(w, k', s') && w.ids[k] == w.ids[k']
    ensures k == k' && s == s'
  {
    hide After;
    var w := After(cfg, EMPTY, acts);
    assert Registered(w, k) || Retired(w.clients[k]);
    assert Registered(w, k') || Retired(w.clients[k']);
  }

  ghost predicate Gone(w: World, k: nat) {
    k < |w.clients| && k < |w.ids| && !Registered(w, k)
  }

  lemma GoneStays(cfg: Config, w: World, a: Action, k: nat)
    requires Safe(cfg, w) && Usable(cfg) && Possible(w, a) && Gone(w, k)
    ensures var v := Act(cfg, w, a); Gone(v, k) && |v.clients[k].sockets| == |w.clients[k].sockets|
  {
    hide EvictedStep, ConnectStep, Inv, Sound, Step;
    assert Retired(w.clients[k]);
    if a.Deliver? && a.k == k { RetiredStays(cfg, w.clients[k], a.e); }
  }

  /** A client that has been evicted from the registry never opens another socket. */
  lemma {:induction false} EvictedNeverOpens(cfg: Config, w: World, acts: seq<Action>, k: nat)
    requires Safe(cfg, w) && Usable(cfg) && Runs(cfg, w, acts) && Gone(w, k)
    ensures var v := After(cfg, w, acts);
            && Gone(v, k) && |v.clients[k].sockets| == |w.clients[k].sockets|
            && forall s :: 0 <= s < |v.clients[k].sockets| ==> v.clients[k].sockets[s].destroyed
    decreases |acts|
  {
    hide Act;
    if acts == [] {
      assert Retired(w.clients[k]);
    } else {
      ActKeepsSafe(cfg, w, acts[0]);
      GoneStays(cfg, w, acts[0], k);
      EvictedNeverOpens(cfg, Act(cfg, w, acts[0]), acts[1..], k);
    }
  }

  // ----- what a call to connect and to disconnect brings about -----

  /** Some client of the id has a socket that is not destroyed. */
  ghost predicate HasLive(w: World, id: string) {
    exists k: nat, s: nat :: Alive(w, k, s) && k < |w.ids| && w.ids[k] == id
  }

  /** An id has a live socket exactly when the client registered for it is live. */
  lemma LiveIsRegistered(cfg: Config, w: World, id: string)
    requires Safe(cfg, w)
    ensures HasLive(w, id) <==> id in w.of && Live(w.clients[w.of[id]])
  {
    if HasLive(w, id) {
      var k: nat, s: nat :| Alive(w, k, s) && k < |w.ids| && w.ids[k] == id;
      assert Registered(w, k) || Retired(w.clients[k]);
      assert Inv(cfg, w.clients[k]);
    }
    if id in w.of && Live(w.clients[w.of[id]]) {
      var k := w.of[id];
      assert Inv(cfg, w.clients[k]) && w.clients[k].socket.Some?;
      assert Alive(w, k, w.clients[k].socket.value);
    }
  }

  /** No client of another id has changed. */
  ghost predicate Untouched(w: World, v: World, id: string) {
    && |v.clients| >= |w.clients| && |w.ids| == |w.clients| && w.ids <= v.ids
    && forall k :: 0 <= k < |w.clients| && w.ids[k] != id ==> v.clients[k] == w.clients[k]
  }

  lemma Replaces(cfg: Config, w: World, id: string)
    requires Safe(cfg, w) && Usable(cfg) && id != "" && !HasLive(w, id)
    ensures var v := Act(cfg, w, ConnectTo(id));
            var c := ConnectStep(cfg, New(cfg), false);
            && |v.clients| == |w.clients| + 1 && v.clients[|w.clients|] == c
            && v.ids == w.ids + [id] && v.of == w.of[id := |w.clients|]
            && Untouched(w, v, id)
  {
    hide EvictedStep, ConnectStep, Retired, Inv, Sound;
    LiveIsRegistered(cfg, w, id);
    if id in w.of { InvIsSound(cfg, w.clients[w.of[id]]); }
  }

  /**
    connect() changes nothing if and only if the id is empty or a socket of the id is alive. Otherwise it
    registers one new client with one live socket, the only one of the id, and touches no client of another id.
  */
  lemma ConnectChangesIff(cfg: Config, w: World, id: string)
    requires Safe(cfg, w) && Usable(cfg)
    ensures var v := Act(cfg, w, ConnectTo(id));
            && (v == w <==> id == "" || HasLive(w, id))
            && (v != w ==>
                  && v.of == w.of[id := |w.clients|] && v.ids == w.ids + [id] && Untouched(w, v, id)
                  && |v.clients| == |w.clients| + 1
                  && v.clients[|w.clients|].log == [Opened(false)]
                  && v.clients[|w.clients|].sockets == [Socket(false, false, false)]
                  && (forall k :: 0 <= k < |w.clients| && w.ids[k] == id ==> Retired(v.clients[k])))
  {
    hide EvictedStep, Inv, Sound;
    LiveIsRegistered(cfg, w, id);
    ActKeepsSafe(cfg, w, ConnectTo(id));
    if id != "" && !HasLive(w, id) {
      Replaces(cfg, w, id);
      assert [] + [Opened(false)] == [Opened(false)];
      var v := Act(cfg, w, ConnectTo(id));
      forall k | 0 <= k < |w.clients| && w.ids[k] == id ensures Retired(v.clients[k]) {
        assert v.ids[k] == id && v.of[id] != k;
        assert Registered(v, k) || Retired(v.clients[k]);
      }
    }
  }

  /** After disconnect() nothing of the id is registered or can act, and no other client has changed. */
  lemma DisconnectEnds(cfg: Config, w: World, id: string)
    requires Safe(cfg, w) && Usable(cfg)
    ensures var v := Act(cfg, w, DisconnectFrom(id));
            && v.of == w.of - {id} && v.ids == w.ids && |v.clients| == |w.clients| && Untouched(w, v, id)
            && (forall k :: 0 <= k < |v.clients| && v.ids[k] == id ==> Retired(v.clients[k]))
            && !HasLive(v, id)
  {
    hide EvictedStep, Inv, Sound, Retired;
    ActKeepsSafe(cfg, w, DisconnectFrom(id));
    var v := Act(cfg, w, DisconnectFrom(id));
    if id in w.of { InvIsSound(cfg, w.clients[w.of[id]]); }
    LiveIsRegistered(cfg, v, id);
    forall k | 0 <= k < |v.clients| && v.ids[k] == id ensures Retired(v.clients[k]) {
      assert Registered(v, k) || Retired(v.clients[k]);
    }
  }

  lemma AbsentStep(cfg: Config, w: World, a: Action, id: string)
    requires Safe(cfg, w) && Usable(cfg) && Possible(w, a) && id !in w.of && a != ConnectTo(id)
    ensures id !in Act(cfg, w, a).of
  {
    hide EvictedStep, ConnectStep, Inv, Sound, Step;
  }

  /** An id that is not registered, as after a disconnect, gets no live socket until connect() is called for it. */
  lemma {:induction false} AbsentUntilConnect(cfg: Config, w: World, acts: seq<Action>, id: string)
    requires Safe(cfg, w) && Usable(cfg) && Runs(cfg, w, acts) && id !in w.of
    requires forall k :: 0 <= k < |acts| ==> acts[k] != ConnectTo(id)
    ensures id !in After(cfg, w, acts).of && !HasLive(After(cfg, w, acts), id)
    decreases |acts|
  {
    hide Act;
    if acts == [] {
      LiveIsRegistered(cfg, w, id);
    } else {
      ActKeepsSafe(cfg, w, acts[0]);
      AbsentStep(cfg, w, acts[0], id);
      AbsentUntilConnect(cfg, Act(cfg, w, acts[0]), acts[1..], id);
    }
  }
}
