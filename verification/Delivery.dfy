/**
  End to end over an unordered network that may repeat datagrams: what a reassembler returns
  when every fragment of a set of messages arrives, in any interleaving.
*/
module Delivery {
  import opened Common
  import opened Json
  import opened Protocol
  import opened Fragments
  import opened Reassembler

  /** A message the sender of this key can fragment, that parses back, and that the receiver listens for. */
  predicate Genuine(cfg: Config, k: Key, m: Json) {
    && PeerError(k.peer).None?
    && (cfg.direction.Some? ==> cfg.direction.value == k.direction)
    && FragmentMessage(m, k.direction).Ok?
    && SequenceOf(m) == Some(k.sequence)
    && cfg.parse(Stringify(m)) == Some(m)
  }

  function Pieces(k: Key, m: Json): seq<Fragment> {
    var r := FragmentMessage(m, k.direction);
    if r.Ok? then r.value else []
  }

  /** The arrival of fragment i of the message sent under a key. */
  datatype Hop = Hop(key: Key, i: nat)

  ghost predicate AllGenuine(cfg: Config, sent: map<Key, Json>) {
    forall k :: k in sent ==> Genuine(cfg, k, sent[k])
  }

  predicate Sent(sent: map<Key, Json>, h: Hop) {
    h.key in sent && h.i < |Pieces(h.key, sent[h.key])|
  }

  function Input(sent: map<Key, Json>, h: Hop): Arrival
    requires Sent(sent, h)
  {
    Arrival(Pieces(h.key, sent[h.key])[h.i], h.key.peer)
  }

  ghost predicate AllSeen(k: Key, m: Json, seen: set<Hop>) {
    forall i :: 0 <= i < |Pieces(k, m)| ==> Hop(k, i) in seen
  }

  ghost predicate Touched(k: Key, seen: set<Hop>) {
    exists i :: Hop(k, i) in seen
  }

  /** The chunks a reassembler should hold of a message when `seen` has arrived. */
  function ExpectedChunks(k: Key, m: Json, seen: set<Hop>): seq<Option<string>> {
    var fs := Pieces(k, m);
    seq(|fs|, i requires 0 <= i < |fs| => if Hop(k, i) in seen then Some(fs[i].c) else None)
  }

  function Expected(k: Key, m: Json, seen: set<Hop>): Pending {
    var chunks := ExpectedChunks(k, m, seen);
    Pending(StoredBytes(chunks), chunks, LeadFrom(chunks, 0), |chunks|, |Stringify(m)|)
  }

  /** Exactly the messages that have arrived in part are pending, each with what has arrived of it. */
  ghost predicate Mirrors(sent: map<Key, Json>, seen: set<Hop>, states: map<Key, Pending>) {
    && (forall k :: k in states <==> k in sent && Touched(k, seen) && !AllSeen(k, sent[k], seen))
    && (forall k :: k in states ==> states[k] == Expected(k, sent[k], seen))
  }

  /** The benchmark's own messages are genuine for their keys, in either direction and at every legal size. */
  lemma BenchIsGenuine(cfg: Config, peer: Peer, direction: char, bytes: nat, n: nat)
    requires PeerError(peer).None? && direction in {'q', 'r'} && (cfg.direction.Some? ==> cfg.direction.value == direction)
    requires ENVELOPE_BYTES <= bytes <= MAX_MESSAGE_BYTES && n <= MAX_SEQUENCE
    requires cfg.parse(Stringify(BenchMessage(bytes, Hex8(n)))) == Some(BenchMessage(bytes, Hex8(n)))
    ensures Genuine(cfg, Key(peer, direction, Hex8(n)), BenchMessage(bytes, Hex8(n)))
  {
    hide Stringify, Bytes, Hex8, BenchMessage;
    SequenceRoundTrip(n);
    MessageSize(bytes, Hex8(n));
  }

  // ----- one arrival -----

  lemma InputChecks(cfg: Config, sent: map<Key, Json>, h: Hop)
    requires Sent(sent, h) && Genuine(cfg, h.key, sent[h.key])
    ensures var a, m := Input(sent, h), sent[h.key];
            && CheckFragment(a.fragment, cfg.direction) == None && KeyOf(a) == h.key && PeerError(a.peer).None?
            && a.fragment.i == h.i && a.fragment.n == |Pieces(h.key, m)| && a.fragment.b == |Stringify(m)|
            && LegalBytes(a.fragment.b) && a.fragment.n == FragmentCount(a.fragment.b)
  {
    hide Stringify, Bytes;
    FragmentsAreSound(sent[h.key], h.key.direction);
  }

  lemma ExpectedFresh(k: Key, m: Json, seen: set<Hop>)
    requires !Touched(k, seen)
    ensures Expected(k, m, seen) == NewPending(|Pieces(k, m)|, |Stringify(m)|)
  {
    hide Pieces, Stringify;
    var n := |Pieces(k, m)|;
    NothingStored(n);
    assert ExpectedChunks(k, m, seen) == seq(n, _ => None);
  }

  lemma ExpectedStore(k: Key, m: Json, seen: set<Hop>, i: nat)
    requires i < |Pieces(k, m)| && Hop(k, i) !in seen
    ensures Store(Expected(k, m, seen), i, Pieces(k, m)[i].c) == Expected(k, m, seen + {Hop(k, i)})
  {
    hide Pieces, Stringify, LeadFrom;
    var chunks := ExpectedChunks(k, m, seen);
    StoredUpdate(chunks, i, Pieces(k, m)[i].c);
    assert chunks[i := Some(Pieces(k, m)[i].c)] == ExpectedChunks(k, m, seen + {Hop(k, i)});
  }

  lemma ExpectedOther(k: Key, m: Json, seen: set<Hop>, h: Hop)
    requires k != h.key
    ensures Expected(k, m, seen + {h}) == Expected(k, m, seen)
    ensures AllSeen(k, m, seen + {h}) == AllSeen(k, m, seen)
    ensures Touched(k, seen + {h}) == Touched(k, seen)
  {
    hide Pieces, Stringify, LeadFrom, StoredBytes;
    assert ExpectedChunks(k, m, seen + {h}) == ExpectedChunks(k, m, seen);
  }

  lemma {:induction false} JoinFull(chunks: seq<Option<string>>, parts: seq<string>)
    requires |chunks| == |parts| && forall i :: 0 <= i < |parts| ==> chunks[i] == Some(parts[i])
    ensures Join(chunks) == Concat(parts)
    decreases |parts|
  {
    var n := |parts| - 1;
    if n >= 0 {
      JoinFull(chunks[..n], parts[..n]);
      ConcatAppend(parts[..n], [parts[n]]);
      assert parts == parts[..n] + [parts[n]] && [parts[n]][1..] == [];
      assert Concat([parts[n]]) == parts[n] + "";
    }
  }

  /** A message all of whose fragments have arrived ends as the message that was sent. */
  lemma ExpectedEnds(cfg: Config, k: Key, m: Json, seen: set<Hop>)
    requires Genuine(cfg, k, m) && AllSeen(k, m, seen)
    ensures Finish(cfg, Expected(k, m, seen), k.sequence) == Complete(|Stringify(m)|, |Pieces(k, m)|, m)
  {
    hide Stringify, Bytes, CheckFragment;
    var fs := Pieces(k, m);
    FragmentsAreSound(m, k.direction);
    var p := Expected(k, m, seen);
    JoinFull(p.chunks, Chunks(fs));
    assert Field(m, "sequence") == Some(Str(k.sequence));
    ExpectedSize(k, m, seen);
  }

  lemma ExpectedSize(k: Key, m: Json, seen: set<Hop>)
    requires AllSeen(k, m, seen)
    ensures StoredBytes(ExpectedChunks(k, m, seen)) == |Join(ExpectedChunks(k, m, seen))|
  {
    hide Pieces;
    FullLength(ExpectedChunks(k, m, seen));
  }

  lemma {:induction false} FullLength(chunks: seq<Option<string>>)
    ensures StoredBytes(chunks) == |Join(chunks)|
    decreases |chunks|
  {
    if chunks != [] { FullLength(chunks[..|chunks| - 1]); }
  }

  lemma LeadIsFull(k: Key, m: Json, seen: set<Hop>)
    ensures Expected(k, m, seen).nextIndex == Expected(k, m, seen).total <==> AllSeen(k, m, seen)
  {
    hide Pieces, Stringify, LeadFrom, StoredBytes;
    var chunks := ExpectedChunks(k, m, seen);
    if LeadFrom(chunks, 0) == |chunks| {
      forall i | 0 <= i < |Pieces(k, m)| ensures Hop(k, i) in seen {
        assert chunks[i].Some?;
      }
    }
  }

  lemma MirrorsUpdate(sent: map<Key, Json>, seen: set<Hop>, states: map<Key, Pending>, h: Hop)
    requires h.key in sent && Mirrors(sent, seen, states)
    ensures var m := sent[h.key];
            Mirrors(sent, seen + {h}, if AllSeen(h.key, m, seen + {h}) then states - {h.key} else states[h.key := Expected(h.key, m, seen + {h})])
  {
    hide Expected, AllSeen;
    var m := sent[h.key];
    assert Touched(h.key, seen + {h}) by { assert Hop(h.key, h.i) in seen + {h}; }
    forall k | k in sent && k != h.key
      ensures Expected(k, sent[k], seen + {h}) == Expected(k, sent[k], seen)
      ensures AllSeen(k, sent[k], seen + {h}) == AllSeen(k, sent[k], seen)
      ensures Touched(k, seen + {h}) == Touched(k, seen)
    {
      ExpectedOther(k, sent[k], seen, h);
    }
  }

  lemma ExpectedAt(k: Key, m: Json, seen: set<Hop>, i: nat)
    requires i < |Pieces(k, m)|
    ensures |Expected(k, m, seen).chunks| == |Pieces(k, m)| == Expected(k, m, seen).total
    ensures Expected(k, m, seen).totalBytes == |Stringify(m)|
    ensures Expected(k, m, seen).chunks[i] == if Hop(k, i) in seen then Some(Pieces(k, m)[i].c) else None
  {
    hide Pieces, Stringify, LeadFrom, StoredBytes;
  }

  lemma PlaceMirrors(cfg: Config, sent: map<Key, Json>, seen: set<Hop>, states: map<Key, Pending>, n: Counters, h: Hop)
    requires AllGenuine(cfg, sent) && Sent(sent, h) && Mirrors(sent, seen, states)
    requires !AllSeen(h.key, sent[h.key], seen)
    ensures 0 <= Input(sent, h).fragment.i < |Expected(h.key, sent[h.key], seen).chunks|
    ensures var m := sent[h.key];
            var r := Place(cfg, states, n, h.key, Expected(h.key, m, seen), Input(sent, h).fragment);
            && Mirrors(sent, seen + {h}, r.0.states)
            && r.1 == if AllSeen(h.key, m, seen + {h}) then Complete(|Stringify(m)|, |Pieces(h.key, m)|, m) else Waiting
  {
    hide Pieces, Stringify, Finish, Expected, AllSeen, Touched, Mirrors, Store, CheckFragment;
    var k, m := h.key, sent[h.key];
    var p := Expected(k, m, seen);
    InputChecks(cfg, sent, h);
    ExpectedAt(k, m, seen, h.i);
    if h in seen {
      assert seen + {h} == seen;
    } else {
      ExpectedStore(k, m, seen, h.i);
      LeadIsFull(k, m, seen + {h});
      MirrorsUpdate(sent, seen, states, h);
      if AllSeen(k, m, seen + {h}) { ExpectedEnds(cfg, k, m, seen + {h}); }
    }
  }

  lemma MirrorsKey(sent: map<Key, Json>, seen: set<Hop>, states: map<Key, Pending>, k: Key)
    requires k in sent && Mirrors(sent, seen, states) && !AllSeen(k, sent[k], seen)
    ensures k in states ==> states[k] == Expected(k, sent[k], seen)
    ensures k !in states ==> Expected(k, sent[k], seen) == NewPending(|Pieces(k, sent[k])|, |Stringify(sent[k])|)
  {
    hide Expected, AllSeen, Pieces, Stringify;
    if k !in states { ExpectedFresh(k, sent[k], seen); }
  }

  /**
    One arrival of a message that is not yet complete, when there is room for it: the table mirrors
    what has been seen, and the message is returned exactly when this was its last missing fragment.
  */
  lemma ArrivalStep(cfg: Config, sent: map<Key, Json>, seen: set<Hop>, t: Table, h: Hop)
    requires Good(cfg, t) && AllGenuine(cfg, sent) && Sent(sent, h) && Mirrors(sent, seen, t.states)
    requires !AllSeen(h.key, sent[h.key], seen)
    requires h.key in t.states || |t.states| < cfg.maxMessages
    ensures var r, m := AcceptStep(cfg, t, Input(sent, h)), sent[h.key];
            && Mirrors(sent, seen + {h}, r.0.states)
            && r.1 == if AllSeen(h.key, m, seen + {h}) then Complete(|Stringify(m)|, |Pieces(h.key, m)|, m) else Waiting
  {
    hide Pieces, Stringify, Sized, CheckFragment, Expected, AllSeen, Touched, Mirrors, Place;
    var k, m, n := h.key, sent[h.key], t.counters;
    InputChecks(cfg, sent, h);
    MirrorsKey(sent, seen, t.states, k);
    ExpectedAt(k, m, seen, h.i);
    PlaceMirrors(cfg, sent, seen, t.states, n, h);
    PlaceMirrors(cfg, sent, seen, t.states, n.(maximumPendingMessages := Max(n.maximumPendingMessages, |t.states| + 1)), h);
  }

  // ----- whole runs -----

  ghost predicate AllSent(sent: map<Key, Json>, plan: seq<Hop>) {
    forall n :: 0 <= n < |plan| ==> Sent(sent, plan[n])
  }

  function Inputs(sent: map<Key, Json>, plan: seq<Hop>): (r: seq<Arrival>)
    requires AllSent(sent, plan)
    ensures |r| == |plan|
  {
    seq(|plan|, n requires 0 <= n < |plan| => Input(sent, plan[n]))
  }

  /** What has arrived before step n. */
  function SeenAt(plan: seq<Hop>, n: nat): (r: set<Hop>)
    requires n <= |plan|
    ensures forall h :: h in r <==> h in plan[..n]
  {
    set h | h in plan[..n]
  }

  /** The table after n arrivals, and what arrival n returns. */
  function TableAfter(cfg: Config, sent: map<Key, Json>, plan: seq<Hop>, n: nat): Table
    requires AllSent(sent, plan) && n <= |plan|
  {
    TableAt(cfg, Inputs(sent, plan), n)
  }

  function Returned(cfg: Config, sent: map<Key, Json>, plan: seq<Hop>, n: nat): Outcome
    requires AllSent(sent, plan) && n < |plan|
  {
    OutcomeAt(cfg, Inputs(sent, plan), n)
  }

  lemma SeenStep(plan: seq<Hop>, n: nat)
    requires n < |plan|
    ensures SeenAt(plan, n + 1) == SeenAt(plan, n) + {plan[n]}
  {
    assert plan[..n + 1] == plan[..n] + [plan[n]];
  }

  function LastPiece(sent: map<Key, Json>, m: Json, k: Key): Outcome {
    Complete(|Stringify(m)|, |Pieces(k, m)|, m)
  }

  // ----- a plain account of a run: which fragments are held of messages that are open -----

  ghost function KeysOf(held: set<Hop>): set<Key> {
    set h | h in held :: h.key
  }

  function Without(k: Key, held: set<Hop>): set<Hop> {
    set h | h in held && h.key != k
  }

  /** Only the first fragment of a message is ever refused, and only while maxMessages others are open. */
  ghost predicate NoRoom(room: nat, held: set<Hop>, h: Hop) {
    !Touched(h.key, held) && |KeysOf(held)| >= room
  }

  /** The arrival completes its message. */
  ghost predicate Finishes(room: nat, sent: map<Key, Json>, held: set<Hop>, h: Hop)
    requires h.key in sent
  {
    !NoRoom(room, held, h) && AllSeen(h.key, sent[h.key], held + {h})
  }

  ghost function HoldStep(room: nat, sent: map<Key, Json>, held: set<Hop>, h: Hop): set<Hop>
    requires h.key in sent
  {
    if NoRoom(room, held, h) then held
    else if Finishes(room, sent, held, h) then Without(h.key, held)
    else held + {h}
  }

  /** What is held after n arrivals. */
  ghost function HeldAt(room: nat, sent: map<Key, Json>, plan: seq<Hop>, n: nat): set<Hop>
    requires AllSent(sent, plan) && n <= |plan|
  {
    if n == 0 then {} else HoldStep(room, sent, HeldAt(room, sent, plan, n - 1), plan[n - 1])
  }

  ghost predicate RefusedAt(room: nat, sent: map<Key, Json>, plan: seq<Hop>, j: nat)
    requires AllSent(sent, plan) && j < |plan|
  {
    NoRoom(room, HeldAt(room, sent, plan, j), plan[j])
  }

  ghost predicate FinishesAt(room: nat, sent: map<Key, Json>, plan: seq<Hop>, j: nat)
    requires AllSent(sent, plan) && j < |plan|
  {
    Finishes(room, sent, HeldAt(room, sent, plan, j), plan[j])
  }

  /** No message of which something is held is complete. */
  ghost predicate AllOpen(sent: map<Key, Json>, held: set<Hop>) {
    forall h :: h in held ==> h.key in sent && !AllSeen(h.key, sent[h.key], held)
  }

  lemma NothingMirrors(sent: map<Key, Json>, seen: set<Hop>)
    requires seen == {}
    ensures Mirrors(sent, seen, EMPTY.states)
  {
  }

  lemma OpenSize(sent: map<Key, Json>, held: set<Hop>, states: map<Key, Pending>)
    requires Mirrors(sent, held, states) && AllOpen(sent, held)
    ensures states.Keys == KeysOf(held) && |states| == |KeysOf(held)|
  {
    hide AllSeen, Expected;
    forall k ensures k in states <==> k in KeysOf(held) {
      if k in KeysOf(held) {
        var h :| h in held && h.key == k;
        assert Hop(k, h.i) in held;
      }
      if k in states {
        var i :| Hop(k, i) in held;
        assert Hop(k, i).key == k;
      }
    }
  }

  lemma WithoutOther(k: Key, m: Json, held: set<Hop>, h: Hop)
    requires k != h.key
    ensures ExpectedChunks(k, m, Without(h.key, held)) == ExpectedChunks(k, m, held)
    ensures AllSeen(k, m, Without(h.key, held)) == AllSeen(k, m, held)
    ensures Touched(k, Without(h.key, held)) == Touched(k, held)
  {
    hide Pieces;
    forall i ensures Hop(k, i) in Without(h.key, held) <==> Hop(k, i) in held {
    }
  }

  /** Once a message is complete, nothing of it is held. */
  lemma DropMirrors(sent: map<Key, Json>, held: set<Hop>, states: map<Key, Pending>, h: Hop)
    requires h.key in sent && Mirrors(sent, held + {h}, states) && AllSeen(h.key, sent[h.key], held + {h})
    ensures Mirrors(sent, Without(h.key, held), states)
  {
    hide AllSeen, Touched, ExpectedChunks;
    assert Without(h.key, held + {h}) == Without(h.key, held);
    NothingTouched(h.key, held);
    forall k | k in sent && k != h.key
      ensures ExpectedChunks(k, sent[k], Without(h.key, held)) == ExpectedChunks(k, sent[k], held + {h})
      ensures AllSeen(k, sent[k], Without(h.key, held)) == AllSeen(k, sent[k], held + {h})
      ensures Touched(k, Without(h.key, held)) == Touched(k, held + {h})
    {
      WithoutOther(k, sent[k], held + {h}, h);
    }
  }

  lemma NothingTouched(k: Key, held: set<Hop>)
    ensures !Touched(k, Without(k, held))
  {
  }

  lemma StaysOpen(room: nat, sent: map<Key, Json>, held: set<Hop>, h: Hop)
    requires AllOpen(sent, held) && h.key in sent
    ensures AllOpen(sent, HoldStep(room, sent, held, h))
  {
    hide AllSeen, NoRoom;
    var after := HoldStep(room, sent, held, h);
    forall x | x in after ensures x.key in sent && !AllSeen(x.key, sent[x.key], after) {
      if x.key != h.key {
        WithoutOther(x.key, sent[x.key], held, h);
        ExpectedOther(x.key, sent[x.key], held, h);
      }
    }
  }

  /** One arrival of any run: the table goes on mirroring what is held, and what is returned is what the account says. */
  lemma AnyArrival(cfg: Config, sent: map<Key, Json>, held: set<Hop>, t: Table, h: Hop)
    requires Good(cfg, t) && AllGenuine(cfg, sent) && Sent(sent, h) && Mirrors(sent, held, t.states) && AllOpen(sent, held)
    ensures var r, room := AcceptStep(cfg, t, Input(sent, h)), cfg.maxMessages;
            && Mirrors(sent, HoldStep(room, sent, held, h), r.0.states) && AllOpen(sent, HoldStep(room, sent, held, h))
            && r.1 == (if NoRoom(room, held, h) then Rejected(TooManyPending)
                       else if Finishes(room, sent, held, h) then LastPiece(sent, sent[h.key], h.key)
                       else Waiting)
  {
    hide Pieces, Stringify, AllSeen, Mirrors, AcceptStep, Good, Touched, AllOpen, Input, Genuine;
    OpenSize(sent, held, t.states);
    StaysOpen(cfg.maxMessages, sent, held, h);
    InputChecks(cfg, sent, h);
    KeyTouched(h.key, held);
    if NoRoom(cfg.maxMessages, held, h) {
      FullTableRejects(cfg, t, Input(sent, h));
    } else {
      NotComplete(sent, held, h);
      ArrivalStep(cfg, sent, held, t, h);
      if Finishes(cfg.maxMessages, sent, held, h) {
        DropMirrors(sent, held, AcceptStep(cfg, t, Input(sent, h)).0.states, h);
      }
    }
  }

  lemma KeyTouched(k: Key, held: set<Hop>)
    ensures k in KeysOf(held) <==> Touched(k, held)
  {
    if k in KeysOf(held) {
      var h :| h in held && h.key == k;
      assert Hop(k, h.i) in held;
    }
    if Touched(k, held) {
      var i :| Hop(k, i) in held;
      assert Hop(k, i).key == k;
    }
  }

  /** A message that can still receive a fragment is not complete: something of it is held, or nothing is. */
  lemma NotComplete(sent: map<Key, Json>, held: set<Hop>, h: Hop)
    requires AllOpen(sent, held) && Sent(sent, h)
    ensures !AllSeen(h.key, sent[h.key], held)
  {
    hide Pieces;
    assert h.key == Hop(h.key, h.i).key && (Hop(h.key, h.i) in held ==> !AllSeen(h.key, sent[h.key], held));
  }

  /** A table that is full refuses, and leaves everything as it was. */
  lemma FullTableRejects(cfg: Config, t: Table, a: Arrival)
    requires Good(cfg, t) && CheckFragment(a.fragment, cfg.direction).None? && PeerError(a.peer).None?
    requires KeyOf(a) !in t.states && |t.states| >= cfg.maxMessages
    ensures AcceptStep(cfg, t, a) == (t, Rejected(TooManyPending))
  {
    hide CheckFragment, Place, Sized;
  }

  lemma RunStep(cfg: Config, sent: map<Key, Json>, plan: seq<Hop>, n: nat)
    requires AllSent(sent, plan) && n < |plan|
    ensures Good(cfg, TableAfter(cfg, sent, plan, n))
    ensures (TableAfter(cfg, sent, plan, n + 1), Returned(cfg, sent, plan, n))
         == AcceptStep(cfg, TableAfter(cfg, sent, plan, n), Input(sent, plan[n]))
  {
    hide AcceptStep, Good, Input, Sent;
  }

  lemma RunStarts(cfg: Config, sent: map<Key, Json>, plan: seq<Hop>)
    requires AllSent(sent, plan)
    ensures var held := HeldAt(cfg.maxMessages, sent, plan, 0);
            Mirrors(sent, held, TableAfter(cfg, sent, plan, 0).states) && AllOpen(sent, held)
  {
    hide Mirrors, AllOpen;
    NothingMirrors(sent, {});
    NothingOpen(sent);
  }

  /** At every point of every run the table mirrors what is held. */
  lemma {:induction false} TableMirrors(cfg: Config, sent: map<Key, Json>, plan: seq<Hop>, n: nat)
    requires AllGenuine(cfg, sent) && AllSent(sent, plan) && n <= |plan|
    ensures var held := HeldAt(cfg.maxMessages, sent, plan, n);
            Mirrors(sent, held, TableAfter(cfg, sent, plan, n).states) && AllOpen(sent, held)
    decreases n
  {
    hide AcceptStep, Good, Mirrors, AllOpen, HoldStep, AllGenuine, Input, TableAfter, Returned, Sent;
    if n == 0 {
      RunStarts(cfg, sent, plan);
    } else {
      var held := HeldAt(cfg.maxMessages, sent, plan, n - 1);
      RunStep(cfg, sent, plan, n - 1);
      TableMirrors(cfg, sent, plan, n - 1);
      AnyArrival(cfg, sent, held, TableAfter(cfg, sent, plan, n - 1), plan[n - 1]);
    }
  }

  lemma NothingOpen(sent: map<Key, Json>)
    ensures AllOpen(sent, {})
  {
  }

  /**
    Every arrival of every run, repeats and refusals included: it is refused exactly when its message is not
    open and maxMessages are; it returns its message, as sent, exactly when it brings its last missing fragment.
  */
  lemma EveryArrival(cfg: Config, sent: map<Key, Json>, plan: seq<Hop>, j: nat)
    requires AllGenuine(cfg, sent) && AllSent(sent, plan) && j < |plan|
    ensures var k := plan[j].key;
            Returned(cfg, sent, plan, j) ==
            if RefusedAt(cfg.maxMessages, sent, plan, j) then Rejected(TooManyPending)
            else if FinishesAt(cfg.maxMessages, sent, plan, j) then LastPiece(sent, sent[k], k)
            else Waiting
  {
    hide AcceptStep, Good, Mirrors, AllOpen, HoldStep, Genuine, Input, NoRoom, Finishes, LastPiece, TableAfter, Sent, Returned;
    RunStep(cfg, sent, plan, j);
    TableMirrors(cfg, sent, plan, j);
    AnyArrival(cfg, sent, HeldAt(cfg.maxMessages, sent, plan, j), TableAfter(cfg, sent, plan, j), plan[j]);
  }

  // ----- exactly once -----

  /** What has been taken in by step n: everything that arrived and was not refused. */
  ghost function TakenAt(room: nat, sent: map<Key, Json>, plan: seq<Hop>, n: nat): set<Hop>
    requires AllSent(sent, plan) && n <= |plan|
  {
    if n == 0 then {}
    else TakenAt(room, sent, plan, n - 1) + if RefusedAt(room, sent, plan, n - 1) then {} else {plan[n - 1]}
  }

  /** No fragment is taken in after its message is complete: repeats come only while it is open. */
  ghost predicate OnTime(room: nat, sent: map<Key, Json>, plan: seq<Hop>, n: nat)
    requires AllSent(sent, plan) && n <= |plan|
  {
    forall j :: 0 <= j < n && !RefusedAt(room, sent, plan, j) ==>
      !AllSeen(plan[j].key, sent[plan[j].key], TakenAt(room, sent, plan, j))
  }

  /** Every fragment of every message is taken in some time. */
  ghost predicate AllTaken(room: nat, sent: map<Key, Json>, plan: seq<Hop>)
    requires AllSent(sent, plan)
  {
    forall k :: k in sent ==> AllSeen(k, sent[k], TakenAt(room, sent, plan, |plan|))
  }

  /** The arrivals below n that return the message sent under key k. */
  ghost predicate DeliveredAt(cfg: Config, sent: map<Key, Json>, plan: seq<Hop>, k: Key, j: nat)
    requires AllSent(sent, plan) && j < |plan|
  {
    plan[j].key == k && Returned(cfg, sent, plan, j).Complete?
  }

  ghost function Deliveries(cfg: Config, sent: map<Key, Json>, plan: seq<Hop>, k: Key, n: nat): set<nat>
    requires AllSent(sent, plan) && n <= |plan|
  {
    set j: nat | j < n && DeliveredAt(cfg, sent, plan, k, j)
  }

  ghost predicate ExactlyOnce(cfg: Config, sent: map<Key, Json>, plan: seq<Hop>)
    requires AllSent(sent, plan)
  {
    && TableAfter(cfg, sent, plan, |plan|).states == map[]
    && forall k :: k in sent ==> |Deliveries(cfg, sent, plan, k, |plan|)| == 1
  }

  lemma DeliveriesStep(cfg: Config, sent: map<Key, Json>, plan: seq<Hop>, k: Key, n: nat)
    requires AllSent(sent, plan) && n < |plan|
    ensures |Deliveries(cfg, sent, plan, k, n + 1)| == |Deliveries(cfg, sent, plan, k, n)|
            + if DeliveredAt(cfg, sent, plan, k, n) then 1 else 0
  {
    hide DeliveredAt, AllSent;
    var before, after := Deliveries(cfg, sent, plan, k, n), Deliveries(cfg, sent, plan, k, n + 1);
    if DeliveredAt(cfg, sent, plan, k, n) {
      assert after == before + {n};
    } else {
      assert after == before;
    }
  }

  lemma DeliveredIff(cfg: Config, sent: map<Key, Json>, plan: seq<Hop>, k: Key, j: nat)
    requires AllGenuine(cfg, sent) && AllSent(sent, plan) && j < |plan|
    ensures DeliveredAt(cfg, sent, plan, k, j) <==> plan[j].key == k && FinishesAt(cfg.maxMessages, sent, plan, j)
  {
    hide Returned, HeldAt, NoRoom, AllSeen, Genuine;
    EveryArrival(cfg, sent, plan, j);
  }

  lemma MoreSeen(k: Key, m: Json, a: set<Hop>, b: set<Hop>)
    requires a <= b && AllSeen(k, m, a)
    ensures AllSeen(k, m, b)
  {
    hide Pieces;
  }

  lemma {:induction false} HeldIsTaken(room: nat, sent: map<Key, Json>, plan: seq<Hop>, n: nat)
    requires AllSent(sent, plan) && n <= |plan|
    ensures HeldAt(room, sent, plan, n) <= TakenAt(room, sent, plan, n)
    decreases n
  {
    hide NoRoom, AllSeen, AllSent;
    if n > 0 { HeldIsTaken(room, sent, plan, n - 1); }
  }

  lemma {:induction false} TakenGrows(room: nat, sent: map<Key, Json>, plan: seq<Hop>, i: nat, j: nat)
    requires AllSent(sent, plan) && i <= j <= |plan|
    ensures TakenAt(room, sent, plan, i) <= TakenAt(room, sent, plan, j)
    decreases j
  {
    hide RefusedAt, AllSent;
    if i < j { TakenGrows(room, sent, plan, i, j - 1); }
  }

  /** What is taken of messages that are not complete. */
  ghost predicate HoldsTheRest(sent: map<Key, Json>, taken: set<Hop>, held: set<Hop>) {
    forall h :: h in held <==> h in taken && h.key in sent && !AllSeen(h.key, sent[h.key], taken)
  }

  lemma SameOfKey(k: Key, m: Json, a: set<Hop>, b: set<Hop>)
    requires forall i :: Hop(k, i) in a <==> Hop(k, i) in b
    ensures AllSeen(k, m, a) <==> AllSeen(k, m, b)
  {
    hide Pieces;
  }

  /** One arrival of a message that is not complete keeps this, and completes it in both accounts or in neither. */
  lemma RestStep(room: nat, sent: map<Key, Json>, taken: set<Hop>, held: set<Hop>, h: Hop)
    requires HoldsTheRest(sent, taken, held) && h.key in sent && !NoRoom(room, held, h)
    requires !AllSeen(h.key, sent[h.key], taken)
    ensures HoldsTheRest(sent, taken + {h}, HoldStep(room, sent, held, h))
    ensures Finishes(room, sent, held, h) <==> AllSeen(h.key, sent[h.key], taken + {h})
  {
    hide AllSeen, NoRoom;
    var after := HoldStep(room, sent, held, h);
    SameOfKey(h.key, sent[h.key], held + {h}, taken + {h});
    forall x | x in taken && x.key in sent && x.key != h.key
      ensures AllSeen(x.key, sent[x.key], taken + {h}) <==> AllSeen(x.key, sent[x.key], taken)
    {
      SameOfKey(x.key, sent[x.key], taken + {h}, taken);
    }
  }

  lemma {:induction false} HeldIsTheRest(room: nat, sent: map<Key, Json>, plan: seq<Hop>, n: nat)
    requires AllSent(sent, plan) && n <= |plan| && OnTime(room, sent, plan, n)
    ensures HoldsTheRest(sent, TakenAt(room, sent, plan, n), HeldAt(room, sent, plan, n))
    decreases n
  {
    hide HoldStep, HoldsTheRest, NoRoom, AllSeen, OnTime;
    if n == 0 {
      NothingHeld(sent);
    } else {
      OnTimeSooner(room, sent, plan, n - 1, n);
      HeldIsTheRest(room, sent, plan, n - 1);
      if RefusedAt(room, sent, plan, n - 1) {
        RefusedChangesNothing(room, sent, plan, n - 1);
      } else {
        TakenChanges(room, sent, plan, n - 1);
        RestStep(room, sent, TakenAt(room, sent, plan, n - 1), HeldAt(room, sent, plan, n - 1), plan[n - 1]);
      }
    }
  }

  lemma RefusedChangesNothing(room: nat, sent: map<Key, Json>, plan: seq<Hop>, n: nat)
    requires AllSent(sent, plan) && n < |plan| && RefusedAt(room, sent, plan, n)
    ensures HeldAt(room, sent, plan, n + 1) == HeldAt(room, sent, plan, n)
    ensures TakenAt(room, sent, plan, n + 1) == TakenAt(room, sent, plan, n)
  {
  }

  lemma TakenChanges(room: nat, sent: map<Key, Json>, plan: seq<Hop>, n: nat)
    requires AllSent(sent, plan) && n < |plan| && !RefusedAt(room, sent, plan, n) && OnTime(room, sent, plan, n + 1)
    ensures HeldAt(room, sent, plan, n + 1) == HoldStep(room, sent, HeldAt(room, sent, plan, n), plan[n])
    ensures TakenAt(room, sent, plan, n + 1) == TakenAt(room, sent, plan, n) + {plan[n]}
    ensures !AllSeen(plan[n].key, sent[plan[n].key], TakenAt(room, sent, plan, n))
  {
    hide HoldStep, AllSeen, NoRoom;
  }

  lemma NothingHeld(sent: map<Key, Json>)
    ensures HoldsTheRest(sent, {}, {})
  {
  }

  /** While everything comes on time, an arrival finishes its message exactly when it makes it complete. */
  lemma FinishesWhenComplete(room: nat, sent: map<Key, Json>, plan: seq<Hop>, j: nat)
    requires AllSent(sent, plan) && j < |plan| && OnTime(room, sent, plan, j + 1)
    ensures var k := plan[j].key;
            FinishesAt(room, sent, plan, j) <==>
            AllSeen(k, sent[k], TakenAt(room, sent, plan, j + 1)) && !AllSeen(k, sent[k], TakenAt(room, sent, plan, j))
  {
    hide HoldStep, HoldsTheRest, NoRoom, AllSeen, HeldAt;
    HeldIsTheRest(room, sent, plan, j);
    if !RefusedAt(room, sent, plan, j) {
      RestStep(room, sent, TakenAt(room, sent, plan, j), HeldAt(room, sent, plan, j), plan[j]);
    } else {
      RefusedChangesNothing(room, sent, plan, j);
    }
  }

  /** The arrival that completes a message. */
  lemma {:induction false} Completion(room: nat, sent: map<Key, Json>, plan: seq<Hop>, k: Key, n: nat) returns (j: nat)
    requires AllSent(sent, plan) && n <= |plan| && k in sent && |Pieces(k, sent[k])| >= 1
    requires AllSeen(k, sent[k], TakenAt(room, sent, plan, n))
    ensures j < n && plan[j].key == k
    ensures !AllSeen(k, sent[k], TakenAt(room, sent, plan, j)) && AllSeen(k, sent[k], TakenAt(room, sent, plan, j + 1))
    decreases n
  {
    hide AllSeen, Pieces, RefusedAt, AllSent;
    if n == 0 {
      NothingSeen(k, sent[k]);
    } else if AllSeen(k, sent[k], TakenAt(room, sent, plan, n - 1)) {
      j := Completion(room, sent, plan, k, n - 1);
    } else {
      j := n - 1;
      if plan[j].key != k {
        SameOfKey(k, sent[k], TakenAt(room, sent, plan, n), TakenAt(room, sent, plan, j));
      }
    }
  }

  lemma NothingSeen(k: Key, m: Json)
    requires |Pieces(k, m)| >= 1
    ensures !AllSeen(k, m, {})
  {
    hide Pieces;
    var none: set<Hop> := {};
    assert Hop(k, 0) !in none;
  }

  lemma SomePieces(cfg: Config, k: Key, m: Json)
    requires Genuine(cfg, k, m)
    ensures |Pieces(k, m)| >= 1
  {
    hide Stringify, Bytes;
  }

  /** While everything comes on time, a complete message has been returned exactly once. */
  lemma OnceWhenOnTime(cfg: Config, sent: map<Key, Json>, plan: seq<Hop>, k: Key, n: nat)
    requires AllGenuine(cfg, sent) && AllSent(sent, plan) && n <= |plan| && OnTime(cfg.maxMessages, sent, plan, n)
    requires k in sent && AllSeen(k, sent[k], TakenAt(cfg.maxMessages, sent, plan, n))
    ensures |Deliveries(cfg, sent, plan, k, n)| == 1
  {
    hide Pieces, AllSeen, DeliveredAt, FinishesAt, TakenAt, AllSent, Genuine, RefusedAt;
    var room := cfg.maxMessages;
    SomePieces(cfg, k, sent[k]);
    var done := Completion(room, sent, plan, k, n);
    forall j: nat | j < n ensures DeliveredAt(cfg, sent, plan, k, j) <==> j == done {
      DeliveredIff(cfg, sent, plan, k, j);
      OnTimeSooner(room, sent, plan, j + 1, n);
      FinishesWhenComplete(room, sent, plan, j);
      if plan[j].key == k {
        if j < done {
          TakenGrows(room, sent, plan, j + 1, done);
          if AllSeen(k, sent[k], TakenAt(room, sent, plan, j + 1)) {
            MoreSeen(k, sent[k], TakenAt(room, sent, plan, j + 1), TakenAt(room, sent, plan, done));
          }
        } else if j > done {
          TakenGrows(room, sent, plan, done + 1, j);
          MoreSeen(k, sent[k], TakenAt(room, sent, plan, done + 1), TakenAt(room, sent, plan, j));
        }
      }
    }
    assert Deliveries(cfg, sent, plan, k, n) == {done};
  }

  lemma OnTimeSooner(room: nat, sent: map<Key, Json>, plan: seq<Hop>, i: nat, n: nat)
    requires AllSent(sent, plan) && i <= n <= |plan| && OnTime(room, sent, plan, n)
    ensures OnTime(room, sent, plan, i)
  {
    hide RefusedAt, AllSeen, TakenAt;
  }

  /** Key k has been delivered once and something of it is held again, or has been delivered twice. */
  ghost predicate Overdue(cfg: Config, sent: map<Key, Json>, plan: seq<Hop>, k: Key, n: nat)
    requires AllSent(sent, plan) && n <= |plan|
  {
    var d := Deliveries(cfg, sent, plan, k, n);
    |d| >= 2 || (|d| >= 1 && Touched(k, HeldAt(cfg.maxMessages, sent, plan, n)))
  }

  lemma HoldTouches(room: nat, sent: map<Key, Json>, held: set<Hop>, h: Hop, k: Key)
    requires h.key in sent
    ensures if h.key == k then
              NoRoom(room, held, h) || Finishes(room, sent, held, h) || Touched(k, HoldStep(room, sent, held, h))
            else Touched(k, held) ==> Touched(k, HoldStep(room, sent, held, h))
  {
    hide NoRoom, AllSeen;
    var after := HoldStep(room, sent, held, h);
    if h.key == k && !NoRoom(room, held, h) && !Finishes(room, sent, held, h) {
      assert Hop(k, h.i) in after;
    } else if h.key != k && Touched(k, held) {
      var i :| Hop(k, i) in held;
      assert Hop(k, i) in after;
    }
  }

  lemma StaysOverdue(cfg: Config, sent: map<Key, Json>, plan: seq<Hop>, k: Key, n: nat)
    requires AllGenuine(cfg, sent) && AllSent(sent, plan) && n < |plan|
    requires |Deliveries(cfg, sent, plan, k, n)| >= 1
    requires Overdue(cfg, sent, plan, k, n) || (plan[n].key == k && !RefusedAt(cfg.maxMessages, sent, plan, n))
    ensures Overdue(cfg, sent, plan, k, n + 1)
  {
    hide Deliveries, DeliveredAt, Touched, HoldStep, Finishes, Genuine;
    DeliveriesStep(cfg, sent, plan, k, n);
    DeliveredIff(cfg, sent, plan, k, n);
    HoldTouches(cfg.maxMessages, sent, HeldAt(cfg.maxMessages, sent, plan, n), plan[n], k);
  }

  /** From the first fragment taken too late on, its message has been returned twice or is open again, for good. */
  lemma {:induction false} LateIsOverdue(cfg: Config, sent: map<Key, Json>, plan: seq<Hop>, late: nat, n: nat)
    requires AllGenuine(cfg, sent) && AllSent(sent, plan) && late < n <= |plan|
    requires OnTime(cfg.maxMessages, sent, plan, late) && !RefusedAt(cfg.maxMessages, sent, plan, late)
    requires AllSeen(plan[late].key, sent[plan[late].key], TakenAt(cfg.maxMessages, sent, plan, late))
    ensures Overdue(cfg, sent, plan, plan[late].key, n)
    decreases n
  {
    hide Deliveries, Overdue, AllSeen, HeldAt, TakenAt, OnTime, RefusedAt, Genuine;
    var k := plan[late].key;
    if n == late + 1 {
      OnceWhenOnTime(cfg, sent, plan, k, late);
      StaysOverdue(cfg, sent, plan, k, late);
    } else {
      LateIsOverdue(cfg, sent, plan, late, n - 1);
      OverdueOnce(cfg, sent, plan, k, n - 1);
      StaysOverdue(cfg, sent, plan, k, n - 1);
    }
  }

  lemma OverdueOnce(cfg: Config, sent: map<Key, Json>, plan: seq<Hop>, k: Key, n: nat)
    requires AllSent(sent, plan) && n <= |plan| && Overdue(cfg, sent, plan, k, n)
    ensures |Deliveries(cfg, sent, plan, k, n)| >= 1
  {
    hide Deliveries, HeldAt;
  }

  lemma {:induction false} FirstLate(room: nat, sent: map<Key, Json>, plan: seq<Hop>, n: nat) returns (late: nat)
    requires AllSent(sent, plan) && n <= |plan| && !OnTime(room, sent, plan, n)
    ensures late < n && OnTime(room, sent, plan, late) && !RefusedAt(room, sent, plan, late)
    ensures AllSeen(plan[late].key, sent[plan[late].key], TakenAt(room, sent, plan, late))
    decreases n
  {
    hide AllSeen, TakenAt, RefusedAt;
    if OnTime(room, sent, plan, n - 1) {
      late := n - 1;
    } else {
      late := FirstLate(room, sent, plan, n - 1);
    }
  }

  /** A message that has been returned was taken in completely. */
  lemma DeliveredWasTaken(cfg: Config, sent: map<Key, Json>, plan: seq<Hop>, k: Key, j: nat)
    requires AllGenuine(cfg, sent) && AllSent(sent, plan) && j < |plan| && DeliveredAt(cfg, sent, plan, k, j)
    ensures k in sent && AllSeen(k, sent[k], TakenAt(cfg.maxMessages, sent, plan, |plan|))
  {
    hide AllSeen, NoRoom, HeldAt, Genuine, DeliveredAt;
    var room := cfg.maxMessages;
    DeliveredIff(cfg, sent, plan, k, j);
    HeldIsTaken(room, sent, plan, j);
    TakenGrows(room, sent, plan, j + 1, |plan|);
    MoreSeen(k, sent[k], HeldAt(room, sent, plan, j) + {plan[j]}, TakenAt(room, sent, plan, |plan|));
  }

  /**
    In any run at all: each message is returned exactly once and nothing stays pending if and only if every
    fragment is taken in, and none is after its message is complete. Which arrivals are refused is no outcome
    here but a plain account of the run: those that would open a message while maxMessages are open.
  */
  lemma ExactlyOnceIff(cfg: Config, sent: map<Key, Json>, plan: seq<Hop>)
    requires AllGenuine(cfg, sent) && AllSent(sent, plan)
    ensures ExactlyOnce(cfg, sent, plan) <==>
            AllTaken(cfg.maxMessages, sent, plan) && OnTime(cfg.maxMessages, sent, plan, |plan|)
  {
    hide Deliveries, AllSeen, TableAfter, HeldAt, TakenAt, OnTime, RefusedAt, Genuine, Mirrors, Overdue;
    var room := cfg.maxMessages;
    TableMirrors(cfg, sent, plan, |plan|);
    if AllTaken(room, sent, plan) && OnTime(room, sent, plan, |plan|) {
      HeldIsTheRest(room, sent, plan, |plan|);
      NothingLeft(room, sent, plan);
      OpenSize(sent, {}, TableAfter(cfg, sent, plan, |plan|).states);
      assert TableAfter(cfg, sent, plan, |plan|).states.Keys == {};
      forall k | k in sent ensures |Deliveries(cfg, sent, plan, k, |plan|)| == 1 {
        OnceWhenOnTime(cfg, sent, plan, k, |plan|);
      }
    } else if ExactlyOnce(cfg, sent, plan) {
      forall k | k in sent ensures AllSeen(k, sent[k], TakenAt(room, sent, plan, |plan|)) {
        SomeDelivery(cfg, sent, plan, k);
      }
      var late := FirstLate(room, sent, plan, |plan|);
      LateIsOverdue(cfg, sent, plan, late, |plan|);
      NotOverdue(cfg, sent, plan, plan[late].key);
    }
  }

  lemma SomeDelivery(cfg: Config, sent: map<Key, Json>, plan: seq<Hop>, k: Key)
    requires AllGenuine(cfg, sent) && AllSent(sent, plan) && |Deliveries(cfg, sent, plan, k, |plan|)| >= 1
    ensures k in sent && AllSeen(k, sent[k], TakenAt(cfg.maxMessages, sent, plan, |plan|))
  {
    hide AllSeen, TakenAt, Genuine, DeliveredAt;
    var j :| j in Deliveries(cfg, sent, plan, k, |plan|);
    DeliveredWasTaken(cfg, sent, plan, k, j);
  }

  lemma NothingLeft(room: nat, sent: map<Key, Json>, plan: seq<Hop>)
    requires AllSent(sent, plan) && AllTaken(room, sent, plan)
    requires HoldsTheRest(sent, TakenAt(room, sent, plan, |plan|), HeldAt(room, sent, plan, |plan|))
    ensures HeldAt(room, sent, plan, |plan|) == {}
  {
    hide AllSeen, TakenAt, HeldAt, AllSent;
  }

  lemma NotOverdue(cfg: Config, sent: map<Key, Json>, plan: seq<Hop>, k: Key)
    requires AllGenuine(cfg, sent) && AllSent(sent, plan) && ExactlyOnce(cfg, sent, plan) && k in sent
    ensures !Overdue(cfg, sent, plan, k, |plan|)
  {
    hide Deliveries, HeldAt, TableAfter, Mirrors, AllOpen, Genuine, Touched;
    TableMirrors(cfg, sent, plan, |plan|);
    var held := HeldAt(cfg.maxMessages, sent, plan, |plan|);
    OpenSize(sent, held, TableAfter(cfg, sent, plan, |plan|).states);
    KeyTouched(k, held);
  }

  // ----- runs with room for every message, and repeats only while their message is open -----

  /** No fragment arrives after its message is complete. */
  ghost predicate RepeatsWhileOpen(sent: map<Key, Json>, plan: seq<Hop>, n: nat)
    requires AllSent(sent, plan) && n <= |plan|
  {
    forall j :: 0 <= j < n ==> !AllSeen(plan[j].key, sent[plan[j].key], SeenAt(plan, j))
  }

  /** Messages that have arrived in part. */
  ghost function OpenKeys(sent: map<Key, Json>, seen: set<Hop>): set<Key> {
    set k | k in sent && Touched(k, seen) && !AllSeen(k, sent[k], seen)
  }

  /** A message opens only while fewer than maxMessages are open. */
  ghost predicate RoomToOpen(room: nat, sent: map<Key, Json>, plan: seq<Hop>) {
    forall j :: 0 <= j < |plan| && !Touched(plan[j].key, SeenAt(plan, j)) ==> |OpenKeys(sent, SeenAt(plan, j))| < room
  }

  ghost predicate NothingRejected(cfg: Config, sent: map<Key, Json>, plan: seq<Hop>)
    requires AllSent(sent, plan)
  {
    forall j :: 0 <= j < |plan| ==> !Returned(cfg, sent, plan, j).Rejected?
  }

  ghost predicate EveryFragmentArrives(sent: map<Key, Json>, plan: seq<Hop>) {
    forall k :: k in sent ==> AllSeen(k, sent[k], SeenAt(plan, |plan|))
  }

  ghost predicate NoneRefused(room: nat, sent: map<Key, Json>, plan: seq<Hop>, n: nat)
    requires AllSent(sent, plan) && n <= |plan|
  {
    forall j :: 0 <= j < n ==> !RefusedAt(room, sent, plan, j)
  }

  lemma {:induction false} AllIsTaken(room: nat, sent: map<Key, Json>, plan: seq<Hop>, n: nat)
    requires AllSent(sent, plan) && n <= |plan| && NoneRefused(room, sent, plan, n)
    ensures TakenAt(room, sent, plan, n) == SeenAt(plan, n)
    decreases n
  {
    hide RefusedAt, AllSent;
    if n > 0 {
      AllIsTaken(room, sent, plan, n - 1);
      SeenStep(plan, n - 1);
    }
  }

  lemma AllOnTime(room: nat, sent: map<Key, Json>, plan: seq<Hop>, n: nat)
    requires AllSent(sent, plan) && n <= |plan| && NoneRefused(room, sent, plan, n)
    ensures OnTime(room, sent, plan, n) <==> RepeatsWhileOpen(sent, plan, n)
  {
    hide RefusedAt, AllSeen, TakenAt, SeenAt, AllSent;
    forall j | 0 <= j < n ensures TakenAt(room, sent, plan, j) == SeenAt(plan, j) {
      AllIsTaken(room, sent, plan, j);
    }
  }

  lemma RestKeys(sent: map<Key, Json>, seen: set<Hop>, held: set<Hop>, k: Key)
    requires HoldsTheRest(sent, seen, held) && k in sent && !AllSeen(k, sent[k], seen)
    ensures KeysOf(held) == OpenKeys(sent, seen) && (Touched(k, held) <==> Touched(k, seen))
  {
    hide AllSeen;
    forall x ensures x in KeysOf(held) <==> x in OpenKeys(sent, seen) {
      KeyTouched(x, held);
      if x in sent && !AllSeen(x, sent[x], seen) && Touched(x, seen) {
        var i :| Hop(x, i) in seen;
        assert Hop(x, i) in held;
      }
      if Touched(x, held) {
        var i :| Hop(x, i) in held;
        assert Hop(x, i) in seen && Hop(x, i).key == x;
      }
    }
    KeyTouched(k, held);
  }

  lemma FirstRefusal(room: nat, sent: map<Key, Json>, plan: seq<Hop>, n: nat)
    requires AllSent(sent, plan) && n < |plan| && RepeatsWhileOpen(sent, plan, |plan|) && NoneRefused(room, sent, plan, n)
    ensures RefusedAt(room, sent, plan, n) <==>
            !Touched(plan[n].key, SeenAt(plan, n)) && |OpenKeys(sent, SeenAt(plan, n))| >= room
  {
    hide AllSeen, Touched, HeldAt, TakenAt, SeenAt, KeysOf, OpenKeys, HoldsTheRest;
    assert RepeatsWhileOpen(sent, plan, n);
    AllOnTime(room, sent, plan, n);
    AllIsTaken(room, sent, plan, n);
    HeldIsTheRest(room, sent, plan, n);
    RestKeys(sent, SeenAt(plan, n), HeldAt(room, sent, plan, n), plan[n].key);
  }

  lemma {:induction false} RoomIsEnough(room: nat, sent: map<Key, Json>, plan: seq<Hop>, n: nat)
    requires AllSent(sent, plan) && n <= |plan| && RepeatsWhileOpen(sent, plan, |plan|) && RoomToOpen(room, sent, plan)
    ensures NoneRefused(room, sent, plan, n)
    decreases n
  {
    hide AllSeen, Touched, SeenAt, OpenKeys, RefusedAt, AllSent;
    if n > 0 {
      RoomIsEnough(room, sent, plan, n - 1);
      FirstRefusal(room, sent, plan, n - 1);
    }
  }

  /**
    Every interleaving of the fragments of the sent messages, with repeats while their message is
    open and room for every message that opens: arrival j returns the message it completes, equal to
    the one sent, and nothing otherwise.
  */
  lemma DeliversOnLastFragment(cfg: Config, sent: map<Key, Json>, plan: seq<Hop>, j: nat)
    requires AllGenuine(cfg, sent) && AllSent(sent, plan) && j < |plan|
    requires RepeatsWhileOpen(sent, plan, |plan|) && RoomToOpen(cfg.maxMessages, sent, plan)
    ensures var k := plan[j].key;
            Returned(cfg, sent, plan, j) == if AllSeen(k, sent[k], SeenAt(plan, j + 1)) then LastPiece(sent, sent[k], k) else Waiting
  {
    hide AllSeen, SeenAt, TakenAt, RefusedAt, FinishesAt, Returned, Genuine, RoomToOpen;
    var room := cfg.maxMessages;
    RoomIsEnough(room, sent, plan, |plan|);
    AllOnTime(room, sent, plan, |plan|);
    OnTimeSooner(room, sent, plan, j + 1, |plan|);
    AllIsTaken(room, sent, plan, j);
    AllIsTaken(room, sent, plan, j + 1);
    FinishesWhenComplete(room, sent, plan, j);
    EveryArrival(cfg, sent, plan, j);
  }

  /** While repeats come only for open messages, nothing is rejected if and only if there is room for each that opens. */
  lemma NothingRejectedIff(cfg: Config, sent: map<Key, Json>, plan: seq<Hop>)
    requires AllGenuine(cfg, sent) && AllSent(sent, plan) && RepeatsWhileOpen(sent, plan, |plan|)
    ensures NothingRejected(cfg, sent, plan) <==> RoomToOpen(cfg.maxMessages, sent, plan)
  {
    hide AllSeen, Touched, OpenKeys, Returned, SeenAt, Genuine, RefusedAt, FinishesAt;
    var room := cfg.maxMessages;
    forall j | 0 <= j < |plan| ensures Returned(cfg, sent, plan, j).Rejected? <==> RefusedAt(room, sent, plan, j) {
      EveryArrival(cfg, sent, plan, j);
    }
    if RoomToOpen(room, sent, plan) { RoomIsEnough(room, sent, plan, |plan|); }
    if NothingRejected(cfg, sent, plan) {
      forall j | 0 <= j < |plan| && !Touched(plan[j].key, SeenAt(plan, j)) ensures |OpenKeys(sent, SeenAt(plan, j))| < room {
        FirstRefusal(room, sent, plan, j);
      }
    }
  }

  /**
    End to end: whenever every fragment of the sent messages arrives, in any interleaving, with repeats
    only while their message is open and at most maxMessages open at once, each message is returned
    exactly once and nothing stays pending.
  */
  lemma DeliversExactlyOnce(cfg: Config, sent: map<Key, Json>, plan: seq<Hop>)
    requires AllGenuine(cfg, sent) && AllSent(sent, plan) && EveryFragmentArrives(sent, plan)
    requires RepeatsWhileOpen(sent, plan, |plan|) && RoomToOpen(cfg.maxMessages, sent, plan)
    ensures ExactlyOnce(cfg, sent, plan)
  {
    hide ExactlyOnce, RoomToOpen, AllSeen, OnTime, RepeatsWhileOpen, SeenAt, TakenAt, Genuine;
    RoomIsEnough(cfg.maxMessages, sent, plan, |plan|);
    AllOnTime(cfg.maxMessages, sent, plan, |plan|);
    AllIsTaken(cfg.maxMessages, sent, plan, |plan|);
    ExactlyOnceIff(cfg, sent, plan);
  }

  // ----- repeats that come too late -----

  /** A one-fragment message that arrives twice is returned twice. */
  lemma ReturnedTwice(cfg: Config, k: Key, m: Json)
    requires Genuine(cfg, k, m) && |Pieces(k, m)| == 1 && cfg.maxMessages >= 1
    ensures var sent, plan := map[k := m], [Hop(k, 0), Hop(k, 0)];
            && AllSent(sent, plan)
            && Returned(cfg, sent, plan, 0) == Returned(cfg, sent, plan, 1) == LastPiece(sent, m, k)
            && !ExactlyOnce(cfg, sent, plan)
  {
    hide Pieces, Genuine, Returned, ExactlyOnce, Stringify;
    var sent, plan, room := map[k := m], [Hop(k, 0), Hop(k, 0)], cfg.maxMessages;
    var h := Hop(k, 0);
    OnePiece(k, m, {});
    assert !NoRoom(room, {}, h);
    assert HeldAt(room, sent, plan, 0) == {};
    assert HeldAt(room, sent, plan, 1) == Without(k, {}) == {};
    EveryArrival(cfg, sent, plan, 0);
    EveryArrival(cfg, sent, plan, 1);
    TwoDeliveries(cfg, sent, plan, k);
  }

  lemma OnePiece(k: Key, m: Json, held: set<Hop>)
    requires |Pieces(k, m)| == 1
    ensures AllSeen(k, m, held + {Hop(k, 0)})
  {
    hide Pieces;
  }

  lemma TwoDeliveries(cfg: Config, sent: map<Key, Json>, plan: seq<Hop>, k: Key)
    requires AllSent(sent, plan) && |plan| == 2 && k in sent
    requires forall j: nat :: j < 2 ==> DeliveredAt(cfg, sent, plan, k, j)
    ensures !ExactlyOnce(cfg, sent, plan)
  {
    hide DeliveredAt;
    assert Deliveries(cfg, sent, plan, k, 2) == {0, 1};
  }

  /** The benchmark's smallest messages are such messages. */
  lemma SmallIsOnePiece(direction: char, peer: Peer, n: nat)
    requires direction in {'q', 'r'} && n <= MAX_SEQUENCE
    ensures |Pieces(Key(peer, direction, Hex8(n)), BenchMessage(64, Hex8(n)))| == 1
  {
    hide Stringify, Bytes, Hex8, BenchMessage;
    SequenceRoundTrip(n);
    MessageSize(64, Hex8(n));
    FragmentMessageAccepts(BenchMessage(64, Hex8(n)), direction);
  }
}
