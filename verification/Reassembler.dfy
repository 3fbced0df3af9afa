/** The fragment reassembler (benchmark/competitors/lib/udp.js, lines 70-79 and 120-209). */
module Reassembler {
  import opened Common
  import opened Json
  import opened Protocol
  import opened Fragments

  datatype Peer = Peer(address: string, port: int)

  /** peerKey, direction and sequence; the source joins the three into one string. */
  datatype Key = Key(peer: Peer, direction: char, sequence: string)

  datatype Pending = Pending(bytes: nat, chunks: seq<Option<string>>, nextIndex: nat, total: nat, totalBytes: nat)

  datatype Counters = Counters(
    acceptedFragments: nat, completedMessages: nat, conflictingDuplicates: nat,
    duplicateFragments: nat, maximumPendingMessages: nat, outOfOrderFragments: nat)

  datatype Config = Config(direction: Option<char>, maxMessages: nat, parse: string -> Option<Json>)

  datatype Table = Table(states: map<Key, Pending>, counters: Counters)

  datatype Arrival = Arrival(fragment: Fragment, peer: Peer)

  datatype Outcome =
    | Waiting
    | Complete(encodedBytes: nat, fragmentCount: nat, message: Json)
    | Rejected(error: UdpError)

  const EMPTY: Table := Table(map[], Counters(0, 0, 0, 0, 0, 0))

  // ----- one pending message -----

  /** The length of the longest complete prefix of chunks, counted on from k. */
  function LeadFrom(chunks: seq<Option<string>>, k: nat): (r: nat)
    requires k <= |chunks|
    ensures k <= r <= |chunks|
    ensures forall j :: k <= j < r ==> chunks[j].Some?
    ensures r < |chunks| ==> chunks[r].None?
    decreases |chunks| - k
  {
    if k < |chunks| && chunks[k].Some? then LeadFrom(chunks, k + 1) else k
  }

  function Length(c: Option<string>): nat {
    if c.Some? then |c.value| else 0
  }

  function StoredBytes(chunks: seq<Option<string>>): nat
    decreases |chunks|
  {
    if chunks == [] then 0 else StoredBytes(chunks[..|chunks| - 1]) + Length(chunks[|chunks| - 1])
  }

  function Join(chunks: seq<Option<string>>): string
    decreases |chunks|
  {
    if chunks == [] then ""
    else Join(chunks[..|chunks| - 1]) + (if chunks[|chunks| - 1].Some? then chunks[|chunks| - 1].value else "")
  }

  function NewPending(n: nat, b: nat): Pending {
    Pending(0, seq(n, _ => None), 0, n, b)
  }

  function Store(p: Pending, i: nat, c: string): Pending
    requires i < |p.chunks|
  {
    var chunks := p.chunks[i := Some(c)];
    p.(chunks := chunks, bytes := p.bytes + |c|, nextIndex := LeadFrom(chunks, 0))
  }

  ghost predicate Sized(p: Pending) {
    && LegalBytes(p.totalBytes) && p.total == FragmentCount(p.totalBytes) == |p.chunks|
    && p.nextIndex <= |p.chunks| && p.nextIndex == LeadFrom(p.chunks, 0)
    && p.bytes == StoredBytes(p.chunks)
    && forall i :: 0 <= i < |p.chunks| && p.chunks[i].Some? ==>
         |p.chunks[i].value| == ChunkBytes(p.totalBytes, p.total, i) && IsAscii(p.chunks[i].value)
  }

  /** Every pending message is well sized and incomplete, and there are at most maxMessages of them. */
  ghost predicate Good(cfg: Config, t: Table) {
    GoodStates(cfg, t.states)
  }

  ghost predicate GoodStates(cfg: Config, states: map<Key, Pending>) {
    && |states| <= cfg.maxMessages
    && forall key :: key in states ==> Sized(states[key]) && states[key].nextIndex < states[key].total
  }

  // ----- accept -----

  function PeerError(peer: Peer): Option<UdpError> {
    if peer.port < 1 || peer.port > 65535 then Some(BadPeer) else None
  }

  function KeyOf(a: Arrival): Key {
    Key(a.peer, a.fragment.d, a.fragment.s)
  }

  /** What completing a message gives: the decoded message, or the error of a failed check. */
  function Finish(cfg: Config, p: Pending, sequence: string): Outcome {
    var encoded := Join(p.chunks);
    if p.bytes != p.totalBytes || Bytes(encoded) != p.totalBytes then Rejected(ByteCountMismatch)
    else match cfg.parse(encoded)
      case None => Rejected(NotJson)
      case Some(message) =>
        if Field(message, "sequence") != Some(Str(sequence)) then Rejected(SequenceMismatch)
        else Complete(p.totalBytes, p.total, message)
  }

  /** What a checked fragment does to its message p and the counters n. */
  function Place(cfg: Config, states: map<Key, Pending>, n: Counters, key: Key, p: Pending, f: Fragment): (Table, Outcome)
    requires 0 <= f.i < |p.chunks|
  {
    var existing := p.chunks[f.i];
    if existing.Some? && existing.value != f.c then
      (Table(states, n.(conflictingDuplicates := n.conflictingDuplicates + 1)), Rejected(ConflictingDuplicate))
    else if existing.Some? then
      (Table(states, n.(duplicateFragments := n.duplicateFragments + 1)), Waiting)
    else
      var q := Store(p, f.i, f.c);
      var n1 := n.(acceptedFragments := n.acceptedFragments + 1,
                   outOfOrderFragments := n.outOfOrderFragments + if f.i != p.nextIndex then 1 else 0);
      if q.nextIndex != q.total then (Table(states[key := q], n1), Waiting)
      else
        var o := Finish(cfg, q, f.s);
        (Table(states - {key}, if o.Complete? then n1.(completedMessages := n1.completedMessages + 1) else n1), o)
  }

  function AcceptStep(cfg: Config, t: Table, a: Arrival): (Table, Outcome)
    requires Good(cfg, t)
  {
    var f, key, n := a.fragment, KeyOf(a), t.counters;
    var bad := CheckFragment(f, cfg.direction);
    if bad.Some? then (t, Rejected(bad.value))
    else if PeerError(a.peer).Some? then (t, Rejected(BadPeer))
    else if key in t.states then
      var p := t.states[key];
      if p.total != f.n || p.totalBytes != f.b then (t, Rejected(MetadataChanged))
      else Place(cfg, t.states, n, key, p, f)
    else if |t.states| >= cfg.maxMessages then (t, Rejected(TooManyPending))
    else
      Place(cfg, t.states, n.(maximumPendingMessages := Max(n.maximumPendingMessages, |t.states| + 1)), key, NewPending(f.n, f.b), f)
  }

  class FragmentReassembler {
    const cfg: Config
    var states: map<Key, Pending>
    var counters: Counters

    function View(): Table
      reads this
    {
      Table(states, counters)
    }

    ghost predicate Valid()
      reads this
    {
      cfg.maxMessages >= 1 && Good(cfg, View())
    }

    constructor (cfg: Config)
      requires cfg.maxMessages >= 1 && (cfg.direction.Some? ==> cfg.direction.value in {'q', 'r'})
      ensures Valid() && this.cfg == cfg && View() == EMPTY
    {
      this.cfg := cfg;
      states, counters := map[], Counters(0, 0, 0, 0, 0, 0);
    }

    method Accept(f: Fragment, peer: Peer) returns (o: Outcome)
      requires Valid()
      modifies this
      ensures Valid()
      ensures (View(), o) == AcceptStep(cfg, old(View()), Arrival(f, peer))
    {
      hide CheckFragment, Sized, Place;
      AcceptKeepsGood(cfg, View(), Arrival(f, peer));
      var bad := CheckFragment(f, cfg.direction);
      if bad.Some? { return Rejected(bad.value); }
      if PeerError(peer).Some? { return Rejected(BadPeer); }
      CheckedIndex(f, cfg.direction);
      var key := Key(peer, f.d, f.s);
      var state: Pending;
      if key !in states {
        if |states| >= cfg.maxMessages { return Rejected(TooManyPending); }
        state := NewPending(f.n, f.b);
        NewIsSized(f.n, f.b);
        counters := counters.(maximumPendingMessages := Max(counters.maximumPendingMessages, |states| + 1));
      } else {
        state := states[key];
        if state.total != f.n || state.totalBytes != f.b { return Rejected(MetadataChanged); }
      }
      SizedShape(state);
      o := PlaceFragment(key, state, f);
    }

    method PlaceFragment(key: Key, state: Pending, f: Fragment) returns (o: Outcome)
      requires 0 <= f.i < |state.chunks| == state.total && state.nextIndex == LeadFrom(state.chunks, 0)
      modifies this
      ensures (View(), o) == Place(cfg, old(states), old(counters), key, state, f)
    {
      hide Finish;
      var existing := state.chunks[f.i];
      if existing.Some? {
        if existing.value != f.c {
          counters := counters.(conflictingDuplicates := counters.conflictingDuplicates + 1);
          return Rejected(ConflictingDuplicate);
        }
        counters := counters.(duplicateFragments := counters.duplicateFragments + 1);
        return Waiting;
      }
      if f.i != state.nextIndex {
        counters := counters.(outOfOrderFragments := counters.outOfOrderFragments + 1);
      }
      var chunks := state.chunks[f.i := Some(f.c)];
      var bytes := state.bytes + |f.c|;
      counters := counters.(acceptedFragments := counters.acceptedFragments + 1);
      var nextIndex := state.nextIndex;
      LeadResumes(state.chunks, f.i, f.c);
      while nextIndex < state.total && chunks[nextIndex].Some?
        invariant nextIndex <= |chunks| && LeadFrom(chunks, nextIndex) == LeadFrom(chunks, 0)
      {
        nextIndex := nextIndex + 1;
      }
      var stored := Pending(bytes, chunks, nextIndex, state.total, state.totalBytes);
      if nextIndex != state.total {
        states := states[key := stored];
        return Waiting;
      }
      states := states - {key};
      o := Finish(cfg, stored, f.s);
      if o.Complete? {
        counters := counters.(completedMessages := counters.completedMessages + 1);
      }
    }

    method Metrics() returns (c: Counters, pendingMessages: nat)
      ensures c == View().counters && pendingMessages == |View().states|
    {
      return counters, |states|;
    }

    method Clear()
      requires Valid()
      modifies this
      ensures Valid() && View() == Table(map[], old(counters))
    {
      states := map[];
    }
  }

  lemma CheckedIndex(f: Fragment, expected: Option<char>)
    requires CheckFragment(f, expected) == None
    ensures 0 <= f.i < f.n && LegalBytes(f.b) && f.n == FragmentCount(f.b)
    ensures IsAscii(f.c) && |f.c| == ChunkBytes(f.b, f.n, f.i)
  {
    AsciiBytes(f.c);
  }

  lemma SizedShape(p: Pending)
    requires Sized(p)
    ensures |p.chunks| == p.total == FragmentCount(p.totalBytes) && p.nextIndex == LeadFrom(p.chunks, 0)
  {
  }

  // ----- the invariant -----

  lemma {:induction false} NothingStored(n: nat)
    ensures StoredBytes(seq(n, _ => None)) == 0
    decreases n
  {
    if n > 0 {
      var s: seq<Option<string>> := seq(n, _ => None);
      assert s[..n - 1] == seq(n - 1, _ => None);
      NothingStored(n - 1);
    }
  }

  lemma NewIsSized(n: nat, b: nat)
    requires LegalBytes(b) && n == FragmentCount(b)
    ensures Sized(NewPending(n, b)) && NewPending(n, b).nextIndex < n
  {
    NothingStored(n);
    assert NewPending(n, b).chunks[0].None?;
  }

  lemma {:induction false} StoredUpdate(chunks: seq<Option<string>>, i: nat, c: string)
    requires i < |chunks| && chunks[i].None?
    ensures StoredBytes(chunks[i := Some(c)]) == StoredBytes(chunks) + |c|
    decreases |chunks|
  {
    var m := |chunks| - 1;
    if i < m {
      StoredUpdate(chunks[..m], i, c);
      assert chunks[i := Some(c)][..m] == chunks[..m][i := Some(c)];
    } else {
      assert chunks[i := Some(c)][..m] == chunks[..m];
    }
  }

  lemma StoreIsSized(p: Pending, i: nat, c: string)
    requires Sized(p) && i < p.total && p.chunks[i].None?
    requires |c| == ChunkBytes(p.totalBytes, p.total, i) && IsAscii(c)
    ensures Sized(Store(p, i, c))
    ensures var q := Store(p, i, c); q.total == p.total && q.totalBytes == p.totalBytes
  {
    StoredUpdate(p.chunks, i, c);
  }

  /** Counting on from any place within the complete prefix finds its end. */
  lemma {:induction false} LeadMonotone(chunks: seq<Option<string>>, k: nat, r: nat)
    requires k <= r <= |chunks| && forall j :: k <= j < r ==> chunks[j].Some?
    ensures LeadFrom(chunks, k) == LeadFrom(chunks, r)
    decreases r - k
  {
    if k < r { LeadMonotone(chunks, k + 1, r); }
  }

  /** Storing a chunk moves nextIndex on from where it was. */
  lemma LeadResumes(chunks: seq<Option<string>>, i: nat, c: string)
    requires i < |chunks|
    ensures LeadFrom(chunks[i := Some(c)], LeadFrom(chunks, 0)) == LeadFrom(chunks[i := Some(c)], 0)
  {
    LeadMonotone(chunks[i := Some(c)], 0, LeadFrom(chunks, 0));
  }

  /** A full set of well-sized chunks is exactly as long as the message said. */
  lemma {:induction false} FullSize(p: Pending, k: nat)
    requires Sized(p) && k <= p.total && forall j :: 0 <= j < k ==> p.chunks[j].Some?
    ensures StoredBytes(p.chunks[..k]) == if k == p.total then p.totalBytes else CHUNK_BYTES * k
    ensures |Join(p.chunks[..k])| == StoredBytes(p.chunks[..k]) && IsAscii(Join(p.chunks[..k]))
    decreases k
  {
    if k > 0 {
      FullSize(p, k - 1);
      assert p.chunks[..k][..k - 1] == p.chunks[..k - 1];
    }
  }

  /** The final byte count check can never fail. */
  lemma NeverMiscounted(cfg: Config, p: Pending, sequence: string)
    requires Sized(p) && p.nextIndex == p.total
    ensures Finish(cfg, p, sequence) != Rejected(ByteCountMismatch)
  {
    FullSize(p, p.total);
    assert p.chunks[..p.total] == p.chunks;
    AsciiBytes(Join(p.chunks));
  }

  lemma PutGrows(states: map<Key, Pending>, key: Key, q: Pending)
    ensures |states[key := q]| == if key in states then |states| else |states| + 1
    ensures (states - {key}).Keys == states.Keys - {key} && |states - {key}| <= |states|
  {
    assert states[key := q].Keys == states.Keys + {key};
    if key in states { assert states.Keys + {key} == states.Keys; }
    assert (states - {key}).Keys == states.Keys - {key};
    assert |states.Keys - {key}| <= |states.Keys|;
  }

  /** Storing an incomplete message where there is room, and dropping one, keep the table good. */
  lemma GoodAfter(cfg: Config, t: Table, key: Key, q: Pending)
    requires Good(cfg, t) && Sized(q) && (key in t.states || |t.states| < cfg.maxMessages)
    ensures GoodStates(cfg, t.states - {key})
    ensures q.nextIndex != q.total ==> GoodStates(cfg, t.states[key := q])
  {
    hide Sized;
    SizedShape(q);
    PutGrows(t.states, key, q);
  }

  lemma PlaceKeepsGood(cfg: Config, t: Table, n: Counters, p: Pending, a: Arrival)
    requires Good(cfg, t) && CheckFragment(a.fragment, cfg.direction) == None
    requires Sized(p) && p.total == a.fragment.n && p.totalBytes == a.fragment.b
    requires if KeyOf(a) in t.states then t.states[KeyOf(a)] == p else |t.states| < cfg.maxMessages
    ensures 0 <= a.fragment.i < |p.chunks|
    ensures Good(cfg, Place(cfg, t.states, n, KeyOf(a), p, a.fragment).0)
    ensures Place(cfg, t.states, n, KeyOf(a), p, a.fragment).1 != Rejected(ByteCountMismatch)
  {
    hide CheckFragment, Sized, Finish, Store, GoodStates;
    var f := a.fragment;
    CheckedIndex(f, cfg.direction);
    SizedShape(p);
    if p.chunks[f.i].None? {
      StoreIsSized(p, f.i, f.c);
      var q := Store(p, f.i, f.c);
      GoodAfter(cfg, t, KeyOf(a), q);
      if q.nextIndex == q.total { NeverMiscounted(cfg, q, f.s); }
    }
  }

  /** Any input at all, accepted or refused, keeps the table good, and is never refused for its final byte count. */
  lemma AcceptKeepsGood(cfg: Config, t: Table, a: Arrival)
    requires Good(cfg, t)
    ensures Good(cfg, AcceptStep(cfg, t, a).0)
    ensures AcceptStep(cfg, t, a).1 != Rejected(ByteCountMismatch)
  {
    hide Sized, Place;
    var f, n, key := a.fragment, t.counters, KeyOf(a);
    if CheckFragment(f, cfg.direction).None? {
      CheckedIndex(f, cfg.direction);
      if key in t.states {
        if t.states[key].total == f.n && t.states[key].totalBytes == f.b { PlaceKeepsGood(cfg, t, n, t.states[key], a); }
      } else if |t.states| < cfg.maxMessages {
        NewIsSized(f.n, f.b);
        PlaceKeepsGood(cfg, t, n.(maximumPendingMessages := Max(n.maximumPendingMessages, |t.states| + 1)), NewPending(f.n, f.b), a);
      }
    }
  }

  // ----- runs -----

  /** The table after the first n inputs of a run from the empty table. */
  function TableAt(cfg: Config, inputs: seq<Arrival>, n: nat): (t: Table)
    requires n <= |inputs|
    ensures Good(cfg, t)
  {
    if n == 0 then EMPTY
    else
      AcceptKeepsGood(cfg, TableAt(cfg, inputs, n - 1), inputs[n - 1]);
      AcceptStep(cfg, TableAt(cfg, inputs, n - 1), inputs[n - 1]).0
  }

  function OutcomeAt(cfg: Config, inputs: seq<Arrival>, k: nat): Outcome
    requires k < |inputs|
  {
    AcceptStep(cfg, TableAt(cfg, inputs, k), inputs[k]).1
  }

  // ----- conservation of fragments -----

  ghost function Stored(states: map<Key, Pending>): set<(Key, nat)> {
    set key, i | key in states && 0 <= i < |states[key].chunks| && states[key].chunks[i].Some? :: (key, i)
  }

  /** The fragments of the message an input brings to an end, decoded or not. */
  function Ended(a: Arrival, o: Outcome): nat {
    if o.Complete? || o == Rejected(NotJson) || o == Rejected(SequenceMismatch) then Max(0, a.fragment.n) else 0
  }

  function EndedFragments(cfg: Config, inputs: seq<Arrival>, n: nat): nat
    requires n <= |inputs|
  {
    if n == 0 then 0 else EndedFragments(cfg, inputs, n - 1) + Ended(inputs[n - 1], OutcomeAt(cfg, inputs, n - 1))
  }

  lemma {:induction false} KeyIndexes(key: Key, n: nat)
    ensures |set i: nat | i < n :: (key, i)| == n
    decreases n
  {
    var s := set i: nat | i < n :: (key, i);
    if n > 0 {
      KeyIndexes(key, n - 1);
      assert s == (set i: nat | i < n - 1 :: (key, i)) + {(key, n - 1)};
    } else {
      assert s == {};
    }
  }

  lemma StoredPut(states: map<Key, Pending>, key: Key, p: Pending, i: nat, c: string)
    requires i < |p.chunks| && p.chunks[i].None?
    requires if key in states then states[key] == p else forall j :: 0 <= j < |p.chunks| ==> p.chunks[j].None?
    ensures |Stored(states[key := Store(p, i, c)])| == |Stored(states)| + 1
  {
    hide LeadFrom;
    assert (key, i) !in Stored(states);
    assert Stored(states[key := Store(p, i, c)]) == Stored(states) + {(key, i)};
  }

  lemma StoredDrop(states: map<Key, Pending>, key: Key)
    requires key in states && forall j :: 0 <= j < |states[key].chunks| ==> states[key].chunks[j].Some?
    ensures |Stored(states)| == |Stored(states - {key})| + |states[key].chunks|
  {
    var n := |states[key].chunks|;
    var gone := set i: nat | i < n :: (key, i);
    KeyIndexes(key, n);
    assert Stored(states) == Stored(states - {key}) + gone;
    assert Stored(states - {key}) !! gone;
  }

  lemma FinishEnds(cfg: Config, p: Pending, a: Arrival)
    requires Sized(p) && p.nextIndex == p.total == a.fragment.n
    ensures Ended(a, Finish(cfg, p, a.fragment.s)) == p.total
  {
    hide Sized;
    NeverMiscounted(cfg, p, a.fragment.s);
  }

  lemma RefusalEndsNothing(f: Fragment, expected: Option<char>)
    ensures CheckFragment(f, expected) !in {Some(NotJson), Some(SequenceMismatch)}
  {
  }

  lemma PlaceConserves(cfg: Config, states: map<Key, Pending>, n: Counters, p: Pending, a: Arrival)
    requires CheckFragment(a.fragment, cfg.direction) == None
    requires Sized(p) && p.total == a.fragment.n && p.totalBytes == a.fragment.b
    requires if KeyOf(a) in states then states[KeyOf(a)] == p else forall j :: 0 <= j < |p.chunks| ==> p.chunks[j].None?
    ensures 0 <= a.fragment.i < |p.chunks|
    ensures var (u, o) := Place(cfg, states, n, KeyOf(a), p, a.fragment);
            u.counters.acceptedFragments + |Stored(states)| == n.acceptedFragments + |Stored(u.states)| + Ended(a, o)
  {
    hide CheckFragment, Sized, Store, Stored, Finish, LeadFrom;
    var f, key := a.fragment, KeyOf(a);
    CheckedIndex(f, cfg.direction);
    SizedShape(p);
    if p.chunks[f.i].None? {
      StoreIsSized(p, f.i, f.c);
      var q := Store(p, f.i, f.c);
      SizedShape(q);
      StoredPut(states, key, p, f.i, f.c);
      if q.nextIndex == q.total {
        FinishEnds(cfg, q, a);
        assert states[key := q][key] == q;
        StoredDrop(states[key := q], key);
        assert states[key := q] - {key} == states - {key};
      }
    }
  }

  /** How one input moves fragments: into the table, or out with a message that ends. */
  lemma AcceptConserves(cfg: Config, t: Table, a: Arrival)
    requires Good(cfg, t)
    ensures var (u, o) := AcceptStep(cfg, t, a);
            u.counters.acceptedFragments + |Stored(t.states)| == t.counters.acceptedFragments + |Stored(u.states)| + Ended(a, o)
  {
    hide Sized, Stored, Place, CheckFragment, FragmentCount, LegalBytes;
    var f, n, key := a.fragment, t.counters, KeyOf(a);
    RefusalEndsNothing(f, cfg.direction);
    if CheckFragment(f, cfg.direction).None? {
      CheckedIndex(f, cfg.direction);
      if key in t.states {
        if t.states[key].total == f.n && t.states[key].totalBytes == f.b { PlaceConserves(cfg, t.states, n, t.states[key], a); }
      } else {
        NewIsSized(f.n, f.b);
        PlaceConserves(cfg, t.states, n.(maximumPendingMessages := Max(n.maximumPendingMessages, |t.states| + 1)), NewPending(f.n, f.b), a);
      }
    }
  }

  lemma NothingStoredAtFirst()
    ensures |Stored(EMPTY.states)| == 0
  {
    assert Stored(EMPTY.states) == {};
  }

  /** Over any run, the accepted fragments are those of messages that ended and those still stored. */
  lemma {:induction false} Conservation(cfg: Config, inputs: seq<Arrival>, n: nat)
    requires n <= |inputs|
    ensures TableAt(cfg, inputs, n).counters.acceptedFragments
         == EndedFragments(cfg, inputs, n) + |Stored(TableAt(cfg, inputs, n).states)|
    decreases n
  {
    hide AcceptStep, Ended, Stored, Good;
    if n == 0 {
      NothingStoredAtFirst();
    } else {
      Conservation(cfg, inputs, n - 1);
      AcceptConserves(cfg, TableAt(cfg, inputs, n - 1), inputs[n - 1]);
    }
  }

  // ----- what the counters mean -----

  /** The fragment passes every check that comes before its chunk is looked at. */
  predicate Admitted(cfg: Config, t: Table, a: Arrival) {
    && CheckFragment(a.fragment, cfg.direction).None? && PeerError(a.peer).None?
    && (if KeyOf(a) in t.states then
          t.states[KeyOf(a)].total == a.fragment.n && t.states[KeyOf(a)].totalBytes == a.fragment.b
        else |t.states| < cfg.maxMessages)
  }

  /** The chunk already held at the fragment's place. */
  function Held(t: Table, a: Arrival): Option<string> {
    if KeyOf(a) in t.states && 0 <= a.fragment.i < |t.states[KeyOf(a)].chunks| then t.states[KeyOf(a)].chunks[a.fragment.i]
    else None
  }

  /** The place of the first chunk still missing. */
  function Due(t: Table, a: Arrival): nat {
    if KeyOf(a) in t.states then LeadFrom(t.states[KeyOf(a)].chunks, 0) else 0
  }

  predicate Opens(cfg: Config, t: Table, a: Arrival) {
    Admitted(cfg, t, a) && KeyOf(a) !in t.states
  }

  predicate BringsNew(cfg: Config, t: Table, a: Arrival) {
    Admitted(cfg, t, a) && Held(t, a).None?
  }

  predicate OutOfOrder(cfg: Config, t: Table, a: Arrival) {
    BringsNew(cfg, t, a) && a.fragment.i != Due(t, a)
  }

  predicate Repeats(cfg: Config, t: Table, a: Arrival) {
    Admitted(cfg, t, a) && Held(t, a) == Some(a.fragment.c)
  }

  predicate Conflicts(cfg: Config, t: Table, a: Arrival) {
    Admitted(cfg, t, a) && Held(t, a).Some? && Held(t, a).value != a.fragment.c
  }

  ghost predicate Completes(cfg: Config, t: Table, a: Arrival) {
    Good(cfg, t) && AcceptStep(cfg, t, a).1.Complete?
  }

  /** How many of the first n inputs are of a kind, at the time they arrive. */
  ghost function Tally(cfg: Config, inputs: seq<Arrival>, n: nat, kind: (Config, Table, Arrival) -> bool): nat
    requires n <= |inputs|
  {
    if n == 0 then 0
    else Tally(cfg, inputs, n - 1, kind) + if kind(cfg, TableAt(cfg, inputs, n - 1), inputs[n - 1]) then 1 else 0
  }

  function One(b: bool): nat {
    if b then 1 else 0
  }

  lemma PlaceCounts(cfg: Config, states: map<Key, Pending>, n: Counters, key: Key, p: Pending, f: Fragment)
    requires 0 <= f.i < |p.chunks|
    ensures var (u, o) := Place(cfg, states, n, key, p, f);
            var held := p.chunks[f.i];
            && u.counters == Counters(
                 n.acceptedFragments + One(held.None?),
                 n.completedMessages + One(o.Complete?),
                 n.conflictingDuplicates + One(held.Some? && held.value != f.c),
                 n.duplicateFragments + One(held == Some(f.c)),
                 n.maximumPendingMessages,
                 n.outOfOrderFragments + One(held.None? && f.i != p.nextIndex))
            && |u.states| <= |states| + One(key !in states)
  {
    hide Store, Finish;
    PutGrows(states, key, Store(p, f.i, f.c));
  }

  /** One input moves each counter by what the input is, and the peak by the messages pending once it has opened one. */
  lemma AcceptCounts(cfg: Config, t: Table, a: Arrival)
    requires Good(cfg, t)
    ensures var (u, o) := AcceptStep(cfg, t, a);
            var m := t.counters;
            && u.counters == Counters(
                 m.acceptedFragments + One(BringsNew(cfg, t, a)),
                 m.completedMessages + One(Completes(cfg, t, a)),
                 m.conflictingDuplicates + One(Conflicts(cfg, t, a)),
                 m.duplicateFragments + One(Repeats(cfg, t, a)),
                 if Opens(cfg, t, a) then Max(m.maximumPendingMessages, |t.states| + 1) else m.maximumPendingMessages,
                 m.outOfOrderFragments + One(OutOfOrder(cfg, t, a)))
            && |u.states| <= |t.states| + One(Opens(cfg, t, a))
  {
    hide Sized, Place, CheckFragment, FragmentCount, LegalBytes, LeadFrom;
    var f, n, key := a.fragment, t.counters, KeyOf(a);
    if Admitted(cfg, t, a) {
      CheckedIndex(f, cfg.direction);
      if key in t.states {
        SizedShape(t.states[key]);
        PlaceCounts(cfg, t.states, n, key, t.states[key], f);
      } else {
        NewIsSized(f.n, f.b);
        SizedShape(NewPending(f.n, f.b));
        PlaceCounts(cfg, t.states, n.(maximumPendingMessages := Max(n.maximumPendingMessages, |t.states| + 1)), key, NewPending(f.n, f.b), f);
      }
    }
  }

  /** The messages pending right after input k has opened one; 0 if it opens none. */
  function PendingOnOpening(cfg: Config, inputs: seq<Arrival>, k: nat): nat
    requires k < |inputs|
  {
    if Opens(cfg, TableAt(cfg, inputs, k), inputs[k]) then |TableAt(cfg, inputs, k).states| + 1 else 0
  }

  /** maximumPendingMessages is the maximum of these. */
  ghost predicate PeakIsTrue(cfg: Config, inputs: seq<Arrival>, n: nat)
    requires n <= |inputs|
  {
    var peak := TableAt(cfg, inputs, n).counters.maximumPendingMessages;
    && (forall k :: 0 <= k < n ==> PendingOnOpening(cfg, inputs, k) <= peak)
    && (peak == 0 || exists k :: 0 <= k < n && peak == PendingOnOpening(cfg, inputs, k))
  }

  lemma {:induction false} PeakOverRuns(cfg: Config, inputs: seq<Arrival>, n: nat)
    requires n <= |inputs|
    ensures PeakIsTrue(cfg, inputs, n)
    ensures |TableAt(cfg, inputs, n).states| <= TableAt(cfg, inputs, n).counters.maximumPendingMessages <= cfg.maxMessages
    decreases n
  {
    hide AcceptStep, Good, Admitted, BringsNew, OutOfOrder, Repeats, Conflicts, Completes;
    if n > 0 {
      PeakOverRuns(cfg, inputs, n - 1);
      var t := TableAt(cfg, inputs, n - 1);
      AcceptCounts(cfg, t, inputs[n - 1]);
      if Opens(cfg, t, inputs[n - 1]) { OpensWithRoom(cfg, t, inputs[n - 1]); }
      var peak, now := TableAt(cfg, inputs, n).counters.maximumPendingMessages, PendingOnOpening(cfg, inputs, n - 1);
      assert peak == Max(t.counters.maximumPendingMessages, now);
    }
  }

  lemma OpensWithRoom(cfg: Config, t: Table, a: Arrival)
    requires Opens(cfg, t, a)
    ensures |t.states| + 1 <= cfg.maxMessages
  {
  }

  /**
    Over any run each counter is the number of inputs it is named after: fragments that brought something new,
    those of them that were not the next one due, repeats, conflicting repeats, and messages returned; and
    maximumPendingMessages is the most that were ever pending, counted as each message opens.
  */
  lemma {:induction false} CountersAreTrue(cfg: Config, inputs: seq<Arrival>, n: nat)
    requires n <= |inputs|
    ensures var c := TableAt(cfg, inputs, n).counters;
            && c.acceptedFragments == Tally(cfg, inputs, n, BringsNew)
            && c.outOfOrderFragments == Tally(cfg, inputs, n, OutOfOrder)
            && c.duplicateFragments == Tally(cfg, inputs, n, Repeats)
            && c.conflictingDuplicates == Tally(cfg, inputs, n, Conflicts)
            && c.completedMessages == Tally(cfg, inputs, n, Completes)
            && PeakIsTrue(cfg, inputs, n)
            && |TableAt(cfg, inputs, n).states| <= c.maximumPendingMessages <= cfg.maxMessages
    decreases n
  {
    hide AcceptStep, Good, BringsNew, OutOfOrder, Repeats, Conflicts, Completes, Opens, PeakIsTrue;
    PeakOverRuns(cfg, inputs, n);
    if n > 0 {
      CountersAreTrue(cfg, inputs, n - 1);
      AcceptCounts(cfg, TableAt(cfg, inputs, n - 1), inputs[n - 1]);
    }
  }

  // ----- what accept does, for every input -----

  /** The chunks held of the fragment's message before it comes. */
  ghost function ChunksBefore(t: Table, a: Arrival): seq<Option<string>> {
    if KeyOf(a) in t.states then t.states[KeyOf(a)].chunks else seq(Max(0, a.fragment.n), _ => None)
  }

  /** Nothing but this fragment is missing of its message. */
  ghost predicate IsLastMissing(t: Table, a: Arrival) {
    forall j :: 0 <= j < |ChunksBefore(t, a)| && j != a.fragment.i ==> ChunksBefore(t, a)[j].Some?
  }

  /** A text of the announced size that holds every chunk at its place. */
  ghost predicate Spells(text: string, chunks: seq<Option<string>>, bytes: int) {
    && |text| == bytes
    && forall i :: 0 <= i < |chunks| ==>
         && chunks[i].Some? && CHUNK_BYTES * i + |chunks[i].value| <= |text|
         && text[CHUNK_BYTES * i..CHUNK_BYTES * i + |chunks[i].value|] == chunks[i].value
  }

  lemma SpellsMore(text: string, chunks: seq<Option<string>>, c: string, bytes: nat)
    requires Spells(text, chunks, bytes) && bytes == CHUNK_BYTES * |chunks|
    ensures Spells(text + c, chunks + [Some(c)], bytes + |c|)
  {
    var k := |chunks|;
    forall i | 0 <= i < k ensures (text + c)[CHUNK_BYTES * i..CHUNK_BYTES * i + |chunks[i].value|] == chunks[i].value {
      Prefix(text, c, CHUNK_BYTES * i, CHUNK_BYTES * i + |chunks[i].value|);
    }
    assert (text + c)[CHUNK_BYTES * k..CHUNK_BYTES * k + |c|] == c;
  }

  lemma Prefix(text: string, more: string, i: nat, j: nat)
    requires i <= j <= |text|
    ensures (text + more)[i..j] == text[i..j]
  {
  }

  lemma {:induction false} JoinSpells(p: Pending, k: nat)
    requires Sized(p) && k <= p.total && forall j :: 0 <= j < k ==> p.chunks[j].Some?
    ensures Spells(Join(p.chunks[..k]), p.chunks[..k], if k == p.total then p.totalBytes else CHUNK_BYTES * k)
    decreases k
  {
    hide Sized, StoredBytes, Join, Spells;
    SizedShape(p);
    if k > 0 {
      FullSize(p, k);
      JoinSpells(p, k - 1);
      JoinLast(p.chunks, k);
      SpellsMore(Join(p.chunks[..k - 1]), p.chunks[..k - 1], p.chunks[k - 1].value, CHUNK_BYTES * (k - 1));
    } else {
      NothingSpelt(p.chunks);
    }
  }

  lemma JoinLast(chunks: seq<Option<string>>, k: nat)
    requires 0 < k <= |chunks| && chunks[k - 1].Some?
    ensures chunks[..k] == chunks[..k - 1] + [Some(chunks[k - 1].value)]
    ensures Join(chunks[..k]) == Join(chunks[..k - 1]) + chunks[k - 1].value
  {
    assert chunks[..k][..k - 1] == chunks[..k - 1];
  }

  lemma NothingSpelt(chunks: seq<Option<string>>)
    ensures Spells(Join(chunks[..0]), chunks[..0], 0)
  {
  }

  lemma FullJoinSpells(p: Pending)
    requires Sized(p) && forall j :: 0 <= j < |p.chunks| ==> p.chunks[j].Some?
    ensures Spells(Join(p.chunks), p.chunks, p.totalBytes) && Bytes(Join(p.chunks)) == p.totalBytes == p.bytes
  {
    JoinSpells(p, p.total);
    FullSize(p, p.total);
    assert p.chunks[..p.total] == p.chunks;
    AsciiBytes(Join(p.chunks));
  }

  /** A message whose chunks are all there is what its text parses to, if that carries the sequence of its key. */
  ghost predicate IsDecoded(cfg: Config, text: string, f: Fragment, o: Outcome) {
    match cfg.parse(text)
    case None => o == Rejected(NotJson)
    case Some(message) =>
      if Field(message, "sequence") == Some(Str(f.s)) then
        o.Complete? && o.encodedBytes == f.b && o.fragmentCount == f.n && o.message == message
      else o == Rejected(SequenceMismatch)
  }

  lemma PlaceExactly(cfg: Config, t: Table, n: Counters, p: Pending, a: Arrival)
    requires BringsNew(cfg, t, a) && Sized(p) && p.chunks == ChunksBefore(t, a)
    requires p.total == a.fragment.n && p.totalBytes == a.fragment.b && 0 <= a.fragment.i < |p.chunks| && p.chunks[a.fragment.i].None?
    requires KeyOf(a) in t.states ==> t.states[KeyOf(a)] == p
    ensures var (u, o) := Place(cfg, t.states, n, KeyOf(a), p, a.fragment);
            var full := p.chunks[a.fragment.i := Some(a.fragment.c)];
            if IsLastMissing(t, a) then
              u.states == t.states - {KeyOf(a)}
              && exists text :: Spells(text, full, a.fragment.b) && IsDecoded(cfg, text, a.fragment, o)
            else
              o == Waiting && KeyOf(a) in u.states && u.states[KeyOf(a)].chunks == full
              && u.states[KeyOf(a)].total == a.fragment.n && u.states[KeyOf(a)].totalBytes == a.fragment.b
              && u.states == t.states[KeyOf(a) := u.states[KeyOf(a)]]
  {
    hide CheckFragment, Spells, Sized, Finish, IsDecoded, LeadFrom, Bytes;
    var f := a.fragment;
    CheckedIndex(f, cfg.direction);
    SizedShape(p);
    StoreIsSized(p, f.i, f.c);
    var q := Store(p, f.i, f.c);
    SizedShape(q);
    if IsLastMissing(t, a) {
      FullJoinSpells(q);
      FinishDecodes(cfg, q, f);
    } else {
      var j :| 0 <= j < |p.chunks| && j != f.i && p.chunks[j].None?;
      assert q.chunks[j].None?;
    }
  }

  lemma FinishDecodes(cfg: Config, q: Pending, f: Fragment)
    requires Bytes(Join(q.chunks)) == q.totalBytes == q.bytes && q.totalBytes == f.b && q.total == f.n
    ensures IsDecoded(cfg, Join(q.chunks), f, Finish(cfg, q, f.s))
  {
  }

  /**
    What accept does with any input at all. Refused before its chunk is looked at, a repeat, or a
    conflicting repeat: no message changes. A new chunk is held, or is the last one missing: then the
    message leaves the table, and what is returned is what the chunks at their places parse to.
  */
  lemma AcceptExactly(cfg: Config, t: Table, a: Arrival)
    requires Good(cfg, t)
    ensures var (u, o) := AcceptStep(cfg, t, a);
            var key, f := KeyOf(a), a.fragment;
            && (Repeats(cfg, t, a) ==> o == Waiting && u.states == t.states)
            && (Conflicts(cfg, t, a) ==> o == Rejected(ConflictingDuplicate) && u.states == t.states)
            && (BringsNew(cfg, t, a) ==>
                  && 0 <= f.i < |ChunksBefore(t, a)|
                  && var full := ChunksBefore(t, a)[f.i := Some(f.c)];
                     if IsLastMissing(t, a) then
                       u.states == t.states - {key} && exists text :: Spells(text, full, f.b) && IsDecoded(cfg, text, f, o)
                     else
                       o == Waiting && key in u.states && u.states[key].chunks == full
                       && u.states[key].total == f.n && u.states[key].totalBytes == f.b
                       && u.states == t.states[key := u.states[key]])
  {
    hide Sized, CheckFragment, LegalBytes, FragmentCount, Spells, IsDecoded;
    var f, n, key := a.fragment, t.counters, KeyOf(a);
    if Admitted(cfg, t, a) {
      CheckedIndex(f, cfg.direction);
      if key in t.states {
        SizedShape(t.states[key]);
        if BringsNew(cfg, t, a) { PlaceExactly(cfg, t, n, t.states[key], a); }
      } else {
        NewIsSized(f.n, f.b);
        SizedShape(NewPending(f.n, f.b));
        PlaceExactly(cfg, t, n.(maximumPendingMessages := Max(n.maximumPendingMessages, |t.states| + 1)), NewPending(f.n, f.b), a);
      }
    }
  }

  /** A fragment that is admitted is refused at most for what its chunk or its message is. */
  lemma AdmittedErrors(cfg: Config, t: Table, a: Arrival)
    requires Good(cfg, t)
    ensures Admitted(cfg, t, a) ==>
              AcceptStep(cfg, t, a).1 !in {Rejected(BadPeer), Rejected(TooManyPending), Rejected(MetadataChanged)}
    ensures CheckFragment(a.fragment, cfg.direction) !in {Some(BadPeer), Some(TooManyPending), Some(MetadataChanged)}
  {
    hide Sized, FragmentCount, LegalBytes, LeadFrom;
    if Admitted(cfg, t, a) { AcceptExactly(cfg, t, a); }
  }

  /** Which inputs are refused before their chunk is looked at, and for what; the table is as it was. */
  lemma RefusedExactly(cfg: Config, t: Table, a: Arrival)
    requires Good(cfg, t)
    ensures var (u, o) := AcceptStep(cfg, t, a);
            var key, f := KeyOf(a), a.fragment;
            var sound := WellFormed(f, cfg.direction) && 1 <= a.peer.port <= 65535;
            && (!Admitted(cfg, t, a) ==> o.Rejected? && u == t)
            && (!WellFormed(f, cfg.direction) <==> CheckFragment(f, cfg.direction).Some?)
            && (!WellFormed(f, cfg.direction) ==> o == Rejected(CheckFragment(f, cfg.direction).value))
            && (o == Rejected(BadPeer) <==> WellFormed(f, cfg.direction) && !(1 <= a.peer.port <= 65535))
            && (o == Rejected(TooManyPending) <==> sound && key !in t.states && |t.states| == cfg.maxMessages)
            && (o == Rejected(MetadataChanged) <==>
                  sound && key in t.states && (t.states[key].total != f.n || t.states[key].totalBytes != f.b))
  {
    hide Sized, LeadFrom, WellFormed, CheckFragment, Place;
    CheckPassesIff(a.fragment, cfg.direction);
    AdmittedErrors(cfg, t, a);
  }
}
