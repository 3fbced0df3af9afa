/**
  The datagram client end to end (benchmark/competitors/adapters/native-dgram.js, lines 139-180, with
  benchmark/competitors/lib/inbox.js): the echoes' fragments arrive in any order and with any repeats, each
  message the reassembler completes goes into the inbox, and `windowed` takes its responses from there.
*/
module Accounting {
  import opened Common
  import opened Json
  import opened Protocol
  import R = Reassembler
  import D = Delivery
  import W = Window

  // ----- what the inbox receives -----

  /** The messages an arrival run completes, in order: what the inbox hands to `windowed`. */
  function Replies(cfg: R.Config, sent: map<R.Key, Json>, plan: seq<D.Hop>, n: nat): seq<Json>
    requires D.AllSent(sent, plan) && n <= |plan|
  {
    if n == 0 then []
    else
      var o := D.Returned(cfg, sent, plan, n - 1);
      Replies(cfg, sent, plan, n - 1) + if o.Complete? then [o.message] else []
  }

  /** The keys of the messages completed, in order, from the plain account of the run. */
  ghost function Completions(room: nat, sent: map<R.Key, Json>, plan: seq<D.Hop>, n: nat): seq<R.Key>
    requires D.AllSent(sent, plan) && n <= |plan|
  {
    if n == 0 then []
    else Completions(room, sent, plan, n - 1) + if D.FinishesAt(room, sent, plan, n - 1) then [plan[n - 1].key] else []
  }

  lemma NextReply(cfg: R.Config, sent: map<R.Key, Json>, plan: seq<D.Hop>, n: nat)
    requires D.AllGenuine(cfg, sent) && D.AllSent(sent, plan) && n < |plan|
    ensures var k, finishes := plan[n].key, D.FinishesAt(cfg.maxMessages, sent, plan, n);
            && k in sent
            && Replies(cfg, sent, plan, n + 1) == Replies(cfg, sent, plan, n) + (if finishes then [sent[k]] else [])
            && Completions(cfg.maxMessages, sent, plan, n + 1)
               == Completions(cfg.maxMessages, sent, plan, n) + (if finishes then [k] else [])
  {
    hide D.Returned, D.NoRoom, D.AllSeen, D.HeldAt, D.Genuine, Stringify, D.Pieces;
    D.EveryArrival(cfg, sent, plan, n);
  }

  lemma {:induction false} RepliesAreCompletions(cfg: R.Config, sent: map<R.Key, Json>, plan: seq<D.Hop>, n: nat)
    requires D.AllGenuine(cfg, sent) && D.AllSent(sent, plan) && n <= |plan|
    ensures var replies, done := Replies(cfg, sent, plan, n), Completions(cfg.maxMessages, sent, plan, n);
            && |replies| == |done|
            && forall i :: 0 <= i < |done| ==> done[i] in sent && replies[i] == sent[done[i]]
    decreases n
  {
    hide Replies, Completions, D.AllGenuine, D.AllSent, D.FinishesAt;
    if n == 0 {
      NoReplies(cfg, sent, plan);
    } else {
      NextReply(cfg, sent, plan, n - 1);
      RepliesAreCompletions(cfg, sent, plan, n - 1);
    }
  }

  lemma NoReplies(cfg: R.Config, sent: map<R.Key, Json>, plan: seq<D.Hop>)
    requires D.AllSent(sent, plan)
    ensures Replies(cfg, sent, plan, 0) == [] && Completions(cfg.maxMessages, sent, plan, 0) == []
  {
  }

  lemma NoDeliveries(cfg: R.Config, sent: map<R.Key, Json>, plan: seq<D.Hop>, k: R.Key)
    requires D.AllSent(sent, plan)
    ensures D.Deliveries(cfg, sent, plan, k, 0) == {} && Completions(cfg.maxMessages, sent, plan, 0) == []
  {
  }

  lemma OneMore<T>(s: seq<T>, x: T, y: T)
    ensures multiset(s + [x])[y] == multiset(s)[y] + (if x == y then 1 else 0)
    ensures s + [] == s
  {
  }

  lemma {:induction false} CompletionsCount(cfg: R.Config, sent: map<R.Key, Json>, plan: seq<D.Hop>, k: R.Key, n: nat)
    requires D.AllGenuine(cfg, sent) && D.AllSent(sent, plan) && n <= |plan|
    ensures |D.Deliveries(cfg, sent, plan, k, n)| == multiset(Completions(cfg.maxMessages, sent, plan, n))[k]
    decreases n
  {
    hide Completions, Replies, D.AllGenuine, D.AllSent, D.FinishesAt, D.Deliveries, D.DeliveredAt;
    if n == 0 {
      NoDeliveries(cfg, sent, plan, k);
    } else {
      var before := Completions(cfg.maxMessages, sent, plan, n - 1);
      OneMore(before, plan[n - 1].key, k);
      NextReply(cfg, sent, plan, n - 1);
      CompletionsCount(cfg, sent, plan, k, n - 1);
      D.DeliveriesStep(cfg, sent, plan, k, n - 1);
      D.DeliveredIff(cfg, sent, plan, k, n - 1);
    }
  }

  // ----- echoes -----

  function EchoKey(peer: R.Peer, start: nat, s: nat): R.Key {
    R.Key(peer, 'r', Hex8(start + s))
  }

  /** What is sent back is the echo of each of the requests, from one peer. */
  ghost predicate AreEchoes(sent: map<R.Key, Json>, peer: R.Peer, bytes: nat, frames: nat, start: nat)
    requires bytes >= ENVELOPE_BYTES
  {
    && (forall s: nat :: s < frames ==> EchoKey(peer, start, s) in sent)
    && (forall k :: k in sent ==> IsEcho(sent, peer, bytes, frames, start, k))
  }

  ghost predicate IsEcho(sent: map<R.Key, Json>, peer: R.Peer, bytes: nat, frames: nat, start: nat, k: R.Key)
    requires bytes >= ENVELOPE_BYTES && k in sent
  {
    exists s: nat :: s < frames && k == EchoKey(peer, start, s) && sent[k] == BenchMessage(bytes, Hex8(start + s))
  }

  /** The request a key's sequence text names. */
  function Number(start: nat, k: R.Key): nat {
    if HexRead(k.sequence) >= start then HexRead(k.sequence) - start else 0
  }

  lemma EchoNumber(sent: map<R.Key, Json>, peer: R.Peer, bytes: nat, frames: nat, start: nat, k: R.Key)
    requires bytes >= ENVELOPE_BYTES && W.InRange(start, frames)
    requires k in sent && IsEcho(sent, peer, bytes, frames, start, k)
    ensures Number(start, k) < frames && k == EchoKey(peer, start, Number(start, k))
    ensures sent[k] == BenchMessage(bytes, Hex8(start + Number(start, k)))
    ensures forall t: nat :: t < frames ==> (W.EchoesAt(sent[k], bytes, start, t) <==> t == Number(start, k))
  {
    hide Hex8, HexRead, BenchMessage, W.Verify;
    var s: nat :| s < frames && k == EchoKey(peer, start, s) && sent[k] == BenchMessage(bytes, Hex8(start + s));
    SequenceRoundTrip(start + s);
    forall t: nat | t < frames ensures W.EchoesAt(sent[k], bytes, start, t) <==> t == s {
      W.OwnEcho(bytes, start + s, start + t);
    }
  }

  /** The first `frames` completions are of different messages, and each comes after its request was sent. */
  ghost predicate AnswersInTime(done: seq<R.Key>, start: nat, frames: nat, window: nat) {
    && frames <= |done| && Distinct(done[..frames])
    && forall k :: 0 <= k < frames ==> Number(start, done[k]) < window + k
  }

  /** Each reply is the echo of the request its key names, and of no other. */
  ghost predicate RepliesEcho(replies: seq<Json>, done: seq<R.Key>, peer: R.Peer, bytes: nat, frames: nat, start: nat)
    requires bytes >= ENVELOPE_BYTES
  {
    && |replies| == |done|
    && (forall i :: 0 <= i < |done| ==> Number(start, done[i]) < frames && done[i] == EchoKey(peer, start, Number(start, done[i])))
    && (forall i, t: nat :: 0 <= i < |done| && t < frames ==>
          (W.EchoesAt(replies[i], bytes, start, t) <==> t == Number(start, done[i])))
  }

  lemma RepliesAreEchoes(cfg: R.Config, sent: map<R.Key, Json>, plan: seq<D.Hop>, peer: R.Peer, bytes: nat, frames: nat, start: nat)
    requires D.AllGenuine(cfg, sent) && D.AllSent(sent, plan)
    requires bytes >= ENVELOPE_BYTES && W.InRange(start, frames) && AreEchoes(sent, peer, bytes, frames, start)
    ensures RepliesEcho(Replies(cfg, sent, plan, |plan|), Completions(cfg.maxMessages, sent, plan, |plan|), peer, bytes, frames, start)
  {
    hide Replies, Completions, EchoKey, Number, W.EchoesAt, IsEcho, D.Genuine, BenchMessage;
    var done := Completions(cfg.maxMessages, sent, plan, |plan|);
    RepliesAreCompletions(cfg, sent, plan, |plan|);
    forall i | 0 <= i < |done| ensures IsEcho(sent, peer, bytes, frames, start, done[i]) {
    }
    forall i | 0 <= i < |done|
      ensures Number(start, done[i]) < frames && done[i] == EchoKey(peer, start, Number(start, done[i]))
    {
      EchoNumber(sent, peer, bytes, frames, start, done[i]);
    }
    forall i, t: nat | 0 <= i < |done| && t < frames
      ensures W.EchoesAt(Replies(cfg, sent, plan, |plan|)[i], bytes, start, t) <==> t == Number(start, done[i])
    {
      EchoNumber(sent, peer, bytes, frames, start, done[i]);
    }
  }

  lemma TimelyIsAnswered(replies: seq<Json>, done: seq<R.Key>, peer: R.Peer, bytes: nat, frames: nat, start: nat, window: nat)
    requires bytes >= ENVELOPE_BYTES && RepliesEcho(replies, done, peer, bytes, frames, start)
    requires AnswersInTime(done, start, frames, window)
    ensures W.AnswersAll(replies, bytes, frames, start, window)
  {
    hide Number, W.EchoesAt, EchoKey;
    var order: seq<nat> := seq(frames, i requires 0 <= i < frames => Number(start, done[i]));
    forall j, k | 0 <= j < k < frames ensures order[j] != order[k] {
      assert done[..frames][j] != done[..frames][k];
    }
    assert W.Answers(order, replies, bytes, frames, start, window);
  }

  lemma AnsweredIsTimely(replies: seq<Json>, done: seq<R.Key>, peer: R.Peer, bytes: nat, frames: nat, start: nat, window: nat)
    requires bytes >= ENVELOPE_BYTES && RepliesEcho(replies, done, peer, bytes, frames, start)
    requires W.AnswersAll(replies, bytes, frames, start, window)
    ensures AnswersInTime(done, start, frames, window)
  {
    hide Number, W.EchoesAt, EchoKey;
    var order: seq<nat> :| |order| == frames && W.Answers(order, replies, bytes, frames, start, window);
    forall k | 0 <= k < frames ensures order[k] == Number(start, done[k]) < window + k {
      assert W.EchoesAt(replies[k], bytes, start, order[k]);
    }
    forall j, k | 0 <= j < k < frames ensures done[..frames][j] != done[..frames][k] {
      assert order[j] != order[k];
    }
  }

  /**
    `windowed`, fed by the reassembler: it returns normally if and only if the first `frames` completions are of
    different messages, each after its request was sent. A message that completes a second time before that is
    not counted as another round trip: it ends the run.
  */
  lemma WindowedOverDatagrams(cfg: R.Config, sent: map<R.Key, Json>, plan: seq<D.Hop>,
                              peer: R.Peer, bytes: nat, frames: nat, start: nat, window: nat, o: W.Outcome, received: nat)
    requires D.AllGenuine(cfg, sent) && D.AllSent(sent, plan)
    requires bytes >= ENVELOPE_BYTES && frames >= 1 && W.InRange(start, frames) && AreEchoes(sent, peer, bytes, frames, start)
    requires W.EndsAs(o, received, bytes, frames, start, true, Replies(cfg, sent, plan, |plan|), window)
    ensures o.Finished? <==> AnswersInTime(Completions(cfg.maxMessages, sent, plan, |plan|), start, frames, window)
  {
    hide AnswersInTime, AreEchoes, W.AnswersAll, D.Genuine, RepliesEcho, Replies, Completions;
    var replies, done := Replies(cfg, sent, plan, |plan|), Completions(cfg.maxMessages, sent, plan, |plan|);
    RepliesAreEchoes(cfg, sent, plan, peer, bytes, frames, start);
    if AnswersInTime(done, start, frames, window) { TimelyIsAnswered(replies, done, peer, bytes, frames, start, window); }
    if W.AnswersAll(replies, bytes, frames, start, window) { AnsweredIsTimely(replies, done, peer, bytes, frames, start, window); }
  }

  // ----- what is left when it has returned -----

  /** Each of these messages is known by its request's number. */
  ghost predicate Numbered(sent: map<R.Key, Json>, peer: R.Peer, frames: nat, start: nat) {
    forall k :: k in sent ==> Number(start, k) < frames && k == EchoKey(peer, start, Number(start, k))
  }

  lemma EchoesAreNumbered(sent: map<R.Key, Json>, peer: R.Peer, bytes: nat, frames: nat, start: nat)
    requires bytes >= ENVELOPE_BYTES && W.InRange(start, frames) && AreEchoes(sent, peer, bytes, frames, start)
    ensures Numbered(sent, peer, frames, start)
  {
    hide EchoKey, Number, BenchMessage, W.EchoesAt, IsEcho;
    forall k | k in sent ensures Number(start, k) < frames && k == EchoKey(peer, start, Number(start, k)) {
      EchoNumber(sent, peer, bytes, frames, start, k);
    }
  }

  /** As many different things as there are numbers for them are all of them. */
  lemma AllNumbers<T>(all: set<T>, done: seq<T>, number: T -> nat, at: nat -> T, n: nat)
    requires forall x :: x in all ==> number(x) < n && at(number(x)) == x
    requires |done| == n && Distinct(done) && forall i :: 0 <= i < n ==> done[i] in all
    ensures forall x :: x in all ==> x in done
  {
    hide Distinct;
    var had := set x | x in done;
    DistinctSize(done);
    ImageSize(had, number);
    W.BelowSize(n);
    FullSubset(Image(had, number), W.Below(n));
    forall x | x in all ensures x in done {
      assert number(x) in Image(had, number);
      var y :| y in had && number(y) == number(x);
      assert y in all && at(number(y)) == y;
    }
  }

  lemma {:induction false} DistinctSize<T>(s: seq<T>)
    requires Distinct(s)
    ensures |set x | x in s| == |s|
    decreases |s|
  {
    if s != [] {
      var n := |s| - 1;
      DistinctSize(s[..n]);
      assert s == s[..n] + [s[n]] && s[n] !in s[..n];
      assert (set x | x in s) == (set x | x in s[..n]) + {s[n]};
    }
  }

  lemma FullSubset<T>(a: set<T>, b: set<T>)
    requires a <= b && |a| == |b|
    ensures a == b
  {
    assert |b - a| == |b| - |a|;
  }

  /**
    When `windowed` has returned, every echo has completed. The run was then exactly once, with nothing left, if
    and only if nothing is pending, which closing the client checks, and no response is left unread in the inbox.
  */
  lemma FinishedIsExactlyOnceIff(cfg: R.Config, sent: map<R.Key, Json>, plan: seq<D.Hop>,
                                 peer: R.Peer, bytes: nat, frames: nat, start: nat, window: nat)
    requires D.AllGenuine(cfg, sent) && D.AllSent(sent, plan)
    requires bytes >= ENVELOPE_BYTES && W.InRange(start, frames) && AreEchoes(sent, peer, bytes, frames, start)
    requires AnswersInTime(Completions(cfg.maxMessages, sent, plan, |plan|), start, frames, window)
    ensures forall k :: k in sent ==> k in Completions(cfg.maxMessages, sent, plan, |plan|)[..frames]
    ensures D.ExactlyOnce(cfg, sent, plan) <==>
            D.TableAfter(cfg, sent, plan, |plan|).states == map[] && |Replies(cfg, sent, plan, |plan|)| == frames
  {
    hide Replies, Completions, D.TableAfter, D.Deliveries, AreEchoes, D.Genuine, Number, EchoKey;
    var done := Completions(cfg.maxMessages, sent, plan, |plan|);
    RepliesAreCompletions(cfg, sent, plan, |plan|);
    EchoesAreNumbered(sent, peer, bytes, frames, start);
    AllNumbers(sent.Keys, done[..frames], k => Number(start, k), s => EchoKey(peer, start, s), frames);
    forall k ensures |D.Deliveries(cfg, sent, plan, k, |plan|)| == multiset(done)[k] {
      CompletionsCount(cfg, sent, plan, k, |plan|);
    }
    if |done| == frames {
      assert done[..frames] == done;
      forall k | k in sent ensures multiset(done)[k] == 1 { OnceEach(done, k); }
    } else {
      assert done == done[..frames] + done[frames..];
      var k := done[frames];
      assert multiset(done)[k] == multiset(done[..frames])[k] + multiset(done[frames..])[k];
      assert done[frames..][0] == k && k in multiset(done[frames..]) && k in multiset(done[..frames]);
    }
  }

  lemma OnceEach<T>(s: seq<T>, x: T)
    requires Distinct(s) && x in s
    ensures multiset(s)[x] == 1
  {
    var i :| 0 <= i < |s| && s[i] == x;
    var before, behind := s[..i], s[i + 1..];
    assert s == before + [x] + behind;
    assert x !in before && x !in behind;
    assert x !in multiset(before) && x !in multiset(behind);
  }

  /** A late fragment of a message of two fragments completes nothing: `windowed` does not see it, closing does. */
  lemma LateFragmentStays(cfg: R.Config, k: R.Key, m: Json)
    requires D.Genuine(cfg, k, m) && |D.Pieces(k, m)| == 2 && cfg.maxMessages >= 1
    ensures var sent, plan := map[k := m], [D.Hop(k, 0), D.Hop(k, 1), D.Hop(k, 0)];
            && D.AllSent(sent, plan)
            && Replies(cfg, sent, plan, 3) == [m] && D.TableAfter(cfg, sent, plan, 3).states.Keys == {k}
  {
    hide D.Genuine, D.AllSent, D.TableAfter, D.Mirrors, D.HeldAt, D.FinishesAt, D.KeysOf, Replies, Completions;
    var sent, plan := map[k := m], [D.Hop(k, 0), D.Hop(k, 1), D.Hop(k, 0)];
    LateAccount(cfg.maxMessages, k, m);
    NextReply(cfg, sent, plan, 0);
    NextReply(cfg, sent, plan, 1);
    NextReply(cfg, sent, plan, 2);
    NoReplies(cfg, sent, plan);
    D.TableMirrors(cfg, sent, plan, 3);
    D.OpenSize(sent, {D.Hop(k, 0)}, D.TableAfter(cfg, sent, plan, 3).states);
    OneKey(k);
  }

  /** What is held after each of the three arrivals, and that only the second completes the message. */
  lemma LateAccount(room: nat, k: R.Key, m: Json)
    requires |D.Pieces(k, m)| == 2 && room >= 1
    ensures var sent, plan := map[k := m], [D.Hop(k, 0), D.Hop(k, 1), D.Hop(k, 0)];
            && D.AllSent(sent, plan)
            && D.HeldAt(room, sent, plan, 3) == {D.Hop(k, 0)}
            && !D.FinishesAt(room, sent, plan, 0) && D.FinishesAt(room, sent, plan, 1) && !D.FinishesAt(room, sent, plan, 2)
  {
    hide D.Pieces, D.AllSeen, D.KeysOf, D.Touched, D.NoRoom;
    var sent, plan := map[k := m], [D.Hop(k, 0), D.Hop(k, 1), D.Hop(k, 0)];
    TwoPieces(k, m);
    RoomAtFirst(room, k);
    assert {D.Hop(k, 0)} + {D.Hop(k, 1)} == {D.Hop(k, 0), D.Hop(k, 1)};
    assert D.Without(k, {D.Hop(k, 0)}) == {} && {} + {D.Hop(k, 0)} == {D.Hop(k, 0)};
    assert D.HeldAt(room, sent, plan, 0) == {};
    assert D.HeldAt(room, sent, plan, 1) == {D.Hop(k, 0)};
    assert D.HeldAt(room, sent, plan, 2) == {};
  }

  lemma TwoPieces(k: R.Key, m: Json)
    requires |D.Pieces(k, m)| == 2
    ensures !D.AllSeen(k, m, {} + {D.Hop(k, 0)}) && D.AllSeen(k, m, {D.Hop(k, 0), D.Hop(k, 1)})
  {
    hide D.Pieces;
    var first := {} + {D.Hop(k, 0)};
    assert D.Hop(k, 1) !in first;
  }

  lemma RoomAtFirst(room: nat, k: R.Key)
    requires room >= 1
    ensures !D.NoRoom(room, {}, D.Hop(k, 0)) && !D.NoRoom(room, {D.Hop(k, 0)}, D.Hop(k, 1))
  {
    assert D.Hop(k, 0) in {D.Hop(k, 0)};
    assert D.KeysOf({}) == {};
  }

  lemma OneKey(k: R.Key)
    ensures D.KeysOf({D.Hop(k, 0)}) == {k}
  {
  }

  // ----- messages of one fragment -----

  function KeysIn(plan: seq<D.Hop>): (r: seq<R.Key>)
    ensures |r| == |plan| && forall i :: 0 <= i < |r| ==> r[i] == plan[i].key
  {
    seq(|plan|, i requires 0 <= i < |plan| => plan[i].key)
  }

  ghost predicate OnePieceEach(sent: map<R.Key, Json>) {
    forall k :: k in sent ==> |D.Pieces(k, sent[k])| == 1
  }

  /** When every message has one fragment, every arrival completes its message, repeats too. */
  lemma {:induction false} EveryArrivalCompletes(room: nat, sent: map<R.Key, Json>, plan: seq<D.Hop>, n: nat)
    requires D.AllSent(sent, plan) && n <= |plan| && room >= 1 && OnePieceEach(sent)
    ensures D.HeldAt(room, sent, plan, n) == {} && Completions(room, sent, plan, n) == KeysIn(plan[..n])
    decreases n
  {
    hide D.Pieces, D.AllSeen, D.Touched, D.KeysOf;
    if n > 0 {
      var h := plan[n - 1];
      EveryArrivalCompletes(room, sent, plan, n - 1);
      OnlyPiece(sent, h);
      NoneHeld(room, h);
      assert plan[..n] == plan[..n - 1] + [h];
      assert KeysIn(plan[..n]) == KeysIn(plan[..n - 1]) + [h.key];
      assert D.Without(h.key, {}) == {};
    }
  }

  lemma OnlyPiece(sent: map<R.Key, Json>, h: D.Hop)
    requires D.Sent(sent, h) && OnePieceEach(sent)
    ensures D.AllSeen(h.key, sent[h.key], {} + {h})
  {
    hide D.Pieces;
    assert h == D.Hop(h.key, 0);
    D.OnePiece(h.key, sent[h.key], {});
  }

  lemma NoneHeld(room: nat, h: D.Hop)
    requires room >= 1
    ensures !D.NoRoom(room, {}, h)
  {
    assert D.KeysOf({}) == {};
  }

  /** Two 64-byte requests: each echo once ends well, and the first echo twice ends the run. */
  lemma TwoSmallEchoes(cfg: R.Config, peer: R.Peer, start: nat, window: nat)
    requires R.PeerError(peer).None? && cfg.direction in {None, Some('r')} && cfg.maxMessages >= 1
    requires start + 1 <= MAX_SEQUENCE && window >= 2
    requires forall n :: start <= n <= start + 1 ==> cfg.parse(Stringify(BenchMessage(64, Hex8(n)))) == Some(BenchMessage(64, Hex8(n)))
    ensures var a, b := EchoKey(peer, start, 0), EchoKey(peer, start, 1);
            var sent := map[a := BenchMessage(64, Hex8(start)), b := BenchMessage(64, Hex8(start + 1))];
            var well, again := [D.Hop(a, 0), D.Hop(b, 0)], [D.Hop(a, 0), D.Hop(a, 0), D.Hop(b, 0)];
            && D.AllGenuine(cfg, sent) && AreEchoes(sent, peer, 64, 2, start) && D.AllSent(sent, well) && D.AllSent(sent, again)
            && AnswersInTime(Completions(cfg.maxMessages, sent, well, 2), start, 2, window)
            && !AnswersInTime(Completions(cfg.maxMessages, sent, again, 3), start, 2, window)
  {
    hide Hex8, HexRead, BenchMessage, Stringify, D.Genuine, D.Pieces, Completions, D.HeldAt, D.FinishesAt;
    var a, b := EchoKey(peer, start, 0), EchoKey(peer, start, 1);
    var sent := map[a := BenchMessage(64, Hex8(start)), b := BenchMessage(64, Hex8(start + 1))];
    var well, again := [D.Hop(a, 0), D.Hop(b, 0)], [D.Hop(a, 0), D.Hop(a, 0), D.Hop(b, 0)];
    SequenceRoundTrip(start);
    SequenceRoundTrip(start + 1);
    assert start + 0 == start && a.sequence != b.sequence;
    D.BenchIsGenuine(cfg, peer, 'r', 64, start);
    D.BenchIsGenuine(cfg, peer, 'r', 64, start + 1);
    D.SmallIsOnePiece('r', peer, start);
    D.SmallIsOnePiece('r', peer, start + 1);
    assert IsEcho(sent, peer, 64, 2, start, a) && IsEcho(sent, peer, 64, 2, start, b);
    EveryArrivalCompletes(cfg.maxMessages, sent, well, 2);
    EveryArrivalCompletes(cfg.maxMessages, sent, again, 3);
    assert well[..2] == well && again[..3] == again;
    assert KeysIn(well)[..2] == [a, b] && KeysIn(again)[..2] == [a, a];
    assert KeysIn(again)[..2][0] == KeysIn(again)[..2][1];
  }
}
