/**
  The peer table of a datagram server (dao/socketServer.js, lines 127-137, 302-338, 373-379 and 402-408):
  peers found through a one-entry cache, and their datagrams framed separately.
*/
module Peers {
  import opened Common
  import opened Json
  import opened Split
  import opened Framing

  datatype Address = Address(address: string, port: int)

  /** One datagram as the server sees it: its sender and its text. */
  datatype Datagram = Datagram(from: Address, text: string)

  datatype Entry = Entry(peer: Address, buffer: string)

  /** A message handed to the application, with the peer it came from. */
  datatype Dispatch = Dispatch(peer: Address, message: Json)

  datatype Table = Table(peers: seq<Entry>, dispatched: seq<Dispatch>)

  const EMPTY: Table := Table([], [])

  // ----- the table without its cache -----

  /** The plain scan: the first entry of an address, or the length of the table. */
  function Find(peers: seq<Entry>, a: Address): (r: nat)
    ensures r <= |peers|
    ensures r < |peers| ==> peers[r].peer == a
    ensures forall k :: 0 <= k < r ==> peers[k].peer != a
  {
    if peers == [] then 0 else if peers[0].peer == a then 0 else 1 + Find(peers[1..], a)
  }

  /** The buffer a read leaves behind: a protocol error empties it, and the peer stays. */
  function Left(p: Policy, d: Delimiter, text: string): string {
    match ReadOutcome(p, d, text)
    case Kept(b) => b
    case Threw(_) => ""
  }

  function Tag(a: Address, messages: seq<Json>): (r: seq<Dispatch>)
    ensures |r| == |messages|
    ensures forall k :: 0 <= k < |r| ==> r[k] == Dispatch(a, messages[k])
  {
    seq(|messages|, k requires 0 <= k < |messages| => Dispatch(a, messages[k]))
  }

  function TableStep(p: Policy, d: Delimiter, t: Table, g: Datagram): Table {
    var k := Find(t.peers, g.from);
    var peers := if k < |t.peers| then t.peers else t.peers + [Entry(g.from, "")];
    var text := peers[k].buffer + g.text;
    Table(peers[k := Entry(g.from, Left(p, d, text))], t.dispatched + Tag(g.from, ReadMessages(p, d, text)))
  }

  // ----- the server object -----

  class Peer {
    const at: Address
    var ipcBuffer: string

    constructor (at: Address)
      ensures this.at == at && ipcBuffer == ""
    {
      this.at := at;
      ipcBuffer := "";
    }
  }

  class Server {
    const policy: Policy
    const delimiter: Delimiter
    var sockets: seq<Peer>
    var lastPeer: Peer?
    var dispatched: seq<Dispatch>

    /** No two entries share an address, and the cache is empty or a table member. */
    ghost predicate Valid()
      reads this
    {
      && (forall j, k :: 0 <= j < k < |sockets| ==> sockets[j].at != sockets[k].at)
      && (lastPeer == null || lastPeer in sockets)
    }

    ghost function View(): (t: Table)
      reads this, sockets
      ensures |t.peers| == |sockets|
      ensures forall k :: 0 <= k < |sockets| ==> t.peers[k] == Entry(sockets[k].at, sockets[k].ipcBuffer)
    {
      Table(seq(|sockets|, k requires 0 <= k < |sockets| reads this, sockets => Entry(sockets[k].at, sockets[k].ipcBuffer)), dispatched)
    }

    constructor (policy: Policy, delimiter: Delimiter)
      ensures this.policy == policy && this.delimiter == delimiter
      ensures Valid() && sockets == [] && View() == EMPTY
    {
      this.policy, this.delimiter := policy, delimiter;
      sockets, lastPeer, dispatched := [], null, [];
    }

    /** peer: the cached entry when it matches, else the scan, else a new entry; always what the scan alone finds. */
    method PeerOf(from: Address) returns (peer: Peer)
      requires Valid()
      modifies this`sockets, this`lastPeer
      ensures Valid() && lastPeer == peer && peer.at == from
      ensures var k := Find(old(View()).peers, from);
              if k < |old(sockets)| then sockets == old(sockets) && peer == sockets[k]
              else sockets == old(sockets) + [peer] && fresh(peer) && peer.ipcBuffer == ""
    {
      hide Find;
      if lastPeer != null && lastPeer.at == from {
        return lastPeer;
      }
      for index := 0 to |sockets|
        invariant forall k :: 0 <= k < index ==> sockets[k].at != from
      {
        peer := sockets[index];
        if peer.at == from {
          lastPeer := peer;
          return;
        }
      }
      peer := new Peer(from);
      sockets := sockets + [peer];
      lastPeer := peer;
    }

    /** receiveDatagram through receiveFramed: the peer's buffer and the text, framed by the policy's reader. */
    method ReceiveDatagram(g: Datagram)
      requires Valid()
      modifies this, sockets
      ensures Valid() && View() == TableStep(policy, delimiter, old(View()), g)
    {
      hide Left, ReadMessages, ReadOutcome, Find;
      ghost var before := View();
      var peer := PeerOf(g.from);
      ghost var k := Find(before.peers, g.from);
      assert sockets[k] == peer && peer.ipcBuffer == if k < |before.peers| then before.peers[k].buffer else "";
      var delivered, outcome := Read(policy, delimiter, peer.ipcBuffer, g.text);
      ghost var text := peer.ipcBuffer + g.text;
      LeftOf(policy, delimiter, text);
      peer.ipcBuffer := if outcome.Kept? then outcome.buffer else "";
      dispatched := dispatched + Tag(g.from, delivered);
      assert View().peers == TableStep(policy, delimiter, before, g).peers;
    }

    /** removeSocket: a listed socket that is no longer readable is taken out, and out of the cache. */
    method RemoveSocket(socket: Peer, readable: bool)
      requires Valid()
      modifies this`sockets, this`lastPeer
      ensures Valid()
      ensures readable || socket !in old(sockets) ==> sockets == old(sockets) && lastPeer == old(lastPeer)
      ensures !readable && socket in old(sockets) ==>
                var k := Find(old(View()).peers, socket.at);
                && k < |old(sockets)| && old(sockets)[k] == socket
                && sockets == old(sockets)[..k] + old(sockets)[k + 1..]
                && lastPeer == (if old(lastPeer) == socket then null else old(lastPeer))
                && Find(View().peers, socket.at) == |sockets|
    {
      hide Find;
      if socket !in sockets || readable { return; }
      var index := 0;
      while sockets[index] != socket
        invariant index < |sockets| && forall k :: 0 <= k < index ==> sockets[k] != socket
        decreases |sockets| - index
      {
        index := index + 1;
      }
      sockets := sockets[..index] + sockets[index + 1..];
      if lastPeer == socket {
        lastPeer := null;
      }
    }

    /** stop, for datagram peers: the table and the cache are emptied together. */
    method Stop()
      modifies this
      ensures Valid() && sockets == [] && lastPeer == null && dispatched == old(dispatched)
    {
      sockets := [];
      lastPeer := null;
    }
  }

  /** The reader the profile selects. */
  method Read(p: Policy, d: Delimiter, buffer: string, data: string) returns (delivered: seq<Json>, outcome: Outcome)
    ensures delivered == ReadMessages(p, d, buffer + data) && outcome == ReadOutcome(p, d, buffer + data)
  {
    hide ReadMessages, ReadOutcome;
    match p {
      case Fast(parse) => delivered, outcome := ReadFast(parse, d, buffer, data);
      case Guarded(parse, limits) => delivered, outcome := ReadGuarded(parse, limits, d, buffer, data);
    }
  }

  lemma LeftOf(p: Policy, d: Delimiter, text: string)
    ensures Left(p, d, text) == match ReadOutcome(p, d, text) { case Kept(b) => b case Threw(_) => "" }
  {
  }

  // ----- demultiplexing -----

  function Run(p: Policy, d: Delimiter, gs: seq<Datagram>): Table
    decreases |gs|
  {
    if gs == [] then EMPTY else TableStep(p, d, Run(p, d, gs[..|gs| - 1]), gs[|gs| - 1])
  }

  /** The texts of one peer's datagrams, in order. */
  function TextsFrom(a: Address, gs: seq<Datagram>): seq<string>
    decreases |gs|
  {
    if gs == [] then []
    else
      var before := TextsFrom(a, gs[..|gs| - 1]);
      if gs[|gs| - 1].from == a then before + [gs[|gs| - 1].text] else before
  }

  function MessagesOf(a: Address, ds: seq<Dispatch>): seq<Json>
    decreases |ds|
  {
    if ds == [] then []
    else
      var before := MessagesOf(a, ds[..|ds| - 1]);
      if ds[|ds| - 1].peer == a then before + [ds[|ds| - 1].message] else before
  }

  /** What framing one peer's datagrams alone delivers and leaves. */
  datatype Alone = Alone(delivered: seq<Json>, buffer: string)

  function FrameAlone(p: Policy, d: Delimiter, texts: seq<string>): Alone
    decreases |texts|
  {
    if texts == [] then Alone([], "")
    else
      var before := FrameAlone(p, d, texts[..|texts| - 1]);
      var text := before.buffer + texts[|texts| - 1];
      Alone(before.delivered + ReadMessages(p, d, text), Left(p, d, text))
  }

  ghost predicate DistinctPeers(peers: seq<Entry>) {
    forall j, k :: 0 <= j < k < |peers| ==> peers[j].peer != peers[k].peer
  }

  lemma {:induction false} MessagesAppend(a: Address, ds: seq<Dispatch>, from: Address, messages: seq<Json>)
    ensures MessagesOf(a, ds + Tag(from, messages)) == MessagesOf(a, ds) + if from == a then messages else []
    decreases |messages|
  {
    if messages == [] {
      assert ds + Tag(from, messages) == ds;
      assert MessagesOf(a, ds) + [] == MessagesOf(a, ds);
    } else {
      var n := |messages| - 1;
      var all := ds + Tag(from, messages);
      assert all[..|all| - 1] == ds + Tag(from, messages[..n]);
      MessagesAppend(a, ds, from, messages[..n]);
      assert messages == messages[..n] + [messages[n]];
    }
  }

  lemma FindUnique(peers: seq<Entry>, a: Address, m: nat)
    requires DistinctPeers(peers) && m < |peers| && peers[m].peer == a
    ensures Find(peers, a) == m
  {
    var r := Find(peers, a);
    assert r < |peers| && peers[r].peer == a;
  }

  /** The entry of one peer after a datagram. */
  lemma StepEntry(p: Policy, d: Delimiter, t: Table, g: Datagram, a: Address)
    requires DistinctPeers(t.peers)
    ensures var u := TableStep(p, d, t, g);
            var j, k := Find(t.peers, a), Find(u.peers, a);
            var before := if j < |t.peers| then t.peers[j].buffer else "";
            && DistinctPeers(u.peers)
            && (k < |u.peers| <==> j < |t.peers| || g.from == a)
            && (k < |u.peers| ==> u.peers[k].buffer == if g.from == a then Left(p, d, before + g.text) else before)
  {
    hide Left, ReadMessages, Find;
    var i := Find(t.peers, g.from);
    var u := TableStep(p, d, t, g);
    assert forall m :: 0 <= m < |t.peers| && m != i ==> u.peers[m] == t.peers[m];
    var j, k := Find(t.peers, a), Find(u.peers, a);
    if g.from == a {
      FindUnique(u.peers, a, i);
    } else if j < |t.peers| {
      FindUnique(u.peers, a, j);
    }
  }

  /**
    However the datagrams of all peers interleave, each peer's dispatched messages and its buffer are
    those of framing its own datagrams alone; a peer has an entry exactly when it has sent something,
    and only one.
  */
  lemma {:induction false} Demultiplexing(p: Policy, d: Delimiter, gs: seq<Datagram>, a: Address)
    ensures var t, alone := Run(p, d, gs), FrameAlone(p, d, TextsFrom(a, gs));
            var k := Find(t.peers, a);
            && DistinctPeers(t.peers)
            && MessagesOf(a, t.dispatched) == alone.delivered
            && (k < |t.peers| <==> TextsFrom(a, gs) != [])
            && (k < |t.peers| ==> t.peers[k].buffer == alone.buffer)
    decreases |gs|
  {
    hide Left, ReadMessages, Find, FrameAlone, MessagesOf, TableStep, DistinctPeers;
    NothingYet(p, d, a);
    if gs != [] {
      var before, g := gs[..|gs| - 1], gs[|gs| - 1];
      Demultiplexing(p, d, before, a);
      var t := Run(p, d, before);
      StepEntry(p, d, t, g, a);
      StepDispatch(p, d, t, g, a);
      if g.from == a { OneMoreText(p, d, TextsFrom(a, before), g.text); }
    }
  }

  lemma NothingYet(p: Policy, d: Delimiter, a: Address)
    ensures DistinctPeers(EMPTY.peers) && Find(EMPTY.peers, a) == 0 && MessagesOf(a, EMPTY.dispatched) == FrameAlone(p, d, []).delivered
    ensures FrameAlone(p, d, []) == Alone([], "")
  {
  }

  lemma StepDispatch(p: Policy, d: Delimiter, t: Table, g: Datagram, a: Address)
    ensures var i := Find(t.peers, g.from);
            var text := (if i < |t.peers| then t.peers[i].buffer else "") + g.text;
            MessagesOf(a, TableStep(p, d, t, g).dispatched)
            == MessagesOf(a, t.dispatched) + if g.from == a then ReadMessages(p, d, text) else []
  {
    hide Left, ReadMessages, Find, MessagesOf;
    var i := Find(t.peers, g.from);
    var text := (if i < |t.peers| then t.peers[i].buffer else "") + g.text;
    MessagesAppend(a, t.dispatched, g.from, ReadMessages(p, d, text));
  }

  lemma OneMoreText(p: Policy, d: Delimiter, texts: seq<string>, text: string)
    ensures var before := FrameAlone(p, d, texts);
            FrameAlone(p, d, texts + [text])
            == Alone(before.delivered + ReadMessages(p, d, before.buffer + text), Left(p, d, before.buffer + text))
  {
    hide Left, ReadMessages;
    assert (texts + [text])[..|texts|] == texts;
  }

  lemma {:induction false} FeedLast(p: Policy, d: Delimiter, c: Conn, texts: seq<string>)
    requires texts != []
    ensures Feed(p, d, c, texts) == Receive(p, d, Feed(p, d, c, texts[..|texts| - 1]), texts[|texts| - 1])
    decreases |texts|
  {
    hide Receive;
    var n := |texts| - 1;
    if n == 0 {
      assert texts[1..] == [];
    } else {
      FeedLast(p, d, Receive(p, d, c, texts[0]), texts[1..]);
      assert texts[1..][..n - 1] == texts[..n][1..];
    }
  }

  /** What datagram j of a peer hands on, and whether its read is refused. */
  function Handed(p: Policy, d: Delimiter, texts: seq<string>, j: nat): seq<Json>
    requires j < |texts|
  {
    ReadMessages(p, d, FrameAlone(p, d, texts[..j]).buffer + texts[j])
  }

  predicate Refused(p: Policy, d: Delimiter, texts: seq<string>, j: nat)
    requires j < |texts|
  {
    ReadOutcome(p, d, FrameAlone(p, d, texts[..j]).buffer + texts[j]).Threw?
  }

  ghost predicate NoneRefused(p: Policy, d: Delimiter, texts: seq<string>) {
    forall i :: 0 <= i < |texts| ==> !Refused(p, d, texts, i)
  }

  /** No datagram after a refused one hands anything on. */
  ghost predicate QuietAfterError(p: Policy, d: Delimiter, texts: seq<string>) {
    forall i, j :: 0 <= i < j < |texts| && Refused(p, d, texts, i) ==> Handed(p, d, texts, j) == []
  }

  lemma LastDatagram(p: Policy, d: Delimiter, texts: seq<string>)
    requires texts != []
    ensures var n := |texts| - 1;
            && (NoneRefused(p, d, texts) <==> NoneRefused(p, d, texts[..n]) && !Refused(p, d, texts, n))
            && (QuietAfterError(p, d, texts) <==>
                QuietAfterError(p, d, texts[..n]) && (NoneRefused(p, d, texts[..n]) || Handed(p, d, texts, n) == []))
  {
    hide ReadMessages, ReadOutcome, FrameAlone;
    var n := |texts| - 1;
    forall i | 0 <= i < n
      ensures Refused(p, d, texts, i) == Refused(p, d, texts[..n], i) && Handed(p, d, texts, i) == Handed(p, d, texts[..n], i)
    {
      assert texts[..i] == texts[..n][..i];
    }
  }

  /**
    A peer's datagrams deliver what a stream connection fed the same texts delivers if and only if no
    datagram after a refused one delivers anything: the stream is closed there, the peer goes on.
  */
  lemma {:induction false} AloneIsAStream(p: Policy, d: Delimiter, texts: seq<string>)
    ensures var c, alone := Feed(p, d, FRESH, texts), FrameAlone(p, d, texts);
            && (c.Open? <==> NoneRefused(p, d, texts))
            && (c.Open? ==> alone == Alone(c.delivered, c.buffer))
            && c.delivered <= alone.delivered
            && (c.delivered == alone.delivered <==> QuietAfterError(p, d, texts))
    decreases |texts|
  {
    hide ReadMessages, ReadOutcome, Feed, NoneRefused, QuietAfterError;
    if texts == [] {
      FeedNothing(p, d, FRESH);
      NothingRefused(p, d);
    } else {
      var n := |texts| - 1;
      FeedLast(p, d, FRESH, texts);
      LastDatagram(p, d, texts);
      AloneIsAStream(p, d, texts[..n]);
      assert FrameAlone(p, d, texts).delivered == FrameAlone(p, d, texts[..n]).delivered + Handed(p, d, texts, n);
      if Feed(p, d, FRESH, texts[..n]).Open? { QuietSoFar(p, d, texts[..n]); }
    }
  }

  lemma NothingRefused(p: Policy, d: Delimiter)
    ensures NoneRefused(p, d, []) && QuietAfterError(p, d, [])
  {
  }

  lemma QuietSoFar(p: Policy, d: Delimiter, texts: seq<string>)
    requires NoneRefused(p, d, texts)
    ensures QuietAfterError(p, d, texts)
  {
    hide Refused, Handed;
  }

  lemma FeedNothing(p: Policy, d: Delimiter, c: Conn)
    ensures Feed(p, d, c, []) == c
  {
  }

  /** After a protocol error a peer is not closed: its next datagram is framed as a first one. */
  lemma ErrorForgets(p: Policy, d: Delimiter, texts: seq<string>, next: string)
    requires texts != [] && ReadOutcome(p, d, FrameAlone(p, d, texts[..|texts| - 1]).buffer + texts[|texts| - 1]).Threw?
    ensures FrameAlone(p, d, texts + [next]) ==
            Alone(FrameAlone(p, d, texts).delivered + FrameAlone(p, d, [next]).delivered, FrameAlone(p, d, [next]).buffer)
  {
    hide ReadMessages, ReadOutcome;
    assert (texts + [next])[..|texts|] == texts;
    assert [next][..0] == [];
    assert "" + next == next;
    assert [] + ReadMessages(p, d, next) == ReadMessages(p, d, next);
  }
}
