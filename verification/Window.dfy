/** The windowed request/response protocol (benchmark/competitors/worker.js, lines 140-227). */
module Window {
  import opened Common
  import opened Json
  import opened Protocol
  import opened Fragments

  // ----- checking one response -----

  datatype VerifyError = NotAnObject | WrongSequence | PayloadNotString | WrongBytes | PayloadChanged

  /** verifyMessage: the error thrown, if any. */
  function Verify(message: Json, bytes: nat, sequence: nat): Option<VerifyError>
    requires bytes >= ENVELOPE_BYTES
  {
    var payload := Field(message, "payload");
    if !(message.Obj? || message.Arr?) then Some(NotAnObject)
    else if Field(message, "sequence") != Some(Str(Hex8(sequence))) then Some(WrongSequence)
    else if !(payload.Some? && payload.value.Str?) then Some(PayloadNotString)
    else if Bytes(Stringify(message)) != bytes then Some(WrongBytes)
    else if payload.value.s != Xs(bytes - ENVELOPE_BYTES) then Some(PayloadChanged)
    else None
  }

  /** A correct response: the number's text, the whole payload of x's, and exactly `bytes` bytes when printed. */
  ghost predicate Echoes(message: Json, bytes: nat, sequence: nat)
    requires bytes >= ENVELOPE_BYTES
  {
    && Field(message, "sequence") == Some(Str(Hex8(sequence)))
    && (exists xs :: Field(message, "payload") == Some(Str(xs)) && |xs| == bytes - ENVELOPE_BYTES && forall i :: 0 <= i < |xs| ==> xs[i] == 'x')
    && Bytes(Stringify(message)) == bytes
  }

  /** verifyMessage passes exactly the correct responses. */
  lemma VerifyIff(message: Json, bytes: nat, sequence: nat)
    requires bytes >= ENVELOPE_BYTES
    ensures Verify(message, bytes, sequence) == None <==> Echoes(message, bytes, sequence)
  {
    hide Hex8, Stringify, Bytes, Field;
    var payload := Field(message, "payload");
    if payload.Some? && payload.value.Str? {
      OnlyXs(payload.value.s, bytes - ENVELOPE_BYTES);
    }
    NoFields(message, "sequence");
  }

  lemma OnlyXs(s: string, n: nat)
    ensures s == Xs(n) <==> |s| == n && forall i :: 0 <= i < |s| ==> s[i] == 'x'
  {
  }

  lemma NoFields(message: Json, name: string)
    ensures Field(message, name).Some? ==> message.Obj?
  {
  }

  /** Which response is refused for what, the first reason that applies. */
  lemma VerifyReasons(message: Json, bytes: nat, sequence: nat)
    requires bytes >= ENVELOPE_BYTES
    ensures var r := Verify(message, bytes, sequence);
            var numbered := Field(message, "sequence") == Some(Str(Hex8(sequence)));
            var texted := exists s :: Field(message, "payload") == Some(Str(s));
            && (r == Some(NotAnObject) <==> !message.Obj? && !message.Arr?)
            && (r == Some(WrongSequence) <==> (message.Obj? || message.Arr?) && !numbered)
            && (r == Some(PayloadNotString) <==> numbered && !texted)
            && (r == Some(WrongBytes) <==> numbered && texted && Bytes(Stringify(message)) != bytes)
            && (r == Some(PayloadChanged) <==>
                numbered && texted && Bytes(Stringify(message)) == bytes && !Echoes(message, bytes, sequence))
  {
    hide Hex8, Stringify, Bytes, Field, Echoes;
    VerifyIff(message, bytes, sequence);
    NoFields(message, "sequence");
    var payload := Field(message, "payload");
    if payload.Some? && payload.value.Str? { assert payload == Some(Str(payload.value.s)); }
  }

  ghost predicate EchoesAt(message: Json, bytes: nat, start: nat, s: nat)
    requires bytes >= ENVELOPE_BYTES
  {
    Echoes(message, bytes, start + s)
  }

  /** The factory's own message is a correct response to itself, and to no other sequence number. */
  lemma OwnEcho(bytes: nat, sent: nat, expected: nat)
    requires bytes >= ENVELOPE_BYTES && sent <= MAX_SEQUENCE && expected <= MAX_SEQUENCE
    ensures Echoes(BenchMessage(bytes, Hex8(sent)), bytes, expected) <==> sent == expected
  {
    hide Hex8, Stringify, Bytes;
    SequenceRoundTrip(sent);
    SequenceRoundTrip(expected);
    MessageSize(bytes, Hex8(sent));
    var fields := BenchMessage(bytes, Hex8(sent)).fields;
    assert fields[..1] == [Member("payload", Str(Xs(bytes - ENVELOPE_BYTES)))];
    assert Field(BenchMessage(bytes, Hex8(sent)), "payload") == LastField(fields[..1], "payload");
  }

  lemma EchoIsUnique(message: Json, bytes: nat, a: nat, b: nat)
    requires bytes >= ENVELOPE_BYTES && a <= MAX_SEQUENCE && b <= MAX_SEQUENCE
    requires Echoes(message, bytes, a) && Field(message, "sequence") == Some(Str(Hex8(b)))
    ensures a == b
  {
    hide Hex8;
    SequenceRoundTrip(a);
    SequenceRoundTrip(b);
  }

  // ----- the window -----

  /** effectiveWindowForTransport: the UDP transports shrink the window to 64 outstanding datagrams. */
  function EffectiveWindow(udp: bool, bytes: nat, frames: nat, windowMessages: int, windowBytes: int): Result<nat, UdpError>
    requires bytes >= 1
  {
    var window := Max(1, Min(frames, Min(windowMessages, windowBytes / bytes)));
    if udp then LogicalWindow(bytes, window) else Ok(window)
  }

  /** What a window of w messages takes: no more than are to be sent, than allowed, than fit; for UDP, 64 datagrams. */
  ghost predicate Affords(udp: bool, bytes: nat, frames: nat, windowMessages: int, windowBytes: int, w: nat) {
    w <= frames && w <= windowMessages && w * bytes <= windowBytes
    && (udp && LegalBytes(bytes) ==> w * FragmentCount(bytes) <= DATAGRAM_WINDOW)
  }

  /** The window is the largest that can be afforded, and 1 when none can; UDP refuses sizes that are not legal. */
  lemma WindowIsAll(udp: bool, bytes: nat, frames: nat, windowMessages: int, windowBytes: int, v: nat)
    requires bytes >= 1 && frames <= MAX_SAFE
    ensures var w := EffectiveWindow(udp, bytes, frames, windowMessages, windowBytes);
            && (w.Ok? <==> !udp || LegalBytes(bytes))
            && (w.Ok? ==> w.value >= 1)
            && (w.Ok? && (w.value > 1 || Affords(udp, bytes, frames, windowMessages, windowBytes, 1)) ==>
                  Affords(udp, bytes, frames, windowMessages, windowBytes, w.value))
            && (w.Ok? && v > w.value ==> !Affords(udp, bytes, frames, windowMessages, windowBytes, v))
  {
    hide FragmentCount;
    var q := windowBytes / bytes;
    var window := Max(1, Min(frames, Min(windowMessages, q)));
    BytesAfforded(windowBytes, bytes, v);
    BytesAfforded(windowBytes, bytes, window);
    BytesAfforded(windowBytes, bytes, 1);
    if udp && LegalBytes(bytes) {
      WindowIsLargest(bytes, window);
      var w := LogicalWindow(bytes, window).value;
      BytesAfforded(windowBytes, bytes, w);
      if v > w && v <= window { MulLe(w + 1, v, FragmentCount(bytes)); }
    }
  }

  lemma BytesAfforded(total: int, bytes: nat, w: nat)
    requires bytes >= 1
    ensures w * bytes <= total <==> w <= total / bytes
  {
    var q := total / bytes;
    assert q * bytes <= total < q * bytes + bytes;
    if w <= q { Product(w, q, bytes); } else { Product(q + 1, w, bytes); }
  }

  lemma Product(a: int, b: int, k: nat)
    requires a <= b
    ensures a * k <= b * k
    ensures (a + 1) * k == a * k + k
  {
  }

  /** At every legal size the window's requests are at most 64 datagrams, and at most the 256 a reassembler holds. */
  lemma OutstandingDatagrams(bytes: nat, frames: nat, windowMessages: int, windowBytes: int, pending: nat)
    requires LegalBytes(bytes) && frames <= MAX_SAFE
    ensures var w := EffectiveWindow(true, bytes, frames, windowMessages, windowBytes);
            && w.Ok? && 1 <= w.value <= Max(1, frames)
            && (pending <= w.value ==> pending * FragmentCount(bytes) <= DATAGRAM_WINDOW && pending <= 256)
  {
    var window := Max(1, Min(frames, Min(windowMessages, windowBytes / bytes)));
    WindowIsLargest(bytes, window);
    var w := LogicalWindow(bytes, window).value;
    if pending <= w {
      MulLe(pending, w, FragmentCount(bytes));
      MulLe(1, FragmentCount(bytes), pending);
    }
  }

  datatype Reason = NoWindow(cause: UdpError) | BadSequenceNumber | Duplicate | Unexpected | BadResponse(error: VerifyError) | Accounting

  datatype Outcome =
    | Finished(maximumInFlight: nat, received: nat, sent: nat, window: nat)
    | Failed(reason: Reason)
    | Blocked  // waiting for a response that never comes

  /** Every request of the run has a sequence number. */
  predicate InRange(start: int, frames: nat) {
    0 <= start && start + frames - 1 <= MAX_SEQUENCE
  }

  /** order[k] says which request response k answers: each once, each sent before, each echoed. */
  ghost predicate Answers(order: seq<nat>, responses: seq<Json>, bytes: nat, frames: nat, start: nat, window: nat)
    requires bytes >= ENVELOPE_BYTES
  {
    && |order| <= |responses|
    && (forall j, k :: 0 <= j < k < |order| ==> order[j] != order[k])
    && (forall k :: 0 <= k < |order| ==> order[k] < Min(frames, window + k))
    && (forall k :: 0 <= k < |order| ==> EchoesAt(responses[k], bytes, start, order[k]))
  }

  /** The responses answer all requests, in some order. */
  ghost predicate AnswersAll(responses: seq<Json>, bytes: nat, frames: nat, start: nat, window: nat)
    requires bytes >= ENVELOPE_BYTES
  {
    exists order: seq<nat> :: |order| == frames && Answers(order, responses, bytes, frames, start, window)
  }

  ghost predicate AnswersInOrder(responses: seq<Json>, bytes: nat, frames: nat, start: nat)
    requires bytes >= ENVELOPE_BYTES
  {
    frames <= |responses| && forall k :: 0 <= k < frames ==> EchoesAt(responses[k], bytes, start, k)
  }

  /** Requests sent and not yet answered. */
  ghost function Open(sent: nat, order: seq<nat>): set<nat> {
    set s: nat | s < sent && s !in order
  }

  /** The texts of a set of requests. */
  ghost function Texts(start: nat, requests: set<nat>): set<string> {
    set s | s in requests :: Hex8(start + s)
  }

  ghost predicate Numbered(start: nat, requests: set<nat>) {
    forall s :: s in requests ==> start + s <= MAX_SEQUENCE
  }

  lemma TextsAre(start: nat, requests: set<nat>, s: nat)
    requires Numbered(start, requests) && start + s <= MAX_SEQUENCE
    ensures Hex8(start + s) in Texts(start, requests) <==> s in requests
    ensures HexRead(Hex8(start + s)) == start + s
  {
    hide Hex8;
    SequenceRoundTrip(start + s);
    if Hex8(start + s) in Texts(start, requests) {
      var u :| u in requests && Hex8(start + s) == Hex8(start + u);
      SequenceRoundTrip(start + u);
    }
  }

  lemma TextsSize(start: nat, requests: set<nat>)
    requires Numbered(start, requests)
    ensures |Texts(start, requests)| == |requests|
  {
    hide Hex8;
    var text := (s: nat) => Hex8(start + s);
    forall a, b | a in requests && b in requests && text(a) == text(b) ensures a == b {
      TextsAre(start, requests, a);
      TextsAre(start, requests, b);
    }
    ImageSize(requests, text);
    assert Texts(start, requests) == Image(requests, text);
  }

  lemma TextsAdd(start: nat, requests: set<nat>, s: nat)
    ensures Texts(start, requests + {s}) == Texts(start, requests) + {Hex8(start + s)}
  {
    hide Hex8;
  }

  lemma TextsRemove(start: nat, requests: set<nat>, s: nat)
    requires Numbered(start, requests) && s in requests
    ensures Texts(start, requests - {s}) == Texts(start, requests) - {Hex8(start + s)}
  {
    hide Hex8;
    var rest := requests - {s};
    assert rest + {s} == requests;
    TextsAdd(start, rest, s);
    TextsAre(start, rest, s);
  }

  /** The pending map holds exactly the open requests under their texts; the completed set the answered ones. */
  ghost predicate Books(pending: map<string, nat>, completed: set<string>, start: nat, sent: nat, order: seq<nat>) {
    && (sent > 0 ==> start + sent - 1 <= MAX_SEQUENCE)
    && (forall k :: 0 <= k < |order| ==> order[k] < sent)
    && (forall j, k :: 0 <= j < k < |order| ==> order[j] != order[k])
    && pending.Keys == Texts(start, Open(sent, order))
    && (forall t :: t in pending ==> pending[t] == HexRead(t))
    && completed == Texts(start, Answered(order))
  }

  ghost function Below(n: nat): set<nat> {
    if n == 0 then {} else Below(n - 1) + {n - 1}
  }

  lemma {:induction false} BelowSize(n: nat)
    ensures |Below(n)| == n && forall s: nat :: s in Below(n) <==> s < n
    decreases n
  {
    if n > 0 { BelowSize(n - 1); }
  }

  /** Requests sent are either open or answered. */
  lemma OpenSize(sent: nat, order: seq<nat>)
    requires (forall k :: 0 <= k < |order| ==> order[k] < sent) && forall j, k :: 0 <= j < k < |order| ==> order[j] != order[k]
    ensures |Open(sent, order)| == sent - |order| && |Answered(order)| == |order|
  {
    BelowSize(sent);
    BelowSize(|order|);
    var at := (k: nat) => if k < |order| then order[k] else 0;
    forall j, k | j in Below(|order|) && k in Below(|order|) && at(j) == at(k) ensures j == k {
    }
    ImageSize(Below(|order|), at);
    forall s | s in Answered(order) ensures s in Image(Below(|order|), at) {
      var k: nat :| k < |order| && order[k] == s;
      assert k in Below(|order|) && at(k) == s;
    }
    assert Answered(order) == Image(Below(|order|), at);
    assert Below(sent) == Open(sent, order) + Answered(order);
  }

  ghost function Answered(order: seq<nat>): set<nat> {
    set s | s in order
  }

  lemma BooksSize(pending: map<string, nat>, completed: set<string>, start: nat, sent: nat, order: seq<nat>)
    requires Books(pending, completed, start, sent, order)
    ensures |pending| == sent - |order| && |completed| == |order|
  {
    hide Hex8, Texts;
    OpenSize(sent, order);
    TextsSize(start, Open(sent, order));
    TextsSize(start, Answered(order));
    assert |pending| == |pending.Keys|;
  }

  lemma BooksSend(pending: map<string, nat>, completed: set<string>, start: nat, sent: nat, order: seq<nat>)
    requires Books(pending, completed, start, sent, order) && start + sent <= MAX_SEQUENCE
    ensures Books(pending[Hex8(start + sent) := start + sent], completed, start, sent + 1, order)
  {
    hide Hex8, Texts;
    assert Open(sent + 1, order) == Open(sent, order) + {sent};
    TextsAdd(start, Open(sent, order), sent);
    TextsAre(start, {}, sent);
  }

  lemma BooksReceive(pending: map<string, nat>, completed: set<string>, start: nat, sent: nat, order: seq<nat>, s: nat)
    requires Books(pending, completed, start, sent, order) && s in Open(sent, order)
    ensures Books(pending - {Hex8(start + s)}, completed + {Hex8(start + s)}, start, sent, order + [s])
  {
    hide Hex8, Texts;
    assert Open(sent, order + [s]) == Open(sent, order) - {s};
    assert Answered(order + [s]) == Answered(order) + {s};
    TextsRemove(start, Open(sent, order), s);
    TextsAdd(start, Answered(order), s);
    assert (pending - {Hex8(start + s)}).Keys == pending.Keys - {Hex8(start + s)};
  }

  /** Any answering order agrees with the one found so far. */
  lemma {:induction false} OrderIsForced(order: seq<nat>, other: seq<nat>, responses: seq<Json>, bytes: nat, frames: nat, start: nat, window: nat, r: nat)
    requires bytes >= ENVELOPE_BYTES && InRange(start, frames)
    requires Answers(order, responses, bytes, frames, start, window) && Answers(other, responses, bytes, frames, start, window)
    requires r == |order| <= |other|
    ensures order == other[..r]
  {
    hide Hex8, Stringify, Bytes, Xs;
    forall k | 0 <= k < r ensures order[k] == other[k] {
      assert EchoesAt(responses[k], bytes, start, order[k]) && EchoesAt(responses[k], bytes, start, other[k]);
      EchoIsUnique(responses[k], bytes, start + order[k], start + other[k]);
    }
  }

  /** A response that answers nothing open ends every hope of an answering order. */
  lemma NoOrderLeft(order: seq<nat>, responses: seq<Json>, bytes: nat, frames: nat, start: nat, window: nat)
    requires bytes >= ENVELOPE_BYTES && InRange(start, frames) && |order| < frames
    requires Answers(order, responses, bytes, frames, start, window)
    requires |order| < |responses| ==>
               forall s :: s in Open(Min(frames, |order| + window), order) ==> !EchoesAt(responses[|order|], bytes, start, s)
    ensures !AnswersAll(responses, bytes, frames, start, window)
  {
    forall other: seq<nat> | |other| == frames && Answers(other, responses, bytes, frames, start, window) ensures false {
      OtherOrderFails(order, other, responses, bytes, frames, start, window);
    }
  }

  lemma OtherOrderFails(order: seq<nat>, other: seq<nat>, responses: seq<Json>, bytes: nat, frames: nat, start: nat, window: nat)
    requires bytes >= ENVELOPE_BYTES && InRange(start, frames) && |order| < frames == |other|
    requires Answers(order, responses, bytes, frames, start, window) && Answers(other, responses, bytes, frames, start, window)
    ensures |order| < |responses| && exists s :: s in Open(Min(frames, |order| + window), order) && EchoesAt(responses[|order|], bytes, start, s)
  {
    hide EchoesAt;
    var r := |order|;
    OrderIsForced(order, other, responses, bytes, frames, start, window, r);
    forall k | 0 <= k < r ensures order[k] != other[r] {
      assert other[..r][k] == other[k] != other[r];
    }
    assert other[r] in Open(Min(frames, r + window), order) && EchoesAt(responses[r], bytes, start, other[r]);
  }

  /** The open request a response's sequence text names. */
  lemma NamedRequest(pending: map<string, nat>, completed: set<string>, start: nat, sent: nat, order: seq<nat>, text: string) returns (s: nat)
    requires Books(pending, completed, start, sent, order) && text in pending
    ensures s in Open(sent, order) && text == Hex8(start + s) && pending[text] == start + s
  {
    hide Hex8;
    s :| s in Open(sent, order) && text == Hex8(start + s);
    TextsAre(start, Open(sent, order), s);
  }

  lemma OpenIsPending(pending: map<string, nat>, completed: set<string>, start: nat, sent: nat, order: seq<nat>, s: nat)
    requires Books(pending, completed, start, sent, order) && s in Open(sent, order)
    ensures Hex8(start + s) in pending && pending[Hex8(start + s)] == start + s <= MAX_SEQUENCE
  {
    hide Hex8;
    TextsAre(start, Open(sent, order), s);
  }

  /** Only the named request can be echoed, so a refused response answers nothing open. */
  lemma OnlyNamedRequest(message: Json, bytes: nat, pending: map<string, nat>, completed: set<string>, start: nat, sent: nat, order: seq<nat>)
    requires bytes >= ENVELOPE_BYTES && Books(pending, completed, start, sent, order)
    ensures forall s :: s in Open(sent, order) && EchoesAt(message, bytes, start, s) ==>
              Field(message, "sequence") == Some(Str(Hex8(start + s))) && Hex8(start + s) in pending && pending[Hex8(start + s)] == start + s
  {
    hide Hex8, Stringify, Bytes, Xs, Books, Field;
    forall s | s in Open(sent, order)
      ensures Hex8(start + s) in pending && pending[Hex8(start + s)] == start + s
      ensures EchoesAt(message, bytes, start, s) ==> Field(message, "sequence") == Some(Str(Hex8(start + s)))
    {
      OpenIsPending(pending, completed, start, sent, order, s);
    }
  }

  lemma NoBooks(start: nat)
    ensures Books(map[], {}, start, 0, [])
  {
  }

  function SequenceText(message: Json): Option<string> {
    match Field(message, "sequence")
    case Some(Str(s)) => Some(s)
    case _ => None
  }

  /** One message says what another does: the same number and payload, in as many bytes. */
  ghost predicate SameContent(a: Json, b: Json) {
    && Field(a, "sequence").Some? && Field(a, "sequence") == Field(b, "sequence")
    && Field(a, "payload").Some? && Field(a, "payload") == Field(b, "payload")
    && Bytes(Stringify(a)) == Bytes(Stringify(b))
  }

  ghost predicate Pairs(order: seq<nat>, responses: seq<Json>, requests: seq<Json>) {
    && |order| == |requests| <= |responses|
    && (forall j, k :: 0 <= j < k < |order| ==> order[j] != order[k])
    && (forall k :: 0 <= k < |order| ==> order[k] < |requests| && SameContent(responses[k], requests[order[k]]))
  }

  /** The responses are the requests' contents, each request's once: permuted, or in sending order. */
  ghost predicate Matched(orderIndependent: bool, responses: seq<Json>, requests: seq<Json>) {
    exists order :: Pairs(order, responses, requests) && (orderIndependent || forall k :: 0 <= k < |order| ==> order[k] == k)
  }

  lemma EchoIsRequest(message: Json, bytes: nat, n: nat)
    requires bytes >= ENVELOPE_BYTES && n <= MAX_SEQUENCE && Echoes(message, bytes, n)
    ensures SameContent(message, BenchMessage(bytes, Hex8(n)))
  {
    hide Hex8, Stringify, Bytes;
    var xs :| Field(message, "payload") == Some(Str(xs)) && |xs| == bytes - ENVELOPE_BYTES && forall i :: 0 <= i < |xs| ==> xs[i] == 'x';
    OnlyXs(xs, bytes - ENVELOPE_BYTES);
    SequenceRoundTrip(n);
    MessageSize(bytes, Hex8(n));
    RequestFields(bytes, n);
  }

  lemma RequestFields(bytes: nat, n: nat)
    requires bytes >= ENVELOPE_BYTES
    ensures Field(BenchMessage(bytes, Hex8(n)), "payload") == Some(Str(Xs(bytes - ENVELOPE_BYTES)))
    ensures Field(BenchMessage(bytes, Hex8(n)), "sequence") == Some(Str(Hex8(n)))
  {
    hide Hex8;
    var fields := BenchMessage(bytes, Hex8(n)).fields;
    assert fields[..1] == [Member("payload", Str(Xs(bytes - ENVELOPE_BYTES)))];
    assert Field(BenchMessage(bytes, Hex8(n)), "payload") == LastField(fields[..1], "payload");
  }

  lemma AnswersMatch(order: seq<nat>, responses: seq<Json>, requests: seq<Json>, bytes: nat, frames: nat, start: nat, window: nat)
    requires bytes >= ENVELOPE_BYTES && |order| == frames && Answers(order, responses, bytes, frames, start, window)
    requires |requests| == frames ==> RequestsFrom(requests, bytes, start)
    ensures |requests| == frames ==> Pairs(order, responses, requests)
    ensures |requests| == frames && (forall k :: 0 <= k < frames ==> order[k] == k) ==> Matched(false, responses, requests)
    ensures |requests| == frames ==> Matched(true, responses, requests)
  {
    hide Hex8, BenchMessage, Echoes, SameContent;
    if |requests| == frames {
      forall k | 0 <= k < frames ensures SameContent(responses[k], requests[order[k]]) {
        var i := order[k];
        assert EchoesAt(responses[k], bytes, start, i) && requests[i] == BenchMessage(bytes, Hex8(start + i));
        EchoIsRequest(responses[k], bytes, start + i);
      }
      assert Pairs(order, responses, requests);
    }
  }

  /** How a run may end, given its window. */
  ghost predicate EndsAs(o: Outcome, received: nat, bytes: nat, frames: nat, start: int, orderIndependent: bool, responses: seq<Json>, window: nat)
    requires bytes >= ENVELOPE_BYTES
  {
    && (o.Finished? <==> frames >= 1 && InRange(start, frames) && RequestsAnswered(bytes, frames, start, orderIndependent, responses, window))
    && (o.Finished? ==> o == Finished(window, frames, frames, window))
    && (o == Failed(Accounting) <==> frames == 0 && 0 <= start <= MAX_SEQUENCE)
    && (o == Blocked ==> received == |responses| < frames)
  }

  ghost predicate RequestsAnswered(bytes: nat, frames: nat, start: int, orderIndependent: bool, responses: seq<Json>, window: nat)
    requires bytes >= ENVELOPE_BYTES && start >= 0
  {
    if orderIndependent then AnswersAll(responses, bytes, frames, start, window)
    else AnswersInOrder(responses, bytes, frames, start)
  }

  /** Requests are sent as far as the window goes beyond what was received, and no further than their numbers do. */
  ghost predicate SentAs(o: Outcome, requests: seq<Json>, received: nat, bytes: nat, frames: nat, start: int, window: nat)
    requires bytes >= ENVELOPE_BYTES
  {
    && RequestsFrom(requests, bytes, start)
    && if o == Failed(BadSequenceNumber) then
         |requests| < Max(window, Min(frames, received + window)) && !(0 <= start + |requests| <= MAX_SEQUENCE)
       else |requests| == Max(window, Min(frames, received + window))
  }

  lemma SentSoFar(o: Outcome, requests: seq<Json>, received: nat, bytes: nat, frames: nat, start: int, window: nat)
    requires bytes >= ENVELOPE_BYTES && RequestsFrom(requests, bytes, start)
    requires if o == Failed(BadSequenceNumber) then
               |requests| < Max(window, Min(frames, received + window)) && !(0 <= start + |requests| <= MAX_SEQUENCE)
             else |requests| == Max(window, Min(frames, received + window))
    ensures SentAs(o, requests, received, bytes, frames, start, window)
  {
  }

  /** Requests are the factory's messages for consecutive sequence numbers. */
  ghost predicate RequestsFrom(requests: seq<Json>, bytes: nat, start: int)
    requires bytes >= ENVELOPE_BYTES
  {
    forall k :: 0 <= k < |requests| ==> 0 <= start + k <= MAX_SEQUENCE && requests[k] == BenchMessage(bytes, Hex8(start + k))
  }

  /** sendNext: a request with the next sequence number, unless that number does not fit. */
  method SendNext(bytes: nat, start: int, sent: nat, pending: map<string, nat>, requests: seq<Json>, maximumInFlight: nat,
                  ghost completed: set<string>, ghost order: seq<nat>)
    returns (ok: bool, sent': nat, pending': map<string, nat>, requests': seq<Json>, maximumInFlight': nat)
    requires bytes >= ENVELOPE_BYTES && |requests| == sent && RequestsFrom(requests, bytes, start)
    requires start >= 0 ==> Books(pending, completed, start, sent, order)
    requires start >= 0 || sent == 0
    ensures ok <==> 0 <= start + sent <= MAX_SEQUENCE && start >= 0
    ensures !ok ==> (sent', pending', requests', maximumInFlight') == (sent, pending, requests, maximumInFlight)
    ensures ok ==> sent' == |requests'| == sent + 1 && RequestsFrom(requests', bytes, start)
    ensures ok ==> Books(pending', completed, start, sent', order) && maximumInFlight' == Max(maximumInFlight, sent' - |order|)
  {
    hide Hex8, Books, BenchMessage;
    sent', pending', requests', maximumInFlight' := sent, pending, requests, maximumInFlight;
    var sequence := start + sent;
    var text := SequenceValue(sequence);
    ok := text.Some?;
    if ok {
      BooksSend(pending, completed, start, sent, order);
      pending' := pending[text.value := sequence];
      requests' := requests + [BenchMessage(bytes, text.value)];
      sent' := sent + 1;
      BooksSize(pending', completed, start, sent', order);
      maximumInFlight' := Max(maximumInFlight, |pending'|);
    }
  }

  /** The first loop: requests are sent until the window is full. */
  method FillWindow(bytes: nat, start: int, window: nat)
    returns (ok: bool, sent: nat, pending: map<string, nat>, requests: seq<Json>)
    requires bytes >= ENVELOPE_BYTES && window >= 1
    ensures ok <==> InRange(start, window)
    ensures !ok ==> sent < window && !(0 <= start + sent <= MAX_SEQUENCE)
    ensures sent == |requests| <= window && RequestsFrom(requests, bytes, start)
    ensures ok ==> sent == window && Books(pending, {}, start, sent, [])
  {
    hide Hex8, Books, RequestsFrom;
    sent, pending, requests := 0, map[], [];
    var maximumInFlight := 0;
    NoRequests(bytes, start);
    if start >= 0 { NoBooks(start); }
    while sent < window
      invariant sent <= window && maximumInFlight == sent == |requests|
      invariant start >= 0 ==> Books(pending, {}, start, sent, [])
      invariant sent > 0 ==> 0 <= start && start + sent - 1 <= MAX_SEQUENCE
      invariant RequestsFrom(requests, bytes, start)
    {
      ok, sent, pending, requests, maximumInFlight := SendNext(bytes, start, sent, pending, requests, maximumInFlight, {}, []);
      if !ok { return; }
    }
    ok := true;
  }

  /** Which open request a response answers, or why the run fails. */
  method MatchResponse(orderIndependent: bool, message: Json, bytes: nat, start: nat, received: nat,
                       pending: map<string, nat>, completed: set<string>, ghost sent: nat, ghost order: seq<nat>)
    returns (r: Result<nat, Reason>, ghost s: nat)
    requires bytes >= ENVELOPE_BYTES && Books(pending, completed, start, sent, order)
    requires !orderIndependent ==> received in Open(sent, order)
    ensures r.Ok? ==> s in Open(sent, order) && EchoesAt(message, bytes, start, s) && r.value == start + s
    ensures r.Ok? && !orderIndependent ==> s == received
    ensures r.Err? ==> if orderIndependent then forall u :: u in Open(sent, order) ==> !EchoesAt(message, bytes, start, u)
                       else !EchoesAt(message, bytes, start, received)
    ensures r.Err? ==> r.error.Duplicate? || r.error.Unexpected? || r.error.BadResponse?
    ensures r == Err(Duplicate) ==> exists t :: t in completed && Field(message, "sequence") == Some(Str(t))
  {
    hide Hex8, Books, Verify, Echoes;
    OnlyNamedRequest(message, bytes, pending, completed, start, sent, order);
    var sequence := start + received;
    s := received;
    if orderIndependent {
      var text := SequenceText(message);
      if text.None? || text.value !in pending {
        return Err(if text.Some? && text.value in completed then Duplicate else Unexpected), s;
      }
      s := NamedRequest(pending, completed, start, sent, order, text.value);
      sequence := pending[text.value];
    }
    VerifyIff(message, bytes, sequence);
    var bad := Verify(message, bytes, sequence);
    if bad.Some? { return Err(BadResponse(bad.value)), s; }
    return Ok(sequence), s;
  }

  /**
    windowed: the responses are what client.receive yields. It returns normally exactly when there is at
    least one frame, every sequence number fits, and the responses answer the requests: in any order that
    answers only what was sent, or in sending order. Never more than `window` requests are unanswered.
  */
  method Windowed(udp: bool, bytes: nat, frames: nat, start: int, windowMessages: int, windowBytes: int,
                  orderIndependent: bool, responses: seq<Json>)
    returns (o: Outcome, requests: seq<Json>, received: nat, maximumInFlight: nat)
    requires bytes >= ENVELOPE_BYTES
    ensures match EffectiveWindow(udp, bytes, frames, windowMessages, windowBytes)
      case Err(e) => o == Failed(NoWindow(e)) && requests == []
      case Ok(window) =>
        && EndsAs(o, received, bytes, frames, start, orderIndependent, responses, window)
        && maximumInFlight == Min(window, |requests|) && SentAs(o, requests, received, bytes, frames, start, window)
        && (o.Finished? ==> |requests| == frames && Matched(orderIndependent, responses, requests))
  {
    hide Hex8, AnswersAll, AnswersInOrder, Books, Answers, RequestsFrom, EchoesAt, EffectiveWindow, Open, EndsAs, Matched, SentAs;
    received, requests, maximumInFlight := 0, [], 0;
    NoRequests(bytes, start);
    var effective := EffectiveWindow(udp, bytes, frames, windowMessages, windowBytes);
    if effective.Err? { return Failed(NoWindow(effective.error)), requests, received, maximumInFlight; }
    var window := effective.value;
    WindowLimits(udp, bytes, frames, windowMessages, windowBytes);
    var sent := 0;
    var completed: set<string>, pending: map<string, nat> := {}, map[];
    ghost var order: seq<nat> := [];
    var filled;
    filled, sent, pending, requests := FillWindow(bytes, start, window);
    maximumInFlight := sent;
    if !filled {
      EndsInFailure(BadSequenceNumber, received, bytes, frames, start, orderIndependent, responses, window);
      SentSoFar(Failed(BadSequenceNumber), requests, received, bytes, frames, start, window);
      return Failed(BadSequenceNumber), requests, received, maximumInFlight;
    }
    NoAnswers(responses, bytes, frames, start, window);
    while received < frames
      invariant received <= frames && received == |order| <= |responses|
      invariant sent == Max(window, Min(frames, received + window)) == |requests|
      invariant Books(pending, completed, start, sent, order)
      invariant Answers(order, responses, bytes, frames, start, window)
      invariant !orderIndependent ==> AnswersInOrder(responses, bytes, received, start) && forall k :: 0 <= k < received ==> order[k] == k
      invariant maximumInFlight == window && RequestsFrom(requests, bytes, start)
    {
      if received >= |responses| {
        EndEarly(order, responses, bytes, frames, start, window);
        EndsBlocked(bytes, frames, start, orderIndependent, responses, window);
        SentSoFar(Blocked, requests, received, bytes, frames, start, window);
        return Blocked, requests, received, maximumInFlight;
      }
      InOpen(sent, order, received);
      var answered, s := MatchResponse(orderIndependent, responses[received], bytes, start, received, pending, completed, sent, order);
      if answered.Err? {
        if orderIndependent {
          EndEarly(order, responses, bytes, frames, start, window);
        } else {
          InOrderNeeds(responses, bytes, frames, start, received);
        }
        EndsInFailure(answered.error, received, bytes, frames, start, orderIndependent, responses, window);
        SentSoFar(Failed(answered.error), requests, received, bytes, frames, start, window);
        return Failed(answered.error), requests, received, maximumInFlight;
      }
      BooksReceive(pending, completed, start, sent, order, s);
      InOpen(sent, order, s);
      AnswerMore(order, s, responses, bytes, frames, start, window);
      InOrderMore(responses, bytes, received, start);
      pending := pending - {Hex8(answered.value)};
      completed := completed + {Hex8(answered.value)};
      received := received + 1;
      order := order + [s];
      if sent < frames {
        var ok;
        ok, sent, pending, requests, maximumInFlight := SendNext(bytes, start, sent, pending, requests, maximumInFlight, completed, order);
        if !ok {
          EndsInFailure(BadSequenceNumber, received, bytes, frames, start, orderIndependent, responses, window);
          SentSoFar(Failed(BadSequenceNumber), requests, received, bytes, frames, start, window);
          return Failed(BadSequenceNumber), requests, received, maximumInFlight;
        }
      }
    }
    BooksSize(pending, completed, start, sent, order);
    BooksRange(pending, completed, start, sent, order);
    AllAnswered(order, responses, bytes, frames, start, window);
    AnswersMatch(order, responses, requests, bytes, frames, start, window);
    EndsAccounted(bytes, frames, start, orderIndependent, responses, window);
    SentSoFar(Finished(window, frames, frames, window), requests, received, bytes, frames, start, window);
    SentSoFar(Failed(Accounting), requests, received, bytes, frames, start, window);
    if |pending| != 0 || |completed| != frames { return Failed(Accounting), requests, received, maximumInFlight; }
    return Finished(maximumInFlight, received, sent, window), requests, received, maximumInFlight;
  }

  lemma EndsInFailure(reason: Reason, received: nat, bytes: nat, frames: nat, start: int, orderIndependent: bool, responses: seq<Json>, window: nat)
    requires bytes >= ENVELOPE_BYTES && reason != Accounting
    requires !(frames >= 1 && InRange(start, frames) && RequestsAnswered(bytes, frames, start, orderIndependent, responses, window))
    requires !(frames == 0 && 0 <= start <= MAX_SEQUENCE)
    ensures EndsAs(Failed(reason), received, bytes, frames, start, orderIndependent, responses, window)
  {
  }

  lemma EndsBlocked(bytes: nat, frames: nat, start: int, orderIndependent: bool, responses: seq<Json>, window: nat)
    requires bytes >= ENVELOPE_BYTES && |responses| < frames
    requires !(InRange(start, frames) && RequestsAnswered(bytes, frames, start, orderIndependent, responses, window))
    ensures EndsAs(Blocked, |responses|, bytes, frames, start, orderIndependent, responses, window)
  {
  }

  lemma EndsAccounted(bytes: nat, frames: nat, start: int, orderIndependent: bool, responses: seq<Json>, window: nat)
    requires bytes >= ENVELOPE_BYTES && start >= 0 && window >= 1
    ensures frames >= 1 && InRange(start, frames) && RequestsAnswered(bytes, frames, start, orderIndependent, responses, window) ==>
              EndsAs(Finished(window, frames, frames, window), frames, bytes, frames, start, orderIndependent, responses, window)
    ensures frames == 0 && 0 <= start <= MAX_SEQUENCE ==>
              EndsAs(Failed(Accounting), 0, bytes, frames, start, orderIndependent, responses, window)
  {
  }

  lemma InOpen(sent: nat, order: seq<nat>, s: nat)
    ensures s in Open(sent, order) <==> s < sent && s !in order
  {
  }

  lemma NoRequests(bytes: nat, start: int)
    requires bytes >= ENVELOPE_BYTES
    ensures RequestsFrom([], bytes, start)
  {
  }

  lemma WindowLimits(udp: bool, bytes: nat, frames: nat, windowMessages: int, windowBytes: int)
    requires bytes >= 1 && EffectiveWindow(udp, bytes, frames, windowMessages, windowBytes).Ok?
    ensures 1 <= EffectiveWindow(udp, bytes, frames, windowMessages, windowBytes).value <= Max(1, frames)
  {
  }

  lemma BooksRange(pending: map<string, nat>, completed: set<string>, start: nat, sent: nat, order: seq<nat>)
    requires Books(pending, completed, start, sent, order) && sent > 0
    ensures start + sent - 1 <= MAX_SEQUENCE
  {
  }

  lemma AnswerMore(order: seq<nat>, s: nat, responses: seq<Json>, bytes: nat, frames: nat, start: nat, window: nat)
    requires bytes >= ENVELOPE_BYTES && Answers(order, responses, bytes, frames, start, window)
    requires |order| < |responses| && s !in order && s < Min(frames, window + |order|) && EchoesAt(responses[|order|], bytes, start, s)
    ensures Answers(order + [s], responses, bytes, frames, start, window)
  {
    hide EchoesAt;
  }

  lemma InOrderMore(responses: seq<Json>, bytes: nat, k: nat, start: nat)
    requires bytes >= ENVELOPE_BYTES && k < |responses|
    ensures AnswersInOrder(responses, bytes, k + 1, start)
        <==> AnswersInOrder(responses, bytes, k, start) && EchoesAt(responses[k], bytes, start, k)
  {
    hide EchoesAt;
  }

  lemma InOrderNeeds(responses: seq<Json>, bytes: nat, frames: nat, start: nat, k: nat)
    requires bytes >= ENVELOPE_BYTES && k < frames && k < |responses| && !EchoesAt(responses[k], bytes, start, k)
    ensures !AnswersInOrder(responses, bytes, frames, start)
  {
  }

  lemma AllAnswered(order: seq<nat>, responses: seq<Json>, bytes: nat, frames: nat, start: nat, window: nat)
    requires bytes >= ENVELOPE_BYTES && |order| == frames && Answers(order, responses, bytes, frames, start, window)
    ensures AnswersAll(responses, bytes, frames, start, window)
  {
  }

  lemma NoAnswers(responses: seq<Json>, bytes: nat, frames: nat, start: nat, window: nat)
    requires bytes >= ENVELOPE_BYTES
    ensures Answers([], responses, bytes, frames, start, window) && AnswersInOrder(responses, bytes, 0, start)
  {
  }

  /** A run that has to stop after the answers in `order` could not have been answered. */
  lemma EndEarly(order: seq<nat>, responses: seq<Json>, bytes: nat, frames: nat, start: nat, window: nat)
    requires bytes >= ENVELOPE_BYTES && |order| < frames
    requires Answers(order, responses, bytes, frames, start, window)
    requires |order| < |responses| ==>
               forall s :: s in Open(Min(frames, |order| + window), order) ==> !EchoesAt(responses[|order|], bytes, start, s)
    ensures InRange(start, frames) ==> !AnswersAll(responses, bytes, frames, start, window)
    ensures |order| >= |responses| ==> !AnswersInOrder(responses, bytes, frames, start)
  {
    hide Answers, AnswersAll;
    if InRange(start, frames) { NoOrderLeft(order, responses, bytes, frames, start, window); }
  }
}
