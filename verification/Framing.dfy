/**
  Delimiter framing (entities/EventParser.js): the Fast, Guarded and Assured parsers as
  one reading loop under three policies, and the fold a connection makes of it.

  JSON.parse is a parameter: every statement holds for any total parser
  `parse: string -> Option<Json>`.
*/
module Split {
  import opened Common

  type Delimiter = d: string | d != "" witness "\U{0C}"

  ghost predicate OccursAt(s: string, d: string, i: int) {
    0 <= i && i + |d| <= |s| && s[i..i + |d|] == d
  }

  /** String.prototype.indexOf */
  function IndexOf(s: string, d: Delimiter, from: nat): (r: int)
    ensures r == -1 || from <= r <= |s| - |d|
    decreases |s| - from
  {
    if from + |d| > |s| then -1
    else if s[from..from + |d|] == d then from
    else IndexOf(s, d, from + 1)
  }

  lemma {:induction false} IndexOfIsFirst(s: string, d: Delimiter, from: nat)
    ensures var r := IndexOf(s, d, from);
            && (r != -1 ==> OccursAt(s, d, r))
            && (forall i :: from <= i && (r == -1 || i < r) ==> !OccursAt(s, d, i))
    decreases |s| - from
  {
    if from + |d| <= |s| && s[from..from + |d|] != d {
      IndexOfIsFirst(s, d, from + 1);
    }
  }

  /** Frames cut off at delimiters, and the text after the last delimiter. */
  datatype Parts = Parts(frames: seq<string>, rest: string)

  /** Leftmost-first split of a whole stream. */
  function Cut(s: string, d: Delimiter): Parts
    decreases |s|
  {
    var e := IndexOf(s, d, 0);
    if e == -1 then Parts([], s)
    else var t := Cut(s[e + |d|..], d); Parts([s[..e]] + t.frames, t.rest)
  }

  // ----- an independent account of the split -----

  /** The text that frames and a remainder came from. */
  function Paste(p: Parts, d: Delimiter): string
    decreases |p.frames|
  {
    if p.frames == [] then p.rest
    else p.frames[0] + d + Paste(Parts(p.frames[1..], p.rest), d)
  }

  ghost predicate NoOccurrence(s: string, d: string) {
    forall i :: !OccursAt(s, d, i)
  }

  /** The delimiter first occurs in frame + delimiter at the frame's end. */
  ghost predicate Clean(frame: string, d: string) {
    forall i :: 0 <= i < |frame| ==> !OccursAt(frame + d, d, i)
  }

  lemma OccursInPrefix(a: string, b: string, d: string, i: int)
    requires i + |d| <= |a|
    ensures OccursAt(a + b, d, i) <==> OccursAt(a, d, i)
  {
    if 0 <= i {
      assert (a + b)[i..i + |d|] == a[i..i + |d|];
    }
  }

  /** An occurrence is found wherever it is the first one. */
  lemma IndexOfFirst(s: string, d: Delimiter, from: nat, i: int)
    requires from <= i && OccursAt(s, d, i)
    requires forall j :: from <= j < i ==> !OccursAt(s, d, j)
    ensures IndexOf(s, d, from) == i
  {
    IndexOfIsFirst(s, d, from);
  }

  /** Searching from an offset is searching the suffix. */
  lemma {:induction false} IndexOfSuffix(s: string, d: Delimiter, from: nat, base: nat)
    requires base <= from <= |s|
    ensures IndexOf(s, d, from) ==
            if IndexOf(s[base..], d, from - base) == -1 then -1 else base + IndexOf(s[base..], d, from - base)
    decreases |s| - from
  {
    if from + |d| <= |s| {
      assert s[base..][from - base..from - base + |d|] == s[from..from + |d|];
      if s[from..from + |d|] != d { IndexOfSuffix(s, d, from + 1, base); }
    }
  }

  /** A frame followed by its delimiter is the first thing cut off. */
  lemma CutFrame(frame: string, tail: string, d: Delimiter)
    requires Clean(frame, d)
    ensures Cut(frame + d + tail, d) == Parts([frame] + Cut(tail, d).frames, Cut(tail, d).rest)
  {
    var s := frame + d + tail;
    forall j | 0 <= j < |frame| ensures !OccursAt(s, d, j) {
      OccursInPrefix(frame + d, tail, d, j);
    }
    assert s[|frame|..|frame| + |d|] == d;
    assert OccursAt(s, d, |frame|);
    IndexOfFirst(s, d, 0, |frame|);
    assert s[|frame| + |d|..] == tail;
    assert s[..|frame|] == frame;
  }

  /** The first frame cut off is clean. */
  lemma FirstIsClean(s: string, d: Delimiter)
    requires IndexOf(s, d, 0) != -1
    ensures Clean(s[..IndexOf(s, d, 0)], d)
    ensures s == s[..IndexOf(s, d, 0)] + d + s[IndexOf(s, d, 0) + |d|..]
  {
    var e := IndexOf(s, d, 0);
    IndexOfIsFirst(s, d, 0);
    assert s == s[..e] + s[e..e + |d|] + s[e + |d|..];
    forall i | 0 <= i < e ensures !OccursAt(s[..e] + d, d, i) {
      OccursInPrefix(s[..e] + d, s[e + |d|..], d, i);
    }
  }

  /** Cutting and pasting undo each other: the split is the only clean decomposition of the stream. */
  lemma {:induction false} CutIsTheCleanDecomposition(s: string, d: Delimiter, p: Parts)
    ensures Cut(s, d) == p <==>
            Paste(p, d) == s && (forall k :: 0 <= k < |p.frames| ==> Clean(p.frames[k], d)) && NoOccurrence(p.rest, d)
    decreases |s| + |p.frames|
  {
    if Cut(s, d) == p {
      CutDecomposes(s, d);
    }
    if Paste(p, d) == s && (forall k :: 0 <= k < |p.frames| ==> Clean(p.frames[k], d)) && NoOccurrence(p.rest, d) {
      PasteCuts(p, d);
    }
  }

  lemma {:induction false} CutDecomposes(s: string, d: Delimiter)
    ensures Paste(Cut(s, d), d) == s
    ensures forall k :: 0 <= k < |Cut(s, d).frames| ==> Clean(Cut(s, d).frames[k], d)
    ensures NoOccurrence(Cut(s, d).rest, d)
    decreases |s|
  {
    var e := IndexOf(s, d, 0);
    if e == -1 {
      IndexOfIsFirst(s, d, 0);
    } else {
      CutDecomposes(s[e + |d|..], d);
      FirstIsClean(s, d);
      var t := Cut(s[e + |d|..], d);
      assert Cut(s, d).frames[1..] == t.frames;
    }
  }

  lemma {:induction false} PasteCuts(p: Parts, d: Delimiter)
    requires forall k :: 0 <= k < |p.frames| ==> Clean(p.frames[k], d)
    requires NoOccurrence(p.rest, d)
    ensures Cut(Paste(p, d), d) == p
    decreases |p.frames|
  {
    if p.frames == [] {
      IndexOfIsFirst(p.rest, d, 0);
    } else {
      var tail := Parts(p.frames[1..], p.rest);
      PasteCuts(tail, d);
      CutFrame(p.frames[0], Paste(tail, d), d);
      assert p.frames == [p.frames[0]] + tail.frames;
    }
  }

  // ----- cutting in two steps -----

  /** Cutting a, then what is left of it followed by b, is cutting a + b. */
  lemma {:induction false} CutAppend(a: string, b: string, d: Delimiter)
    ensures Cut(a + b, d) == Then(Cut(a, d).frames, Cut(Cut(a, d).rest + b, d))
    decreases |a|
  {
    hide IndexOf;
    var e := IndexOf(a, d, 0);
    if e == -1 {
      assert Cut(a, d) == Parts([], a);
      assert [] + Cut(a + b, d).frames == Cut(a + b, d).frames;
    } else {
      var f, tail := a[..e], a[e + |d|..];
      FirstIsClean(a, d);
      assert Cut(a, d) == Then([f], Cut(tail, d));
      CutAppend(tail, b, d);
      assert a + b == f + d + (tail + b);
      CutFrame(f, tail + b, d);
      assert [f] + (Cut(tail, d).frames + Cut(Cut(tail, d).rest + b, d).frames)
          == [f] + Cut(tail, d).frames + Cut(Cut(tail, d).rest + b, d).frames;
    }
  }

  function Then(frames: seq<string>, p: Parts): Parts {
    Parts(frames + p.frames, p.rest)
  }

  /** The loop of the readers: `frames` are cut off, the text from `start` is not. */
  ghost predicate Progress(s: string, d: Delimiter, start: int, frames: seq<string>) {
    0 <= start <= |s| && Cut(s, d) == Then(frames, Cut(s[start..], d))
  }

  lemma Advance(s: string, d: Delimiter, start: nat, frames: seq<string>)
    requires Progress(s, d, start, frames) && IndexOf(s, d, start) != -1
    ensures Progress(s, d, IndexOf(s, d, start) + |d|, frames + [s[start..IndexOf(s, d, start)]])
  {
    hide IndexOf;
    var end := IndexOf(s, d, start);
    IndexOfSuffix(s, d, start, start);
    var t := s[start..];
    assert t[..end - start] == s[start..end];
    assert t[end - start + |d|..] == s[end + |d|..];
    var later := Cut(s[end + |d|..], d).frames;
    assert frames + ([s[start..end]] + later) == frames + [s[start..end]] + later;
  }

  lemma Finish(s: string, d: Delimiter, start: nat, frames: seq<string>)
    requires Progress(s, d, start, frames) && IndexOf(s, d, start) == -1
    ensures Cut(s, d) == Parts(frames, s[start..])
  {
    IndexOfSuffix(s, d, start, start);
    assert frames + [] == frames;
  }

  /**
    What is left of a stream is held inside the next frame or its delimiter's
    proper beginning once more text arrives, or inside the final remainder.
  */
  lemma RestIsPartial(r: string, b: string, d: Delimiter)
    requires NoOccurrence(r, d)
    ensures var c := Cut(r + b, d);
            if c.frames == [] then r <= c.rest else r <= c.frames[0] + d[..|d| - 1]
  {
    var s := r + b;
    var e := IndexOf(s, d, 0);
    if e != -1 {
      FirstIsClean(s, d);
      IndexOfIsFirst(s, d, 0);
      if |r| >= e + |d| { OccursInPrefix(r, b, d, e); }
      assert s[..e + |d| - 1] == s[..e] + d[..|d| - 1];
      assert r == s[..|r|];
    }
  }
}

module Framing {
  import opened Common
  import opened Json
  import opened Split
  import JsonReader

  // ----- errors, limits and policies -----

  datatype Code =
    | InvalidJson          // ERR_IPC_INVALID_JSON
    | InvalidMessage       // ERR_IPC_INVALID_MESSAGE
    | InvalidEvent         // ERR_IPC_INVALID_EVENT
    | EventTooLarge        // ERR_IPC_EVENT_TOO_LARGE
    | ReservedEvent        // ERR_IPC_RESERVED_EVENT
    | EventNotAllowed      // ERR_IPC_EVENT_NOT_ALLOWED
    | FrameTooLarge        // ERR_IPC_FRAME_TOO_LARGE

  /** A configured limit: a positive integer or Infinity. */
  datatype Limit = AtMost(n: nat) | Unlimited {
    predicate Allows(x: nat) {
      Unlimited? || x <= n
    }
  }

  datatype Limits = Limits(
    maxMessageSize: Limit,
    maxEventNameLength: Limit,
    allowReservedEvents: bool,
    allowedEvents: Option<set<string>>)  // Some for the Assured parser

  type JsonParse = string -> Option<Json>

  datatype Policy =
    | Fast(parse: JsonParse)
    | Guarded(parse: JsonParse, limits: Limits)

  const RESERVED: set<string> :=
    {"start", "connect", "disconnect", "destroy", "close", "socket.disconnected", "error", "data"}

  // Object.getOwnPropertyNames(Object.prototype)
  const UNSAFE: set<string> :=
    {"constructor", "__defineGetter__", "__defineSetter__", "hasOwnProperty", "__lookupGetter__",
     "__lookupSetter__", "isPrototypeOf", "propertyIsEnumerable", "toString", "valueOf", "__proto__",
     "toLocaleString"}

  function ValidateType(limits: Limits, kind: Option<Json>): Option<Code> {
    if !(kind.Some? && kind.value.Str?) || kind.value.s == "" then Some(InvalidEvent)
    else
      var name := kind.value.s;
      if !limits.maxEventNameLength.Allows(Units(name)) then Some(EventTooLarge)
      else if name in UNSAFE then Some(InvalidEvent)
      else if !(limits.allowReservedEvents && limits.allowedEvents.None?) && name in RESERVED then Some(ReservedEvent)
      else if limits.allowedEvents.Some? && name !in limits.allowedEvents.value then Some(EventNotAllowed)
      else None
  }

  predicate Fits(p: Policy, text: string) {
    p.Fast? || p.limits.maxMessageSize.Allows(Bytes(text))
  }

  /** What happens to one complete frame: the message handed on, or the error thrown. */
  function Handle(p: Policy, frame: string): Result<Json, Code> {
    if !Fits(p, frame) then Err(FrameTooLarge)
    else match p.parse(frame)
      case None => Err(InvalidJson)
      case Some(v) =>
        if p.Fast? then Ok(v)
        else if !v.Obj? then Err(InvalidMessage)
        else match ValidateType(p.limits, Field(v, "type"))
          case Some(code) => Err(code)
          case None => Ok(v)
  }

  // ----- one read -----

  /** Messages handed on before the first frame that throws, and that error. */
  datatype Delivery = Delivery(messages: seq<Json>, error: Option<Code>)

  function Deliver(p: Policy, frames: seq<string>): Delivery {
    if frames == [] then Delivery([], None)
    else match Handle(p, frames[0])
      case Err(code) => Delivery([], Some(code))
      case Ok(m) => var t := Deliver(p, frames[1..]); Delivery([m] + t.messages, t.error)
  }

  datatype Outcome = Kept(buffer: string) | Threw(code: Code)

  /** Everything a read of the combined text does, in terms of its split. */
  function ReadOutcome(p: Policy, d: Delimiter, text: string): Outcome {
    var c := Cut(text, d);
    var t := Deliver(p, c.frames);
    if t.error.Some? then Threw(t.error.value)
    else if !Fits(p, c.rest) then Threw(FrameTooLarge)
    else Kept(c.rest)
  }

  function ReadMessages(p: Policy, d: Delimiter, text: string): seq<Json> {
    Deliver(p, Cut(text, d).frames).messages
  }

  lemma {:induction false} DeliverAppend(p: Policy, a: seq<string>, b: seq<string>)
    ensures Deliver(p, a + b) ==
            var x, y := Deliver(p, a), Deliver(p, b);
            if x.error.Some? then x else Delivery(x.messages + y.messages, y.error)
  {
    hide Handle;
    if a == [] {
      assert a + b == b;
    } else {
      assert (a + b)[1..] == a[1..] + b;
      DeliverAppend(p, a[1..], b);
    }
  }

  /** One more frame after frames that were all handed on. */
  lemma DeliverNext(p: Policy, frames: seq<string>, frame: string, later: seq<string>)
    requires Deliver(p, frames).error.None?
    ensures match Handle(p, frame)
      case Ok(m) => Deliver(p, frames + [frame]) == Delivery(Deliver(p, frames).messages + [m], None)
      case Err(code) => Deliver(p, frames + [frame] + later) == Delivery(Deliver(p, frames).messages, Some(code))
  {
    DeliverAppend(p, frames, [frame]);
    DeliverAppend(p, frames + [frame], later);
  }

  /** The start of the reading loop. */
  lemma ReadStart(p: Policy, d: Delimiter, s: string)
    ensures Progress(s, d, 0, []) && Deliver(p, []) == Delivery([], None)
  {
    assert s[0..] == s;
  }

  /** One turn of the reading loop. */
  lemma ReadNext(p: Policy, d: Delimiter, s: string, start: nat, frames: seq<string>)
    requires Progress(s, d, start, frames) && IndexOf(s, d, start) != -1
    requires Deliver(p, frames).error.None?
    ensures var end := IndexOf(s, d, start);
            match Handle(p, s[start..end])
            case Ok(m) =>
              && Progress(s, d, end + |d|, frames + [s[start..end]])
              && Deliver(p, frames + [s[start..end]]) == Delivery(Deliver(p, frames).messages + [m], None)
            case Err(code) =>
              ReadMessages(p, d, s) == Deliver(p, frames).messages && ReadOutcome(p, d, s) == Threw(code)
  {
    hide Cut, IndexOf, Deliver;
    var end := IndexOf(s, d, start);
    Advance(s, d, start, frames);
    DeliverNext(p, frames, s[start..end], Cut(s[end + |d|..], d).frames);
  }

  /** The end of the reading loop. */
  lemma ReadEnd(p: Policy, d: Delimiter, s: string, start: nat, frames: seq<string>)
    requires Progress(s, d, start, frames) && IndexOf(s, d, start) == -1
    requires Deliver(p, frames).error.None?
    ensures ReadMessages(p, d, s) == Deliver(p, frames).messages
    ensures ReadOutcome(p, d, s) == if Fits(p, s[start..]) then Kept(s[start..]) else Threw(FrameTooLarge)
  {
    hide Cut, IndexOf, Deliver;
    Finish(s, d, start, frames);
  }

  /** Parser.read: the loop over start and end; `receive` appends to `delivered`. */
  method ReadFast(parse: JsonParse, d: Delimiter, buffer: string, data: string)
    returns (delivered: seq<Json>, outcome: Outcome)
    ensures delivered == ReadMessages(Fast(parse), d, buffer + data)
    ensures outcome == ReadOutcome(Fast(parse), d, buffer + data)
  {
    hide Cut, IndexOf, ReadMessages, ReadOutcome, Deliver, Progress;
    var combined := if buffer != "" then buffer + data else data;
    assert combined == buffer + data;
    var start := 0;
    var end := IndexOf(combined, d, 0);
    delivered := [];
    ghost var p, frames := Fast(parse), [];
    ReadStart(p, d, combined);
    while end != -1
      invariant 0 <= start <= |combined| && Progress(combined, d, start, frames)
      invariant end == IndexOf(combined, d, start)
      invariant Deliver(p, frames) == Delivery(delivered, None)
      decreases |combined| - start
    {
      ReadNext(p, d, combined, start, frames);
      var frame := combined[start..end];
      var message := parse(frame);
      if message.None? {
        return delivered, Threw(InvalidJson);
      }
      delivered := delivered + [message.value];
      frames := frames + [frame];
      start := end + |d|;
      end := IndexOf(combined, d, start);
    }
    ReadEnd(p, d, combined, start, frames);
    outcome := Kept(if start == 0 then combined else combined[start..]);
  }

  /** The size check, then the checks of decodeMessage. */
  lemma SizeThenDecode(parse: JsonParse, limits: Limits, frame: string)
    ensures var p := Guarded(parse, limits);
            Handle(p, frame) ==
            if Fits(p, frame) then Handle(Guarded(parse, limits.(maxMessageSize := Unlimited)), frame) else Err(FrameTooLarge)
  {
    hide Bytes, ValidateType;
    ValidateIgnoresSize(limits, parse(frame));
  }

  lemma ValidateIgnoresSize(limits: Limits, v: Option<Json>)
    ensures v.Some? ==> ValidateType(limits.(maxMessageSize := Unlimited), Field(v.value, "type")) == ValidateType(limits, Field(v.value, "type"))
  {
  }

  /** GuardedParser.read: the same loop with the size checks and decodeMessage. */
  method ReadGuarded(parse: JsonParse, limits: Limits, d: Delimiter, buffer: string, data: string)
    returns (delivered: seq<Json>, outcome: Outcome)
    ensures delivered == ReadMessages(Guarded(parse, limits), d, buffer + data)
    ensures outcome == ReadOutcome(Guarded(parse, limits), d, buffer + data)
  {
    hide Cut, IndexOf, ReadMessages, ReadOutcome, Deliver, Handle, Progress, Bytes, ValidateType;
    var combined := if buffer != "" then buffer + data else data;
    assert combined == buffer + data;
    var start := 0;
    var end := IndexOf(combined, d, 0);
    delivered := [];
    ghost var p, frames := Guarded(parse, limits), [];
    ReadStart(p, d, combined);
    while end != -1
      invariant 0 <= start <= |combined| && Progress(combined, d, start, frames)
      invariant end == IndexOf(combined, d, start)
      invariant Deliver(p, frames) == Delivery(delivered, None)
      decreases |combined| - start
    {
      ReadNext(p, d, combined, start, frames);
      var frame := combined[start..end];
      SizeThenDecode(parse, limits, frame);
      if !limits.maxMessageSize.Allows(Bytes(frame)) {
        return delivered, Threw(FrameTooLarge);
      }
      var message := DecodeMessage(parse, limits, frame);
      if message.Err? {
        return delivered, Threw(message.error);
      }
      delivered := delivered + [message.value];
      frames := frames + [frame];
      start := end + |d|;
      end := IndexOf(combined, d, start);
    }
    ReadEnd(p, d, combined, start, frames);
    var remainder := if start == 0 then combined else combined[start..];
    if !limits.maxMessageSize.Allows(Bytes(remainder)) {
      return delivered, Threw(FrameTooLarge);
    }
    outcome := Kept(remainder);
  }

  method DecodeMessage(parse: JsonParse, limits: Limits, frame: string) returns (r: Result<Json, Code>)
    ensures r == Handle(Guarded(parse, limits.(maxMessageSize := Unlimited)), frame)
  {
    var v := parse(frame);
    if v.None? { return Err(InvalidJson); }
    if !v.value.Obj? { return Err(InvalidMessage); }
    var bad := ValidateType(limits, Field(v.value, "type"));
    if bad.Some? { return Err(bad.value); }
    return Ok(v.value);
  }

  /** Parser.push computes the split without decoding. */
  method Push(d: Delimiter, buffer: string, data: string) returns (events: seq<string>, remainder: string)
    ensures Parts(events, remainder) == Cut(buffer + data, d)
  {
    hide Cut, IndexOf;
    var combined := if buffer != "" then buffer + data else data;
    assert combined == buffer + data;
    events := [];
    var start := 0;
    var end := IndexOf(combined, d, 0);
    assert combined[0..] == combined;
    while end != -1
      invariant Progress(combined, d, start, events)
      invariant end == IndexOf(combined, d, start)
      decreases |combined| - start
    {
      Advance(combined, d, start, events);
      events := events + [combined[start..end]];
      start := end + |d|;
      end := IndexOf(combined, d, start);
    }
    Finish(combined, d, start, events);
    remainder := if start == 0 then combined else combined[start..];
  }

  // ----- a connection fed chunk by chunk -----

  /** A stream connection: a protocol error destroys the socket, and no more data is read. */
  datatype Conn =
    | Open(delivered: seq<Json>, buffer: string)
    | Closed(delivered: seq<Json>, code: Code)

  const FRESH: Conn := Open([], "")

  /** receiveFramed on one chunk */
  function Receive(p: Policy, d: Delimiter, c: Conn, chunk: string): Conn {
    match c
    case Closed(_, _) => c
    case Open(got, buffer) =>
      var all := got + ReadMessages(p, d, buffer + chunk);
      match ReadOutcome(p, d, buffer + chunk)
      case Threw(code) => Closed(all, code)
      case Kept(b) => Open(all, b)
  }

  function Feed(p: Policy, d: Delimiter, c: Conn, chunks: seq<string>): Conn
    decreases |chunks|
  {
    if chunks == [] then c else Feed(p, d, Receive(p, d, c, chunks[0]), chunks[1..])
  }

  /**
    Frame f of a stream leaves room when it is too large by itself, or still fits
    with all but the last character of the delimiter behind it.
  */
  ghost predicate LeavesRoom(p: Policy, d: Delimiter, f: string) {
    !Fits(p, f) || Fits(p, f + d[..|d| - 1])
  }

  /** Every frame that reading the stream reaches leaves room. */
  ghost predicate Roomy(p: Policy, d: Delimiter, s: string) {
    var frames := Cut(s, d).frames;
    forall k {:trigger frames[k]} :: 0 <= k < |frames| && Deliver(p, frames[..k]).error.None? ==> LeavesRoom(p, d, frames[k])
  }

  lemma FitsPrefix(p: Policy, a: string, b: string)
    requires a <= b && Fits(p, b)
    ensures Fits(p, a)
  {
    if p.Guarded? { BytesPrefix(a, b); }
  }

  lemma DeliverNothing(p: Policy)
    ensures Deliver(p, []) == Delivery([], None)
  {
  }

  lemma ReceiveTwice(p: Policy, d: Delimiter, c: Conn, a: string, b: string)
    requires c.Open? ==> NoOccurrence(c.buffer, d) && Roomy(p, d, c.buffer + (a + b))
    ensures Receive(p, d, Receive(p, d, c, a), b) == Receive(p, d, c, a + b)
  {
    hide Cut, Deliver, Roomy;
    if c.Open? {
      var s := c.buffer + a;
      assert s + b == c.buffer + (a + b);
      var x := Cut(s, d);
      var y := Cut(x.rest + b, d);
      CutAppend(s, b, d);
      DeliverAppend(p, x.frames, y.frames);
      CutDecomposes(s, d);
      RestIsPartial(x.rest, b, d);
      if Deliver(p, x.frames).error.None? && !Fits(p, x.rest) {
        if y.frames == [] {
          DeliverNothing(p);
          if Fits(p, y.rest) { FitsPrefix(p, x.rest, y.rest); }
        } else {
          PartialIsTooLarge(p, d, s, b);
        }
      } else if Deliver(p, x.frames).error.None? {
        var m := Deliver(p, x.frames).messages;
        assert c.delivered + (m + Deliver(p, y.frames).messages) == c.delivered + m + Deliver(p, y.frames).messages;
      }
    }
  }

  lemma PartialIsTooLarge(p: Policy, d: Delimiter, s: string, b: string)
    requires Roomy(p, d, s + b)
    requires Deliver(p, Cut(s, d).frames).error.None? && !Fits(p, Cut(s, d).rest)
    requires Cut(Cut(s, d).rest + b, d).frames != []
    ensures Deliver(p, Cut(Cut(s, d).rest + b, d).frames) == Delivery([], Some(FrameTooLarge))
  {
    var x := Cut(s, d);
    var y := Cut(x.rest + b, d);
    CutAppend(s, b, d);
    CutDecomposes(s, d);
    RestIsPartial(x.rest, b, d);
    var frames := Cut(s + b, d).frames;
    assert frames[..|x.frames|] == x.frames;
    assert frames[|x.frames|] == y.frames[0];
    if Fits(p, y.frames[0]) {
      FitsPrefix(p, x.rest, y.frames[0] + d[..|d| - 1]);
    }
  }

  lemma RoomyRest(p: Policy, d: Delimiter, s: string, b: string)
    requires Roomy(p, d, s + b) && Deliver(p, Cut(s, d).frames).error.None?
    ensures Roomy(p, d, Cut(s, d).rest + b)
  {
    var x := Cut(s, d);
    var frames := Cut(x.rest + b, d).frames;
    var all := Cut(s + b, d).frames;
    CutAppend(s, b, d);
    forall k {:trigger frames[k]} | 0 <= k < |frames| && Deliver(p, frames[..k]).error.None?
      ensures LeavesRoom(p, d, frames[k])
    {
      DeliverAppend(p, x.frames, frames[..k]);
      assert all[..|x.frames| + k] == x.frames + frames[..k];
      assert all[|x.frames| + k] == frames[k];
    }
  }

  lemma ReceiveNothing(p: Policy, d: Delimiter, c: Conn)
    requires c.Open? && NoOccurrence(c.buffer, d) && Fits(p, c.buffer)
    ensures Receive(p, d, c, "") == c
  {
    assert c.buffer + "" == c.buffer;
    PasteCuts(Parts([], c.buffer), d);
    assert c.delivered + [] == c.delivered;
  }

  /** After one chunk the connection is ready, in the sense of FeedIsOneReceive, for the rest of the stream. */
  lemma StaysReady(p: Policy, d: Delimiter, c: Conn, a: string, b: string)
    requires c.Open? ==> Roomy(p, d, c.buffer + (a + b))
    ensures var next := Receive(p, d, c, a);
            next.Open? ==> NoOccurrence(next.buffer, d) && Fits(p, next.buffer) && Roomy(p, d, next.buffer + b)
  {
    hide Roomy, Cut, Deliver, Fits;
    if c.Open? {
      var s := c.buffer + a;
      CutDecomposes(s, d);
      assert s + b == c.buffer + (a + b);
      if Receive(p, d, c, a).Open? { RoomyRest(p, d, s, b); }
    }
  }

  lemma {:induction false} FeedIsOneReceive(p: Policy, d: Delimiter, c: Conn, chunks: seq<string>)
    requires c.Open? ==> NoOccurrence(c.buffer, d) && Fits(p, c.buffer) && Roomy(p, d, c.buffer + Concat(chunks))
    ensures Feed(p, d, c, chunks) == Receive(p, d, c, Concat(chunks))
    decreases |chunks|
  {
    if chunks == [] {
      if c.Open? { ReceiveNothing(p, d, c); }
    } else {
      hide Roomy, Receive, Fits, NoOccurrence;
      var a, b := chunks[0], Concat(chunks[1..]);
      ReceiveTwice(p, d, c, a, b);
      assert Concat(chunks) == a + b;
      StaysReady(p, d, c, a, b);
      FeedIsOneReceive(p, d, Receive(p, d, c, a), chunks[1..]);
    }
  }

  // ----- chunk independence -----

  /** Fast: however the stream is cut into chunks, the connection ends as if it came in one piece. */
  lemma FastChunkIndependence(parse: JsonParse, d: Delimiter, chunks: seq<string>)
    ensures Feed(Fast(parse), d, FRESH, chunks) == Receive(Fast(parse), d, FRESH, Concat(chunks))
  {
    assert "" + Concat(chunks) == Concat(chunks);
    FeedIsOneReceive(Fast(parse), d, FRESH, chunks);
  }

  /** What is handed on: the decoded frames before the first one that is refused, which gives the error. */
  lemma {:induction false} DeliveredPrefix(p: Policy, frames: seq<string>)
    ensures var t := Deliver(p, frames);
            && |t.messages| <= |frames|
            && (forall j :: 0 <= j < |t.messages| ==> Handle(p, frames[j]) == Ok(t.messages[j]))
            && (t.error.None? ==> |t.messages| == |frames|)
            && (t.error.Some? ==> |t.messages| < |frames| && Handle(p, frames[|t.messages|]) == Err(t.error.value))
    decreases |frames|
  {
    hide Handle;
    if frames != [] {
      DeliveredPrefix(p, frames[1..]);
    }
  }

  /** At the first undecodable frame, exactly the frames before it have been handed on. */
  lemma DeliveredUpToFirstError(p: Policy, frames: seq<string>, k: nat)
    ensures var t := Deliver(p, frames);
            t.error.Some? && |t.messages| == k <==>
            k < |frames| && Handle(p, frames[k]).Err? && forall j :: 0 <= j < k ==> Handle(p, frames[j]).Ok?
  {
    hide Handle, Deliver;
    DeliveredPrefix(p, frames);
  }

  /**
    Guarded: every chunking of the stream ends as the whole stream does, if and only if every
    frame that is reached is either too large or leaves room for a partial delimiter.
  */
  lemma GuardedChunkIndependence(parse: JsonParse, limits: Limits, d: Delimiter, s: string)
    ensures var p := Guarded(parse, limits);
            Roomy(p, d, s) <==>
            forall chunks: seq<string> :: Concat(chunks) == s ==> Feed(p, d, FRESH, chunks) == Receive(p, d, FRESH, s)
  {
    var p := Guarded(parse, limits);
    if Roomy(p, d, s) {
      forall chunks: seq<string> | Concat(chunks) == s ensures Feed(p, d, FRESH, chunks) == Receive(p, d, FRESH, s) {
        assert "" + s == s;
        FeedIsOneReceive(p, d, FRESH, chunks);
      }
    } else {
      var chunks := BadChunks(p, d, s);
    }
  }

  /** A frame without room, cut just before the last character of its delimiter, is refused early. */
  lemma BadChunks(p: Policy, d: Delimiter, s: string) returns (chunks: seq<string>)
    requires p.Guarded? && !Roomy(p, d, s)
    ensures Concat(chunks) == s && Feed(p, d, FRESH, chunks) != Receive(p, d, FRESH, s)
  {
    hide Cut, Clean, Paste, Handle, Concat, Feed, OccursAt;
    var frames := Cut(s, d).frames;
    var k :| 0 <= k < |frames| && Deliver(p, frames[..k]).error.None? && !LeavesRoom(p, d, frames[k]);
    var f := frames[k];
    SmallEnough(p, f);
    var partial := f + d[..|d| - 1];
    var early := Parts(frames[..k], partial);
    CutDecomposes(s, d);
    CleanPartial(f, d);
    PasteCuts(early, d);
    var head := Paste(early, d);
    PasteThrough(Cut(s, d), k, d);
    var tail := s[|head|..];
    chunks := [head, tail];
    assert head + tail == s && "" + head == head && "" + s == s;
    assert Receive(p, d, FRESH, head) == Closed(Deliver(p, frames[..k]).messages, FrameTooLarge);
    TwoChunks(p, d, head, tail);
    assert frames == frames[..k] + frames[k..];
    DeliverAppend(p, frames[..k], frames[k..]);
  }

  lemma TwoChunks(p: Policy, d: Delimiter, head: string, tail: string)
    requires Receive(p, d, FRESH, head).Closed?
    ensures Concat([head, tail]) == head + tail && Feed(p, d, FRESH, [head, tail]) == Receive(p, d, FRESH, head)
  {
    hide Receive;
    var chunks := [head, tail];
    assert chunks[1..] == [tail] && [tail][1..] == [] && tail + "" == tail;
    assert Concat([tail]) == tail;
    var first := Receive(p, d, FRESH, head);
    ClosedStays(p, d, first, [tail]);
  }

  lemma SmallEnough(p: Policy, f: string)
    requires Fits(p, f)
    ensures Handle(p, f) != Err(FrameTooLarge)
  {
  }

  lemma CleanPartial(f: string, d: Delimiter)
    requires Clean(f, d)
    ensures NoOccurrence(f + d[..|d| - 1], d)
  {
    var partial, last := f + d[..|d| - 1], d[|d| - 1..];
    assert f + d == partial + last;
    forall i | 0 <= i < |f| ensures !OccursAt(partial, d, i) {
      if i + |d| <= |partial| { OccursInPrefix(partial, last, d, i); }
    }
  }

  lemma {:induction false} PasteThrough(c: Parts, k: nat, d: Delimiter)
    requires k < |c.frames|
    ensures Paste(Parts(c.frames[..k], c.frames[k] + d[..|d| - 1]), d) <= Paste(c, d)
    decreases k
  {
    if k == 0 {
      assert c.frames[0] + d == c.frames[0] + d[..|d| - 1] + d[|d| - 1..];
    } else {
      PasteThrough(Parts(c.frames[1..], c.rest), k - 1, d);
      assert c.frames[..k][1..] == c.frames[1..][..k - 1];
    }
  }

  /** A delimiter of one character leaves no room to ask for. */
  lemma OneCharacterDelimiter(parse: JsonParse, limits: Limits, d: Delimiter, chunks: seq<string>)
    requires |d| == 1
    ensures Feed(Guarded(parse, limits), d, FRESH, chunks) == Receive(Guarded(parse, limits), d, FRESH, Concat(chunks))
  {
    assert forall f: string :: f + d[..0] == f;
    GuardedChunkIndependence(parse, limits, d, Concat(chunks));
  }

  /** With a longer delimiter, slack of its size less one under the limit is enough. */
  lemma SlackIsEnough(parse: JsonParse, limits: Limits, d: Delimiter, chunks: seq<string>)
    requires forall k {:trigger Cut(Concat(chunks), d).frames[k]} :: 0 <= k < |Cut(Concat(chunks), d).frames| ==>
               limits.maxMessageSize.Allows(Bytes(Cut(Concat(chunks), d).frames[k]) + Bytes(d) - 1)
    ensures Feed(Guarded(parse, limits), d, FRESH, chunks) == Receive(Guarded(parse, limits), d, FRESH, Concat(chunks))
  {
    var p := Guarded(parse, limits);
    var frames := Cut(Concat(chunks), d).frames;
    forall k {:trigger frames[k]} | 0 <= k < |frames| ensures LeavesRoom(p, d, frames[k]) {
      BytesAppend(frames[k], d[..|d| - 1]);
      BytesAppend(d[..|d| - 1], d[|d| - 1..]);
      assert d == d[..|d| - 1] + d[|d| - 1..];
      assert Bytes(d[|d| - 1..]) >= 1;
    }
    GuardedChunkIndependence(parse, limits, d, Concat(chunks));
  }

  const MINIMAL: string := "{\"type\":\"m\"}"
  const MINIMAL_MESSAGE: Json := Obj([Member("type", Str("m"))])

  /** It can happen: a message of exactly the permitted size, with its two-character delimiter cut in half. */
  lemma ChunkingMatters(parse: JsonParse)
    requires parse(MINIMAL) == Some(MINIMAL_MESSAGE)
    ensures var p := Guarded(parse, Limits(AtMost(12), Unlimited, false, None));
            && !Roomy(p, "ab", MINIMAL + "ab")
            && Receive(p, "ab", FRESH, MINIMAL + "ab") == Open([MINIMAL_MESSAGE], "")
            && Feed(p, "ab", FRESH, [MINIMAL + "a", "b"]) == Closed([], FrameTooLarge)
  {
    hide Cut, Handle, Fits;
    var d: Delimiter := "ab";
    var p := Guarded(parse, Limits(AtMost(12), Unlimited, false, None));
    var early, chunks, frames := MINIMAL + "a", [MINIMAL + "a", "b"], [MINIMAL];
    MinimalParts();
    MinimalFits(parse);
    assert "" + early == early && "" + (MINIMAL + "ab") == MINIMAL + "ab";
    assert frames[..0] == [] && frames[0] + d[..|d| - 1] == early;
    assert Deliver(p, frames) == Delivery([MINIMAL_MESSAGE], None) by { DeliverAppend(p, frames, []); }
    assert chunks[0] == early && chunks[1..] == ["b"];
    var first := Receive(p, d, FRESH, early);
    assert Feed(p, d, FRESH, chunks) == Feed(p, d, first, ["b"]) == first by { ClosedStays(p, d, first, ["b"]); }
  }

  lemma MinimalFits(parse: JsonParse)
    requires parse(MINIMAL) == Some(MINIMAL_MESSAGE)
    ensures var p := Guarded(parse, Limits(AtMost(12), Unlimited, false, None));
            Handle(p, MINIMAL) == Ok(MINIMAL_MESSAGE) && Fits(p, MINIMAL) && Fits(p, "") && !Fits(p, MINIMAL + "a")
  {
    hide Bytes;
    AsciiBytes(MINIMAL);
    AsciiBytes(MINIMAL + "a");
    AsciiBytes("");
    assert Field(MINIMAL_MESSAGE, "type") == Some(Str("m"));
  }

  lemma CleanWithout(f: string, d: Delimiter)
    requires forall i :: 0 <= i < |f| ==> f[i] != d[0]
    ensures Clean(f, d)
  {
    forall i | 0 <= i < |f| ensures !OccursAt(f + d, d, i) {
      assert (f + d)[i..i + |d|][0] == f[i];
    }
  }

  lemma MinimalParts()
    ensures Cut(MINIMAL + "ab", "ab") == Parts([MINIMAL], "") && Cut(MINIMAL + "a", "ab") == Parts([], MINIMAL + "a")
  {
    hide Cut, Clean, NoOccurrence;
    var d: Delimiter, whole := "ab", Parts([MINIMAL], "");
    CleanWithout(MINIMAL, d);
    CleanPartial(MINIMAL, d);
    assert d[..|d| - 1] == "a";
    NothingOccurs("", d);
    assert whole.frames[1..] == [] && Paste(Parts([], ""), d) == "";
    assert Paste(whole, d) == MINIMAL + d + "" == MINIMAL + "ab";
    PasteCuts(whole, d);
    PasteCuts(Parts([], MINIMAL + "a"), d);
  }

  lemma NothingOccurs(s: string, d: Delimiter)
    requires forall i :: 0 <= i < |s| ==> s[i] != d[0]
    ensures NoOccurrence(s, d)
  {
    forall i ensures !OccursAt(s, d, i) {
      if 0 <= i && i + |d| <= |s| { assert s[i..i + |d|][0] == s[i]; }
    }
  }

  // ----- Guarded refines Fast -----

  lemma {:induction false} GuardedDeliversLess(parse: JsonParse, limits: Limits, frames: seq<string>)
    ensures var g, f := Deliver(Guarded(parse, limits), frames), Deliver(Fast(parse), frames);
            g.messages <= f.messages && (g.error.None? ==> g == f)
  {
    if frames != [] {
      GuardedDeliversLess(parse, limits, frames[1..]);
    }
  }

  /**
    On the same chunks, what Guarded hands on is a prefix of what Fast hands on; and when Guarded has
    raised no error the two connections agree entirely, with a buffer inside the limit.
  */
  lemma {:induction false} GuardedRefinesFast(parse: JsonParse, limits: Limits, d: Delimiter, c: Conn, chunks: seq<string>)
    requires c.Open? && Fits(Guarded(parse, limits), c.buffer)
    ensures var g, f := Feed(Guarded(parse, limits), d, c, chunks), Feed(Fast(parse), d, c, chunks);
            g.delivered <= f.delivered && (g.Open? ==> g == f && Fits(Guarded(parse, limits), g.buffer))
    decreases |chunks|
  {
    if chunks != [] {
      var gp, fp := Guarded(parse, limits), Fast(parse);
      GuardedDeliversLess(parse, limits, Cut(c.buffer + chunks[0], d).frames);
      var g, f := Receive(gp, d, c, chunks[0]), Receive(fp, d, c, chunks[0]);
      if g.Open? {
        assert g == f;
        GuardedRefinesFast(parse, limits, d, g, chunks[1..]);
      } else {
        ClosedStays(gp, d, g, chunks[1..]);
        FeedExtends(fp, d, f, chunks[1..]);
      }
    }
  }

  /** A message that may reach the application through a Guarded or Assured connection. */
  ghost predicate Permitted(limits: Limits, m: Json) {
    match Field(m, "type")
    case Some(Str(name)) =>
      && name != "" && limits.maxEventNameLength.Allows(Units(name)) && name !in UNSAFE
      && (name in RESERVED ==> limits.allowReservedEvents && limits.allowedEvents.None?)
      && (limits.allowedEvents.Some? ==> name in limits.allowedEvents.value)
    case _ => false
  }

  /** A frame is handed on exactly when it fits and is an object of a permitted type. */
  lemma HandedOnIff(parse: JsonParse, limits: Limits, frame: string, m: Json)
    ensures Handle(Guarded(parse, limits), frame) == Ok(m) <==>
            Fits(Guarded(parse, limits), frame) && parse(frame) == Some(m) && m.Obj? && Permitted(limits, m)
  {
  }

  /**
    What a stream hands on in all: the longest run of its first frames that fit and are objects of permitted
    types. Every one of the frames is handed on exactly when every one is such a frame.
  */
  lemma AllHandedOnIff(parse: JsonParse, limits: Limits, frames: seq<string>, n: nat)
    requires n <= |frames|
    ensures |Deliver(Guarded(parse, limits), frames).messages| >= n <==>
            forall k {:trigger frames[k]} :: 0 <= k < n ==>
              Fits(Guarded(parse, limits), frames[k]) && parse(frames[k]).Some? && parse(frames[k]).value.Obj?
              && Permitted(limits, parse(frames[k]).value)
  {
    hide Permitted, Deliver, Handle, Fits;
    var p := Guarded(parse, limits);
    DeliveredPrefix(p, frames);
    forall k | 0 <= k < |frames|
      ensures Handle(p, frames[k]).Ok? <==>
              Fits(p, frames[k]) && parse(frames[k]).Some? && parse(frames[k]).value.Obj? && Permitted(limits, parse(frames[k]).value)
    {
      if Handle(p, frames[k]).Ok? { HandedOnIff(parse, limits, frames[k], Handle(p, frames[k]).value); }
      if parse(frames[k]).Some? { HandedOnIff(parse, limits, frames[k], parse(frames[k]).value); }
    }
  }

  lemma {:induction false} DeliverPermitted(parse: JsonParse, limits: Limits, frames: seq<string>)
    ensures forall k :: 0 <= k < |Deliver(Guarded(parse, limits), frames).messages| ==>
              Permitted(limits, Deliver(Guarded(parse, limits), frames).messages[k])
  {
    if frames != [] { DeliverPermitted(parse, limits, frames[1..]); }
  }

  /** Over any chunks of any stream, only permitted messages are handed on; Assured never passes a reserved name. */
  lemma {:induction false} OnlyPermittedDelivered(parse: JsonParse, limits: Limits, d: Delimiter, c: Conn, chunks: seq<string>)
    requires forall k :: 0 <= k < |c.delivered| ==> Permitted(limits, c.delivered[k])
    ensures var e := Feed(Guarded(parse, limits), d, c, chunks);
            forall k :: 0 <= k < |e.delivered| ==> Permitted(limits, e.delivered[k])
    decreases |chunks|
  {
    hide Permitted, Cut, Deliver, ReadOutcome;
    if chunks != [] {
      var p := Guarded(parse, limits);
      if c.Open? {
        var messages := ReadMessages(p, d, c.buffer + chunks[0]);
        DeliverPermitted(parse, limits, Cut(c.buffer + chunks[0], d).frames);
        assert Receive(p, d, c, chunks[0]).delivered == c.delivered + messages;
      }
      OnlyPermittedDelivered(parse, limits, d, Receive(p, d, c, chunks[0]), chunks[1..]);
      assert Feed(p, d, c, chunks) == Feed(p, d, Receive(p, d, c, chunks[0]), chunks[1..]);
    } else {
      assert Feed(Guarded(parse, limits), d, c, chunks) == c;
    }
  }

  lemma {:induction false} ClosedStays(p: Policy, d: Delimiter, c: Conn, chunks: seq<string>)
    requires c.Closed?
    ensures Feed(p, d, c, chunks) == c
    decreases |chunks|
  {
    if chunks != [] { ClosedStays(p, d, c, chunks[1..]); }
  }

  lemma {:induction false} FeedExtends(p: Policy, d: Delimiter, c: Conn, chunks: seq<string>)
    ensures c.delivered <= Feed(p, d, c, chunks).delivered
    decreases |chunks|
  {
    if chunks != [] { FeedExtends(p, d, Receive(p, d, c, chunks[0]), chunks[1..]); }
  }

  // ----- what each error means -----

  /** The event name of a message, when it is a string at all. */
  function NameOf(v: Json): Option<string> {
    match Field(v, "type")
    case Some(Str(name)) => Some(name)
    case _ => None
  }

  /** The frame is inside the limit and an object whose type is a non-empty string. */
  predicate IsNamed(p: Policy, frame: string) {
    Fits(p, frame) && p.parse(frame).Some? && p.parse(frame).value.Obj? && NameOf(p.parse(frame).value) !in {None, Some("")}
  }

  predicate IsShort(limits: Limits, name: string) {
    limits.maxEventNameLength.Allows(Units(name))
  }

  predicate IsClosedTo(limits: Limits, name: string) {
    name in RESERVED && (!limits.allowReservedEvents || limits.allowedEvents.Some?)
  }

  /** Which frames are refused, and with which code, for every frame there is. */
  lemma RefusalCodes(parse: JsonParse, limits: Limits, frame: string)
    ensures var p := Guarded(parse, limits);
            var r, named := Handle(p, frame), IsNamed(p, frame);
            var name := if named then NameOf(parse(frame).value).value else "";
            && (r == Err(FrameTooLarge) <==> !Fits(p, frame))
            && (r == Err(InvalidJson) <==> Fits(p, frame) && parse(frame).None?)
            && (r == Err(InvalidMessage) <==> Fits(p, frame) && parse(frame).Some? && !parse(frame).value.Obj?)
            && (r == Err(EventTooLarge) <==> named && !IsShort(limits, name))
            && (r == Err(InvalidEvent) <==>
                (Fits(p, frame) && parse(frame).Some? && parse(frame).value.Obj? && !named)
                || (named && IsShort(limits, name) && name in UNSAFE))
            && (r == Err(ReservedEvent) <==> named && IsShort(limits, name) && name !in UNSAFE && IsClosedTo(limits, name))
            && (r == Err(EventNotAllowed) <==>
                named && IsShort(limits, name) && name !in UNSAFE && !IsClosedTo(limits, name)
                && limits.allowedEvents.Some? && name !in limits.allowedEvents.value)
  {
    hide Bytes, Units;
  }

  // ----- encoding and the round trip -----

  datatype Event = Event(kind: string, data: Json)

  function Envelope(e: Event): Json {
    Obj([Member("type", Str(e.kind)), Member("data", e.data)])
  }

  /** Bytes of an encoded frame without its delimiter. */
  function FrameBytes(frame: string, d: Delimiter): nat {
    var n := Bytes(frame) - Bytes(d);
    if n < 0 then 0 else n
  }

  /** encode: the Fast parser accepts every event, the others check the type, then the size. */
  function Encode(p: Policy, d: Delimiter, e: Event): Result<string, Code> {
    var frame := Stringify(Envelope(e)) + d;
    if p.Fast? then Ok(frame)
    else match ValidateType(p.limits, Some(Str(e.kind)))
      case Some(code) => Err(code)
      case None =>
        if p.limits.maxMessageSize.Allows(FrameBytes(frame, d)) then Ok(frame) else Err(FrameTooLarge)
  }

  ghost predicate AllEncode(p: Policy, d: Delimiter, es: seq<Event>) {
    forall k :: 0 <= k < |es| ==> Encode(p, d, es[k]).Ok?
  }

  function EncodeAll(p: Policy, d: Delimiter, es: seq<Event>): (r: seq<string>)
    requires AllEncode(p, d, es)
    ensures |r| == |es|
  {
    if es == [] then [] else [Encode(p, d, es[0]).value] + EncodeAll(p, d, es[1..])
  }

  function Envelopes(es: seq<Event>): seq<Json> {
    if es == [] then [] else [Envelope(es[0])] + Envelopes(es[1..])
  }

  function Texts(es: seq<Event>): (r: seq<string>)
    ensures |r| == |es|
    ensures forall k :: 0 <= k < |r| ==> r[k] == Stringify(Envelope(es[k]))
  {
    if es == [] then [] else [Stringify(Envelope(es[0]))] + Texts(es[1..])
  }

  /** An encoded event travels when its text parses back and the delimiter first occurs at its end. */
  ghost predicate Travels(p: Policy, d: Delimiter, e: Event) {
    && Encode(p, d, e).Ok?
    && p.parse(Stringify(Envelope(e))) == Some(Envelope(e))
    && Clean(Stringify(Envelope(e)), d)
  }

  /**
    What encode accepts: under Fast everything, otherwise what the reader would hand on. What it sends is the
    text of an object with the type and the data, and nothing else, before one delimiter.
  */
  lemma EncodeIff(p: Policy, d: Delimiter, e: Event)
    ensures Encode(p, d, e).Ok? <==> p.Fast? || (Permitted(p.limits, Envelope(e)) && Fits(p, Stringify(Envelope(e))))
    ensures Encode(p, d, e).Ok? ==> Encode(p, d, e).value == Stringify(Envelope(e)) + d
    ensures JsonReader.Read(Stringify(Envelope(e))) == Some(Envelope(e))
    ensures Envelope(e).Obj? && |Envelope(e).fields| == 2
    ensures Field(Envelope(e), "type") == Some(Str(e.kind)) && Field(Envelope(e), "data") == Some(e.data)
  {
    hide Stringify, Bytes, Units, JsonReader.Read;
    BytesAppend(Stringify(Envelope(e)), d);
    JsonReader.ReadStringify(Envelope(e));
    EnvelopeFields(e);
  }

  lemma EnvelopeFields(e: Event)
    ensures Field(Envelope(e), "type") == Some(Str(e.kind)) && Field(Envelope(e), "data") == Some(e.data)
  {
    var fields := Envelope(e).fields;
    assert fields[..1] == [Member("type", Str(e.kind))];
    assert Field(Envelope(e), "type") == LastField(fields[..1], "type");
  }

  lemma HandleEncoded(p: Policy, d: Delimiter, e: Event)
    requires Travels(p, d, e)
    ensures Handle(p, Stringify(Envelope(e))) == Ok(Envelope(e))
  {
    var text := Stringify(Envelope(e));
    BytesAppend(text, d);
    var fields := Envelope(e).fields;
    assert fields[..1] == [Member("type", Str(e.kind))];
    assert Field(Envelope(e), "type") == LastField(fields[..1], "type") == Some(Str(e.kind));
  }

  lemma {:induction false} EncodedStream(p: Policy, d: Delimiter, es: seq<Event>)
    requires AllEncode(p, d, es)
    requires forall k :: 0 <= k < |es| ==> Travels(p, d, es[k])
    ensures Cut(Concat(EncodeAll(p, d, es)), d) == Parts(Texts(es), "")
    ensures Deliver(p, Texts(es)) == Delivery(Envelopes(es), None)
  {
    if es != [] {
      var text, tail := Stringify(Envelope(es[0])), Concat(EncodeAll(p, d, es[1..]));
      EncodedStream(p, d, es[1..]);
      HandleEncoded(p, d, es[0]);
      assert Concat(EncodeAll(p, d, es)) == text + d + tail;
      CutFrame(text, tail, d);
      assert Texts(es)[1..] == Texts(es[1..]);
    }
  }

  /**
    Whatever events one side encodes, the other side, reading the concatenated frames in any chunks,
    hands on exactly those events and keeps nothing: if and only if every frame leaves room for a
    partial delimiter. For Fast every frame does.
  */
  lemma RoundTripIff(p: Policy, d: Delimiter, es: seq<Event>)
    requires AllEncode(p, d, es)
    requires forall k :: 0 <= k < |es| ==> Travels(p, d, es[k])
    ensures (forall k {:trigger es[k]} :: 0 <= k < |es| ==> LeavesRoom(p, d, Stringify(Envelope(es[k])))) <==>
            forall chunks: seq<string> :: Concat(chunks) == Concat(EncodeAll(p, d, es)) ==>
              Feed(p, d, FRESH, chunks) == Open(Envelopes(es), "")
  {
    hide Feed, Receive, EncodeAll, Stringify, LeavesRoom, Roomy;
    var s := Concat(EncodeAll(p, d, es));
    WholeStream(p, d, es);
    RoomyStream(p, d, es);
    if Roomy(p, d, s) {
      forall chunks: seq<string> | Concat(chunks) == s ensures Feed(p, d, FRESH, chunks) == Open(Envelopes(es), "") {
        RoomyFeed(p, d, chunks);
      }
    } else {
      if p.Fast? { FastIsRoomy(p, d, s); }
      var chunks := BadChunks(p, d, s);
    }
  }

  lemma WholeStream(p: Policy, d: Delimiter, es: seq<Event>)
    requires AllEncode(p, d, es)
    requires forall k :: 0 <= k < |es| ==> Travels(p, d, es[k])
    ensures Receive(p, d, FRESH, Concat(EncodeAll(p, d, es))) == Open(Envelopes(es), "")
  {
    hide Cut, Deliver, Stringify, EncodeAll, Concat;
    var s := Concat(EncodeAll(p, d, es));
    EncodedStream(p, d, es);
    assert "" + s == s && [] + Envelopes(es) == Envelopes(es);
  }

  lemma RoomyFeed(p: Policy, d: Delimiter, chunks: seq<string>)
    requires Roomy(p, d, Concat(chunks))
    ensures Feed(p, d, FRESH, chunks) == Receive(p, d, FRESH, Concat(chunks))
  {
    assert "" + Concat(chunks) == Concat(chunks);
    FeedIsOneReceive(p, d, FRESH, chunks);
  }

  lemma FastIsRoomy(p: Policy, d: Delimiter, s: string)
    requires p.Fast?
    ensures Roomy(p, d, s)
  {
  }

  lemma RoomyStream(p: Policy, d: Delimiter, es: seq<Event>)
    requires AllEncode(p, d, es)
    requires forall k :: 0 <= k < |es| ==> Travels(p, d, es[k])
    ensures Roomy(p, d, Concat(EncodeAll(p, d, es))) <==>
            forall k {:trigger es[k]} :: 0 <= k < |es| ==> LeavesRoom(p, d, Stringify(Envelope(es[k])))
  {
    hide Cut, Deliver, Stringify, LeavesRoom;
    var texts := Texts(es);
    EncodedStream(p, d, es);
    forall k | 0 <= k < |es| ensures Deliver(p, texts[..k]).error.None? && texts[k] == Stringify(Envelope(es[k])) {
      assert texts == texts[..k] + texts[k..];
      DeliverAppend(p, texts[..k], texts[k..]);
    }
  }

  /** The default delimiter, form feed, cannot occur in JSON text: only the parser's inverse law is left to ask. */
  lemma DefaultDelimiterRoundTrip(p: Policy, es: seq<Event>, chunks: seq<string>)
    requires AllEncode(p, "\U{0C}", es)
    requires forall k :: 0 <= k < |es| ==> p.parse(Stringify(Envelope(es[k]))) == Some(Envelope(es[k]))
    requires Concat(chunks) == Concat(EncodeAll(p, "\U{0C}", es))
    ensures Feed(p, "\U{0C}", FRESH, chunks) == Open(Envelopes(es), "")
  {
    var d := "\U{0C}";
    forall k | 0 <= k < |es| ensures Travels(p, d, es[k]) && LeavesRoom(p, d, Stringify(Envelope(es[k]))) {
      var text := Stringify(Envelope(es[k]));
      StringifyPrintable(Envelope(es[k]));
      forall i | 0 <= i < |text| ensures !OccursAt(text + d, d, i) {
        assert (text + d)[i] == text[i];
        assert (text + d)[i..i + 1][0] == text[i] != d[0];
      }
      assert text + d[..0] == text;
    }
    RoundTripIff(p, d, es);
  }

  // ----- the round trip with a real reader -----

  /** The policy parses with the reader of JSON text. */
  ghost predicate ReadsJson(p: Policy) {
    forall text :: p.parse(text) == JsonReader.Read(text)
  }

  /**
    With it nothing is left to ask of the parser: under any delimiter that does not occur early in the frames,
    the round trip holds under every chunking if and only if every frame leaves room for a partial delimiter.
  */
  lemma ReaderRoundTripIff(p: Policy, d: Delimiter, es: seq<Event>)
    requires ReadsJson(p) && AllEncode(p, d, es) && forall k :: 0 <= k < |es| ==> Clean(Stringify(Envelope(es[k])), d)
    ensures (forall k {:trigger es[k]} :: 0 <= k < |es| ==> LeavesRoom(p, d, Stringify(Envelope(es[k])))) <==>
            forall chunks: seq<string> :: Concat(chunks) == Concat(EncodeAll(p, d, es)) ==>
              Feed(p, d, FRESH, chunks) == Open(Envelopes(es), "")
  {
    hide Feed, EncodeAll, Stringify, LeavesRoom, Encode, Clean, JsonReader.Read;
    forall k | 0 <= k < |es| ensures Travels(p, d, es[k]) { JsonReader.ReadStringify(Envelope(es[k])); }
    RoundTripIff(p, d, es);
  }

  /** And with the default delimiter nothing at all: whatever encode accepts arrives, in any chunks, and only that. */
  lemma DefaultRoundTrip(p: Policy, es: seq<Event>, chunks: seq<string>)
    requires ReadsJson(p) && AllEncode(p, "\U{0C}", es) && Concat(chunks) == Concat(EncodeAll(p, "\U{0C}", es))
    ensures Feed(p, "\U{0C}", FRESH, chunks) == Open(Envelopes(es), "")
  {
    hide Feed, EncodeAll, Stringify, Encode, JsonReader.Read;
    forall k | 0 <= k < |es| ensures p.parse(Stringify(Envelope(es[k]))) == Some(Envelope(es[k])) {
      JsonReader.ReadStringify(Envelope(es[k]));
    }
    DefaultDelimiterRoundTrip(p, es, chunks);
  }
}
