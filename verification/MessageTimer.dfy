/**
  The incomplete-message timer of a Guarded connection (dao/client.js, lines 232-289, and the same code
  in dao/socketServer.js, lines 332-350 and 381-408).
*/
module MessageTimer {
  import opened Common
  import opened Json
  import opened Split
  import opened Framing

  /** A chunk and the time it is read at. */
  datatype Read = Read(at: nat, chunk: string)

  /** One socket: its retained text, when its running timer was started, and whether it has been destroyed. */
  datatype State = State(buffer: string, timer: Option<nat>, destroyed: bool)

  const FRESH_SOCKET: State := State("", None, false)

  /** receiveGuarded: after a read the timer runs if text is retained, and is not restarted while it runs. */
  function ReceiveStep(p: Policy, d: Delimiter, s: State, r: Read): State {
    if s.destroyed then s
    else match ReadOutcome(p, d, s.buffer + r.chunk)
      case Threw(_) => State("", None, true)
      case Kept("") => State("", None, false)
      case Kept(b) => State(b, if s.timer.Some? then s.timer else Some(r.at), false)
  }

  class StreamSocket {
    const parse: JsonParse
    const limits: Limits
    const delimiter: Delimiter
    var ipcBuffer: string
    var ipcMessageTimer: Option<nat>
    var destroyed: bool
    var delivered: seq<Json>

    function View(): State
      reads this
    {
      State(ipcBuffer, ipcMessageTimer, destroyed)
    }

    constructor (parse: JsonParse, limits: Limits, delimiter: Delimiter)
      ensures this.parse == parse && this.limits == limits && this.delimiter == delimiter
      ensures View() == FRESH_SOCKET && delivered == []
    {
      this.parse, this.limits, this.delimiter := parse, limits, delimiter;
      ipcBuffer, ipcMessageTimer, destroyed, delivered := "", None, false, [];
    }

    method StartMessageTimer(now: nat)
      modifies this`ipcMessageTimer
      ensures ipcMessageTimer == if old(ipcMessageTimer).Some? then old(ipcMessageTimer) else Some(now)
    {
      if ipcMessageTimer.Some? { return; }
      ipcMessageTimer := Some(now);
    }

    method ProtocolFailure()
      modifies this
      ensures View() == State("", None, true) && delivered == old(delivered)
    {
      ipcMessageTimer := None;
      ipcBuffer := "";
      destroyed := true;
    }

    method ReceiveGuarded(r: Read)
      modifies this
      ensures View() == ReceiveStep(Guarded(parse, limits), delimiter, old(View()), r)
      ensures delivered == if old(destroyed) then old(delivered)
                           else old(delivered) + ReadMessages(Guarded(parse, limits), delimiter, old(ipcBuffer) + r.chunk)
    {
      hide ReadMessages, ReadOutcome;
      if destroyed { return; }
      var messages, outcome := ReadGuarded(parse, limits, delimiter, ipcBuffer, r.chunk);
      delivered := delivered + messages;
      match outcome {
        case Threw(_) => ProtocolFailure();
        case Kept(b) => ipcBuffer := b;
      }
      if destroyed { return; }
      if ipcBuffer != "" {
        StartMessageTimer(r.at);
      } else {
        ipcMessageTimer := None;
      }
    }
  }

  // ----- runs -----

  function After(p: Policy, d: Delimiter, log: seq<Read>): State
    decreases |log|
  {
    if log == [] then FRESH_SOCKET else ReceiveStep(p, d, After(p, d, log[..|log| - 1]), log[|log| - 1])
  }

  /** When the first character of the retained text was read. */
  function HeldSince(p: Policy, d: Delimiter, log: seq<Read>): nat
    decreases |log|
  {
    if log == [] then 0
    else
      var r, before := log[|log| - 1], After(p, d, log[..|log| - 1]);
      if before.buffer == "" || Cut(before.buffer + r.chunk, d).frames != [] then r.at
      else HeldSince(p, d, log[..|log| - 1])
  }

  /** Read k completes no frame. */
  predicate CompletesNothing(p: Policy, d: Delimiter, log: seq<Read>, k: nat)
    requires k < |log|
  {
    Cut(After(p, d, log[..k]).buffer + log[k].chunk, d).frames == []
  }

  predicate TimesIncrease(log: seq<Read>) {
    forall j, k :: 0 <= j < k < |log| ==> log[j].at < log[k].at
  }

  lemma AfterPrefix(p: Policy, d: Delimiter, log: seq<Read>, n: nat)
    requires n < |log|
    ensures log[..n + 1][..n] == log[..n] && After(p, d, log[..n + 1]) == ReceiveStep(p, d, After(p, d, log[..n]), log[n])
  {
    assert log[..n + 1][..n] == log[..n];
  }

  function ChunksOf(log: seq<Read>): seq<string> {
    seq(|log|, k requires 0 <= k < |log| => log[k].chunk)
  }

  lemma {:induction false} FeedLast(p: Policy, d: Delimiter, c: Conn, chunks: seq<string>, last: string)
    ensures Feed(p, d, c, chunks + [last]) == Receive(p, d, Feed(p, d, c, chunks), last)
    decreases |chunks|
  {
    hide Receive;
    if chunks == [] {
      assert chunks + [last] == [last] && [last][1..] == [];
      assert Feed(p, d, c, [last]) == Feed(p, d, Receive(p, d, c, last), []);
    } else {
      assert (chunks + [last])[1..] == chunks[1..] + [last];
      FeedLast(p, d, Receive(p, d, c, chunks[0]), chunks[1..], last);
    }
  }

  /**
    The timer apart, the socket is a framed connection fed the same chunks: it is destroyed exactly when
    that connection was closed by an error, and retains the same text until then.
  */
  lemma {:induction false} SocketFollowsFraming(p: Policy, d: Delimiter, log: seq<Read>)
    ensures var s, c := After(p, d, log), Feed(p, d, FRESH, ChunksOf(log));
            (s.destroyed <==> c.Closed?) && s.buffer == (if c.Open? then c.buffer else "") && (s.destroyed ==> s.timer.None?)
    decreases |log|
  {
    hide ReadOutcome, ReadMessages, Feed;
    if log == [] {
      NothingFed(p, d);
    } else {
      var n := |log| - 1;
      SocketFollowsFraming(p, d, log[..n]);
      FeedLast(p, d, FRESH, ChunksOf(log[..n]), log[n].chunk);
      assert ChunksOf(log) == ChunksOf(log[..n]) + [log[n].chunk];
    }
  }

  lemma NothingFed(p: Policy, d: Delimiter)
    ensures Feed(p, d, FRESH, ChunksOf([])) == FRESH
  {
  }

  /** The read that started the running timer: everything from it on left text behind. */
  ghost predicate StartedBy(p: Policy, d: Delimiter, log: seq<Read>, n: nat, k: nat)
    requires n <= |log|
  {
    && k < n && After(p, d, log[..n]).timer == Some(log[k].at)
    && After(p, d, log[..k]).buffer == ""
    && forall j :: k < j <= n ==> After(p, d, log[..j]).buffer != ""
  }

  lemma NothingRead(p: Policy, d: Delimiter, log: seq<Read>)
    ensures After(p, d, log[..0]) == FRESH_SOCKET
  {
  }

  /** While the socket lives, the timer runs exactly while text is retained, and since it last became non-empty. */
  lemma {:induction false} TimerRuns(p: Policy, d: Delimiter, log: seq<Read>, n: nat)
    requires n <= |log| && !After(p, d, log[..n]).destroyed
    ensures var s := After(p, d, log[..n]);
            && (s.timer.Some? <==> s.buffer != "")
            && (s.timer.Some? ==> exists k :: StartedBy(p, d, log, n, k))
    decreases n
  {
    hide ReadOutcome, After;
    if n == 0 {
      NothingRead(p, d, log);
    } else {
      AfterPrefix(p, d, log, n - 1);
      TimerRuns(p, d, log, n - 1);
      var s, t := After(p, d, log[..n - 1]), After(p, d, log[..n]);
      if t.timer.Some? {
        if s.timer.Some? {
          var k :| StartedBy(p, d, log, n - 1, k);
          assert StartedBy(p, d, log, n, k);
        } else {
          assert StartedBy(p, d, log, n, n - 1);
        }
      }
    }
  }

  /**
    The timer is meant for an incomplete message, but it is not restarted when a message completes and
    another begins in the same read. It measures the time of the text actually retained if and only if
    no read after the one that started it completed a frame.
  */
  lemma {:induction false} TimerMeasuresIff(p: Policy, d: Delimiter, log: seq<Read>, n: nat, k: nat)
    requires n <= |log| && TimesIncrease(log) && !After(p, d, log[..n]).destroyed
    requires StartedBy(p, d, log, n, k)
    ensures log[k].at <= HeldSince(p, d, log[..n])
    ensures log[k].at == HeldSince(p, d, log[..n]) <==> forall j :: k < j < n ==> CompletesNothing(p, d, log, j)
    decreases n
  {
    hide ReadOutcome, Cut, After;
    AfterPrefix(p, d, log, n - 1);
    if k < n - 1 {
      assert After(p, d, log[..n - 1]).buffer != "" && log[..n][n - 1] == log[n - 1];
      TimerStays(p, d, log, n, k);
      TimerMeasuresIff(p, d, log, n - 1, k);
      assert log[k].at < log[n - 1].at;
      assert HeldSince(p, d, log[..n]) == if CompletesNothing(p, d, log, n - 1) then HeldSince(p, d, log[..n - 1]) else log[n - 1].at;
    }
  }

  lemma TimerStays(p: Policy, d: Delimiter, log: seq<Read>, n: nat, k: nat)
    requires n <= |log| && TimesIncrease(log) && !After(p, d, log[..n]).destroyed
    requires StartedBy(p, d, log, n, k) && k < n - 1
    ensures !After(p, d, log[..n - 1]).destroyed && StartedBy(p, d, log, n - 1, k)
  {
    hide ReadOutcome;
    AfterPrefix(p, d, log, n - 1);
    TimerRuns(p, d, log, n - 1);
  }

  /**
    It happens in two reads: a message arrives without its delimiter at time 0, and its delimiter with the
    beginning of another at time 5. What is retained is 5 time units younger than the running timer.
  */
  lemma TimerExpiresEarly(parse: JsonParse)
    requires parse(MINIMAL) == Some(MINIMAL_MESSAGE)
    ensures var p := Guarded(parse, Limits(Unlimited, Unlimited, false, None));
            var log := [Read(0, MINIMAL), Read(5, "\U{0C}{")];
            After(p, "\U{0C}", log) == State("{", Some(0), false) && HeldSince(p, "\U{0C}", log) == 5
  {
    hide Cut, Handle, Fits;
    var d: Delimiter := "\U{0C}";
    var p := Guarded(parse, Limits(Unlimited, Unlimited, false, None));
    var log := [Read(0, MINIMAL), Read(5, "\U{0C}{")];
    TwoReadsCut();
    MinimalAccepted(parse);
    assert log[..1] == [Read(0, MINIMAL)] && log[..1][..0] == [];
    assert "" + MINIMAL == MINIMAL;
    assert Deliver(p, [MINIMAL]) == Delivery([MINIMAL_MESSAGE], None) by { DeliverAppend(p, [MINIMAL], []); }
    assert Deliver(p, []) == Delivery([], None);
    assert After(p, d, log[..1]) == State(MINIMAL, Some(0), false) by { AfterPrefix(p, d, log, 0); }
  }

  lemma TwoReadsCut()
    ensures Cut(MINIMAL, "\U{0C}") == Parts([], MINIMAL)
    ensures Cut(MINIMAL + "\U{0C}{", "\U{0C}") == Parts([MINIMAL], "{")
  {
    hide Cut, Clean, NoOccurrence;
    var d: Delimiter := "\U{0C}";
    var first, both := Parts([], MINIMAL), Parts([MINIMAL], "{");
    assert both.frames[1..] == [] && Paste(Parts([], "{"), d) == "{";
    assert Paste(both, d) == MINIMAL + d + "{" == MINIMAL + "\U{0C}{";
    CleanWithout(MINIMAL, d);
    NothingOccurs(MINIMAL, d);
    NothingOccurs("{", d);
    PasteCuts(first, d);
    PasteCuts(both, d);
  }

  lemma MinimalAccepted(parse: JsonParse)
    requires parse(MINIMAL) == Some(MINIMAL_MESSAGE)
    ensures var p := Guarded(parse, Limits(Unlimited, Unlimited, false, None));
            Handle(p, MINIMAL) == Ok(MINIMAL_MESSAGE) && forall text :: Fits(p, text)
  {
    hide Handle, Bytes;
    MinimalFits(parse);
    SizeThenDecode(parse, Limits(AtMost(12), Unlimited, false, None), MINIMAL);
  }
}
