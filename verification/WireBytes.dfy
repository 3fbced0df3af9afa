/** The expected traffic of a benchmark run (benchmark/rust/lib.js, lines 60-73). */
module WireBytes {
  import opened Common
  import opened Json
  import opened Fragments
  import Framing

  /** One frame on the wire: the event envelope and its delimiter. */
  function Frame(kind: string, sequence: nat, payload: string): string {
    Stringify(Obj([Member("type", Str(kind)),
                   Member("data", Obj([Member("sequence", Num(sequence)), Member("payload", Str(payload))]))])) + "\U{0C}"
  }

  /** It is the frame that encode sends for the event, with the default delimiter. */
  lemma FrameIsEncoded(kind: string, sequence: nat, payload: string, parse: Framing.JsonParse)
    ensures var data := Obj([Member("sequence", Num(sequence)), Member("payload", Str(payload))]);
            Framing.Encode(Framing.Fast(parse), "\U{0C}", Framing.Event(kind, data)) == Ok(Frame(kind, sequence, payload))
  {
    hide Stringify;
  }

  const REQUEST: string := "node-ipc.bench.request"
  const RESPONSE: string := "node-ipc.bench.response"

  function Payload(n: nat): string {
    seq(n, _ => 'x')
  }

  /** The bytes of request and response frames for the sequences 0 .. count - 1, added up one by one. */
  function WireSum(count: nat, payload: string): nat {
    if count == 0 then 0
    else WireSum(count - 1, payload) + Bytes(Frame(REQUEST, count - 1, payload)) + Bytes(Frame(RESPONSE, count - 1, payload))
  }

  // ----- frames differ by the digits of their sequence -----

  lemma FrameText(kind: string, sequence: nat, payload: string)
    ensures Frame(kind, sequence, payload) == Before(kind) + Decimal(sequence) + Behind(payload)
  {
    hide Quote, Decimal, Fields;
    var s, p := Member("sequence", Num(sequence)), Member("payload", Str(payload));
    var data := Obj([s] + [p]);
    var t, d := Member("type", Str(kind)), Member("data", data);
    assert [s] + [p] == [s, p] && [t] + [d] == [t, d];
    MoreMembers(s, [p]);
    OneMember(p);
    MoreMembers(t, [d]);
    OneMember(d);
    assert Stringify(data) == "{" + (Quote("sequence") + ":" + Decimal(sequence) + "," + (Quote("payload") + ":" + Quote(payload))) + "}";
    Regroup(Quote("type") + ":" + Quote(kind) + ",", Quote("data") + ":", Quote("sequence") + ":", Decimal(sequence), Quote("payload") + ":" + Quote(payload));
  }

  function Before(kind: string): string {
    "{" + (Quote("type") + ":" + Quote(kind) + ",") + (Quote("data") + ":") + "{" + (Quote("sequence") + ":")
  }

  function Behind(payload: string): string {
    "," + (Quote("payload") + ":" + Quote(payload)) + "}" + "}" + "\U{0C}"
  }

  lemma Regroup(a: string, b: string, c: string, digits: string, p: string)
    ensures "{" + (a + (b + ("{" + (c + digits + "," + p) + "}"))) + "}" + "\U{0C}"
         == "{" + a + b + "{" + c + digits + ("," + p + "}" + "}" + "\U{0C}")
  {
  }

  lemma {:induction false} DecimalIsAscii(n: nat)
    ensures IsAscii(Decimal(n)) && Bytes(Decimal(n)) == |Decimal(n)|
  {
    AsciiBytes(Decimal(n));
  }

  lemma FrameSize(kind: string, sequence: nat, payload: string)
    ensures Bytes(Frame(kind, sequence, payload)) == Bytes(Frame(kind, 0, payload)) + |Decimal(sequence)| - 1
  {
    hide Bytes, Frame, Before, Behind;
    forall n: nat ensures Bytes(Frame(kind, n, payload)) == Bytes(Before(kind)) + |Decimal(n)| + Bytes(Behind(payload)) {
      FrameText(kind, n, payload);
      DecimalIsAscii(n);
      BytesAppend(Before(kind) + Decimal(n), Behind(payload));
      BytesAppend(Before(kind), Decimal(n));
    }
    assert |Decimal(0)| == 1;
  }

  // ----- digits across powers of ten -----

  /** The digits beyond the first, over all sequences below n. */
  function ExtraDigits(n: nat): nat {
    if n == 0 then 0 else ExtraDigits(n - 1) + |Decimal(n - 1)| - 1
  }

  lemma {:induction false} DigitCount(n: nat, k: nat)
    requires (k == 0 || Pow10(k) <= n) && n < Pow10(k + 1)
    ensures |Decimal(n)| == k + 1
    decreases k
  {
    if k == 0 {
      assert Pow10(1) == 10;
    } else {
      assert Pow10(k) >= 10 by { Pow10Positive(k - 1); }
      DigitCount(n / 10, k - 1);
    }
  }

  lemma {:induction false} Pow10Positive(k: nat)
    ensures Pow10(k) >= 1
  {
    if k > 0 { Pow10Positive(k - 1); }
  }

  /** Sequences from a to b that all have k + 1 digits. */
  lemma {:induction false} DigitRange(a: nat, b: nat, k: nat)
    requires a <= b <= Pow10(k + 1) && (k == 0 || Pow10(k) <= a)
    ensures ExtraDigits(b) == ExtraDigits(a) + (b - a) * k
    decreases b - a
  {
    hide Pow10, Decimal;
    if a < b {
      DigitRange(a, b - 1, k);
      DigitCount(b - 1, k);
      assert (b - a) * k == (b - 1 - a) * k + k;
    }
  }

  lemma {:induction false} SumIsClosed(count: nat, payload: string)
    ensures WireSum(count, payload)
         == count * (Bytes(Frame(REQUEST, 0, payload)) + Bytes(Frame(RESPONSE, 0, payload))) + 2 * ExtraDigits(count)
    decreases count
  {
    hide Bytes, Frame, Decimal;
    if count > 0 {
      SumIsClosed(count - 1, payload);
      FrameSize(REQUEST, count - 1, payload);
      FrameSize(RESPONSE, count - 1, payload);
      var base := Bytes(Frame(REQUEST, 0, payload)) + Bytes(Frame(RESPONSE, 0, payload));
      assert count * base == (count - 1) * base + base;
    }
  }

  /** expectedWireBytes: one pass over the powers of ten gives the sum over all frames. */
  method ExpectedWireBytes(count: nat, payloadBytes: nat) returns (total: nat)
    ensures total == WireSum(count, Payload(payloadBytes))
  {
    hide Bytes, Frame, Decimal;
    var payload := Payload(payloadBytes);
    var base := Bytes(Frame(REQUEST, 0, payload)) + Bytes(Frame(RESPONSE, 0, payload));
    var extra := 0;
    var start, digits := 10, 1;
    assert Pow10(1) == 10;
    DigitRange(0, Min(count, 10), 0);
    while start < count
      invariant digits >= 1 && start == Pow10(digits) && start >= 10
      invariant extra == ExtraDigits(Min(count, start))
      decreases count - start
    {
      var end := Min(count, start * 10);
      DigitRange(start, end, digits);
      extra := extra + (end - start) * digits;
      if end == count { break; }
      start := start * 10;
      digits := digits + 1;
    }
    SumIsClosed(count, payload);
    total := count * base + 2 * extra;
  }
}
