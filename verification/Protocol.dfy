/** The benchmark messages and their sequence numbers (benchmark/competitors/protocol.js). */
module Protocol {
  import opened Common
  import opened Json

  const MAX_SEQUENCE: int := 0xffff_ffff

  // Buffer.byteLength of {"payload":"","sequence":"00000000"}
  const ENVELOPE_BYTES: nat := 36

  // ----- sequence numbers -----

  /** Number.prototype.toString(16) */
  function Hex(n: nat): (r: string)
    ensures |r| >= 1
  {
    if n < 16 then [Digit(n)] else Hex(n / 16) + [Digit(n % 16)]
  }

  function Zeros(k: nat): (r: string)
    ensures |r| == k
  {
    seq(k, _ => '0')
  }

  /** padStart(8, '0') of the hexadecimal text */
  function Hex8(n: nat): string {
    var h := Hex(n);
    if |h| < 8 then Zeros(8 - |h|) + h else h
  }

  function SequenceValue(sequence: int): Option<string> {
    if !IsSafeInteger(sequence) || sequence < 0 || sequence > MAX_SEQUENCE then None else Some(Hex8(sequence))
  }

  predicate IsHexDigit(c: char) {
    '0' <= c <= '9' || 'a' <= c <= 'f'
  }

  /** The pattern of eight hexadecimal digits */
  predicate IsSequence(s: string) {
    |s| == 8 && forall i :: 0 <= i < 8 ==> IsHexDigit(s[i])
  }

  function DigitValue(c: char): nat {
    if '0' <= c <= '9' then c as int - '0' as int else if 'a' <= c <= 'f' then c as int - 'a' as int + 10 else 0
  }

  /** Reading hexadecimal text back */
  function HexRead(s: string): nat {
    if s == "" then 0 else 16 * HexRead(s[..|s| - 1]) + DigitValue(s[|s| - 1])
  }

  function Pow16(k: nat): nat {
    if k == 0 then 1 else 16 * Pow16(k - 1)
  }

  lemma DigitFacts(d: nat)
    requires d < 16
    ensures IsHexDigit(Digit(d)) && DigitValue(Digit(d)) == d
  {
  }

  lemma {:induction false} HexFacts(n: nat, k: nat)
    requires k >= 1 && n < Pow16(k)
    ensures |Hex(n)| <= k
    ensures forall i :: 0 <= i < |Hex(n)| ==> IsHexDigit(Hex(n)[i])
    ensures HexRead(Hex(n)) == n
    decreases n
  {
    hide Digit, DigitValue, IsHexDigit;
    DigitFacts(n % 16);
    if n < 16 {
      assert Hex(n)[..0] == "";
    } else {
      assert Pow16(1) == 16;
      HexFacts(n / 16, k - 1);
      assert Hex(n)[..|Hex(n)| - 1] == Hex(n / 16);
    }
  }

  lemma {:induction false} LeadingZeros(k: nat, s: string)
    ensures HexRead(Zeros(k) + s) == HexRead(s)
    decreases |s| + k
  {
    if s == "" {
      assert Zeros(k) + s == Zeros(k);
      if k > 0 {
        assert Zeros(k)[..k - 1] == Zeros(k - 1);
        LeadingZeros(k - 1, "");
        assert Zeros(k - 1) + "" == Zeros(k - 1);
      }
    } else {
      LeadingZeros(k, s[..|s| - 1]);
      assert (Zeros(k) + s)[..|Zeros(k) + s| - 1] == Zeros(k) + s[..|s| - 1];
    }
  }

  lemma EightDigits()
    ensures Pow16(8) == 0x1_0000_0000
  {
    assert Pow16(2) == 256 && Pow16(4) == 65536;
    assert Pow16(6) == 0x100_0000;
  }

  lemma ZeroIsDigit()
    ensures IsHexDigit('0')
  {
  }

  /** A sequence number's text is eight hexadecimal digits, and reads back to the number. */
  lemma SequenceRoundTrip(n: nat)
    requires n <= MAX_SEQUENCE
    ensures SequenceValue(n) == Some(Hex8(n)) && IsSequence(Hex8(n)) && HexRead(Hex8(n)) == n
  {
    hide Hex, HexRead, Pow16, IsHexDigit;
    EightDigits();
    HexFacts(n, 8);
    LeadingZeros(8 - |Hex(n)|, Hex(n));
    ZeroIsDigit();
    assert Zeros(0) + Hex(n) == Hex(n);
  }

  // ----- messages -----

  function Xs(n: nat): (r: string)
    ensures |r| == n
  {
    seq(n, _ => 'x')
  }

  /** The message of the factory for `bytes`, carrying a sequence text. */
  function BenchMessage(bytes: nat, sequence: string): Json
    requires bytes >= ENVELOPE_BYTES
  {
    Obj([Member("payload", Str(Xs(bytes - ENVELOPE_BYTES))), Member("sequence", Str(sequence))])
  }

  function Head(): string { "{\"payload\":\"" }
  function Middle(): string { "\",\"sequence\":\"" }
  function Tail(): string { "\"}" }

  lemma MessageText(bytes: nat, sequence: string)
    requires bytes >= ENVELOPE_BYTES && IsSequence(sequence)
    ensures Stringify(BenchMessage(bytes, sequence)) == Head() + Xs(bytes - ENVELOPE_BYTES) + Middle() + sequence + Tail()
  {
    hide EscapeAll, Quote, Fields;
    var xs := Xs(bytes - ENVELOPE_BYTES);
    var a, b := Member("payload", Str(xs)), Member("sequence", Str(sequence));
    assert BenchMessage(bytes, sequence).fields == [a] + [b];
    MoreMembers(a, [b]);
    OneMember(b);
    PlainQuote(xs);
    PlainQuote(sequence);
    PlainQuote("payload");
    PlainQuote("sequence");
    Pieces(xs, sequence);
  }

  lemma Pieces(xs: string, sequence: string)
    ensures "{" + ("\"" + "payload" + "\"" + ":" + ("\"" + xs + "\"") + "," + ("\"" + "sequence" + "\"" + ":" + ("\"" + sequence + "\""))) + "}"
         == Head() + xs + Middle() + sequence + Tail()
  {
    hide Head, Middle, Tail;
    MemberTexts(xs, sequence);
    Regroup("\"payload\":\"", "\"sequence\":\"", xs, sequence);
    PieceTexts();
  }

  lemma MemberTexts(xs: string, sequence: string)
    ensures "\"" + "payload" + "\"" + ":" + ("\"" + xs + "\"") == "\"payload\":\"" + xs + "\""
    ensures "\"" + "sequence" + "\"" + ":" + ("\"" + sequence + "\"") == "\"sequence\":\"" + sequence + "\""
  {
  }

  lemma Regroup(a: string, b: string, xs: string, sequence: string)
    ensures "{" + (a + xs + "\"" + "," + (b + sequence + "\"")) + "}"
         == ("{" + a) + xs + ("\"" + "," + b) + sequence + ("\"" + "}")
  {
  }

  lemma PieceTexts()
    ensures "{" + "\"payload\":\"" == Head()
    ensures "\"" + "," + "\"sequence\":\"" == Middle()
    ensures "\"" + "}" == Tail()
  {
  }

  /** The factory's messages are ASCII and have exactly the size asked for, whatever the sequence number. */
  lemma MessageSize(bytes: nat, sequence: string)
    requires bytes >= ENVELOPE_BYTES && IsSequence(sequence)
    ensures var text := Stringify(BenchMessage(bytes, sequence)); IsAscii(text) && |text| == Bytes(text) == bytes
    ensures Field(BenchMessage(bytes, sequence), "sequence") == Some(Str(sequence))
  {
    hide Stringify, Bytes;
    MessageText(bytes, sequence);
    AsciiBytes(Stringify(BenchMessage(bytes, sequence)));
    assert IsAscii(Head()) && IsAscii(Middle()) && IsAscii(Tail());
  }
}
