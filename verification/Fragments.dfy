/** UDP fragments, their limits and their checks (benchmark/competitors/lib/udp.js, lines 4-118). */
module Fragments {
  import opened Common
  import opened Json
  import opened Protocol

  const CHUNK_BYTES: nat := 1024
  const DATAGRAM_BYTES: nat := 1200
  const DATAGRAM_WINDOW: nat := 64
  const MAX_MESSAGE_BYTES: nat := 65536

  datatype UdpError =
    | BadMessageBytes | BadWindow | BadDirection | BadSequence | NotAscii
    | BadVersion | WrongDirection | BadByteCount | BadCount | BadIndex | BadChunk | BadChunkBytes
    | BadPeer | TooManyPending | MetadataChanged | ConflictingDuplicate
    | ByteCountMismatch | NotJson | SequenceMismatch

  datatype Fragment = Fragment(b: int, c: string, d: char, i: int, n: int, s: string, v: int)

  predicate LegalBytes(bytes: int) {
    1 <= bytes <= MAX_MESSAGE_BYTES
  }

  /** Math.ceil(bytes / 1024) */
  function FragmentCount(bytes: int): (r: nat)
    requires LegalBytes(bytes)
    ensures 1 <= r <= DATAGRAM_WINDOW
    ensures CHUNK_BYTES * (r - 1) < bytes <= CHUNK_BYTES * r
  {
    (bytes + CHUNK_BYTES - 1) / CHUNK_BYTES
  }

  function LogicalWindow(bytes: int, requested: int): Result<nat, UdpError> {
    if !IsSafeInteger(requested) || requested < 1 then Err(BadWindow)
    else if !LegalBytes(bytes) then Err(BadMessageBytes)
    else Ok(Max(1, Min(requested, DATAGRAM_WINDOW / FragmentCount(bytes))))
  }

  /** The window is the largest the request and the 64 outstanding datagrams allow. */
  lemma WindowIsLargest(bytes: int, requested: int)
    requires LegalBytes(bytes) && 1 <= requested <= MAX_SAFE
    ensures LogicalWindow(bytes, requested).Ok?
    ensures var w := LogicalWindow(bytes, requested).value;
            && 1 <= w <= requested
            && w * FragmentCount(bytes) <= DATAGRAM_WINDOW
            && (w < requested ==> (w + 1) * FragmentCount(bytes) > DATAGRAM_WINDOW)
  {
    var k := FragmentCount(bytes);
    var q := DATAGRAM_WINDOW / k;
    assert q * k <= DATAGRAM_WINDOW < (q + 1) * k;
    if requested < q {
      MulLe(requested, q, k);
    }
  }

  lemma LogicalWindowRefuses(bytes: int, requested: int)
    ensures LogicalWindow(bytes, requested) == Err(BadWindow) <==> !(1 <= requested <= MAX_SAFE)
    ensures LogicalWindow(bytes, requested) == Err(BadMessageBytes) <==> 1 <= requested <= MAX_SAFE && !LegalBytes(bytes)
  {
  }

  lemma MulLe(a: nat, b: nat, k: nat)
    requires a <= b
    ensures a * k <= b * k
  {
  }

  // ----- splitting a message -----

  /** Bytes carried by fragment i of a message of `bytes` bytes in n fragments. */
  function ChunkBytes(bytes: int, n: int, i: int): int {
    if i == n - 1 then bytes - CHUNK_BYTES * (n - 1) else CHUNK_BYTES
  }

  function ChunkOf(text: string, i: nat): string
    requires CHUNK_BYTES * i <= |text|
  {
    text[CHUNK_BYTES * i..Min(CHUNK_BYTES * (i + 1), |text|)]
  }

  function FragmentOf(text: string, direction: char, sequence: string, i: nat): Fragment
    requires LegalBytes(|text|) && i < FragmentCount(|text|)
  {
    Fragment(|text|, ChunkOf(text, i), direction, i, FragmentCount(|text|), sequence, 1)
  }

  function SequenceOf(message: Json): Option<string> {
    match Field(message, "sequence")
    case Some(Str(s)) => if IsSequence(s) then Some(s) else None
    case _ => None
  }

  function FragmentMessage(message: Json, direction: char): Result<seq<Fragment>, UdpError> {
    if direction != 'q' && direction != 'r' then Err(BadDirection)
    else if SequenceOf(message).None? then Err(BadSequence)
    else
      var text := Stringify(message);
      if Bytes(text) != |text| then Err(NotAscii)
      else if !LegalBytes(|text|) then Err(BadMessageBytes)
      else Ok(seq(FragmentCount(|text|), i requires 0 <= i < FragmentCount(|text|) =>
                  FragmentOf(text, direction, SequenceOf(message).value, i)))
  }

  /** assertFragment: the error thrown, if any. */
  function CheckFragment(f: Fragment, expected: Option<char>): Option<UdpError> {
    if f.v != 1 then Some(BadVersion)
    else if f.d != 'q' && f.d != 'r' then Some(BadDirection)
    else if expected.Some? && f.d != expected.value then Some(WrongDirection)
    else if !IsSequence(f.s) then Some(BadSequence)
    else if !LegalBytes(f.b) then Some(BadByteCount)
    else if f.n != FragmentCount(f.b) then Some(BadCount)
    else if f.i < 0 || f.i >= f.n then Some(BadIndex)
    else if Bytes(f.c) != |f.c| then Some(BadChunk)
    else if |f.c| != ChunkBytes(f.b, f.n, f.i) then Some(BadChunkBytes)
    else None
  }

  /** What a fragment must be like for a receiver that expects a direction, or any. */
  ghost predicate WellFormed(f: Fragment, expected: Option<char>) {
    && f.v == 1 && f.d in {'q', 'r'} && (expected.Some? ==> f.d == expected.value) && IsSequence(f.s)
    && 1 <= f.b <= MAX_MESSAGE_BYTES
    && CHUNK_BYTES * (f.n - 1) < f.b <= CHUNK_BYTES * f.n
    && 0 <= f.i < f.n
    && IsAscii(f.c) && |f.c| == Min(CHUNK_BYTES, f.b - CHUNK_BYTES * f.i)
  }

  lemma CountIsCeiling(b: int, n: int)
    requires LegalBytes(b)
    ensures n == FragmentCount(b) <==> CHUNK_BYTES * (n - 1) < b <= CHUNK_BYTES * n
  {
  }

  /** The checks pass exactly the well-formed fragments. */
  lemma CheckPassesIff(f: Fragment, expected: Option<char>)
    ensures CheckFragment(f, expected) == None <==> WellFormed(f, expected)
  {
    hide FragmentCount, IsSequence, Bytes;
    AsciiBytes(f.c);
    if LegalBytes(f.b) { CountIsCeiling(f.b, f.n); }
  }

  /** What a refused fragment is refused for: the first thing that is wrong with it. */
  lemma CheckRefusals(f: Fragment, expected: Option<char>)
    ensures var e := CheckFragment(f, expected);
            var direction := f.v == 1 && f.d in {'q', 'r'} && (expected.Some? ==> f.d == expected.value);
            var size := direction && IsSequence(f.s) && 1 <= f.b <= MAX_MESSAGE_BYTES;
            var place := size && CHUNK_BYTES * (f.n - 1) < f.b <= CHUNK_BYTES * f.n && 0 <= f.i < f.n;
            && (e == Some(BadVersion) <==> f.v != 1)
            && (e == Some(BadDirection) <==> f.v == 1 && f.d !in {'q', 'r'})
            && (e == Some(WrongDirection) <==> f.v == 1 && f.d in {'q', 'r'} && expected.Some? && f.d != expected.value)
            && (e == Some(BadSequence) <==> direction && !IsSequence(f.s))
            && (e == Some(BadByteCount) <==> direction && IsSequence(f.s) && !size)
            && (e == Some(BadCount) <==> size && !(CHUNK_BYTES * (f.n - 1) < f.b <= CHUNK_BYTES * f.n))
            && (e == Some(BadIndex) <==> size && CHUNK_BYTES * (f.n - 1) < f.b <= CHUNK_BYTES * f.n && !(0 <= f.i < f.n))
            && (e == Some(BadChunk) <==> place && !IsAscii(f.c))
            && (e == Some(BadChunkBytes) <==> place && IsAscii(f.c) && |f.c| != Min(CHUNK_BYTES, f.b - CHUNK_BYTES * f.i))
  {
    hide FragmentCount, IsSequence, Bytes;
    AsciiBytes(f.c);
    if LegalBytes(f.b) { CountIsCeiling(f.b, f.n); }
  }

  function Chunks(fs: seq<Fragment>): seq<string> {
    seq(|fs|, i requires 0 <= i < |fs| => fs[i].c)
  }

  lemma {:induction false} ChunksJoin(text: string, n: nat)
    requires CHUNK_BYTES * (n - 1) <= |text|
    ensures Concat(seq(n, i requires 0 <= i < n => ChunkOf(text, i))) == text[..Min(CHUNK_BYTES * n, |text|)]
    decreases n
  {
    if n > 0 {
      var parts := seq(n, i requires 0 <= i < n => ChunkOf(text, i));
      var before := seq(n - 1, i requires 0 <= i < n - 1 => ChunkOf(text, i));
      ChunksJoin(text, n - 1);
      assert parts == before + [ChunkOf(text, n - 1)];
      ConcatAppend(before, [ChunkOf(text, n - 1)]);
      assert [ChunkOf(text, n - 1)][1..] == [];
      assert Concat([ChunkOf(text, n - 1)]) == ChunkOf(text, n - 1) + "";
    } else {
      assert Concat([]) == text[..0];
    }
  }

  /** Every fragment of a message passes the receiver's checks, and the chunks in order are the message's text. */
  lemma FragmentsAreSound(message: Json, direction: char)
    requires FragmentMessage(message, direction).Ok?
    ensures var fs := FragmentMessage(message, direction).value;
            && Concat(Chunks(fs)) == Stringify(message)
            && (forall i :: 0 <= i < |fs| ==> fs[i].i == i && fs[i].n == |fs| && CheckFragment(fs[i], Some(direction)) == None)
            && (forall i :: 0 <= i < |fs| ==> fs[i].b == |Stringify(message)| && Field(message, "sequence") == Some(Str(fs[i].s)))
  {
    hide Stringify, Bytes, Concat;
    var text := Stringify(message);
    var fs := FragmentMessage(message, direction).value;
    var n := |fs|;
    ChunksJoin(text, n);
    assert Chunks(fs) == seq(n, i requires 0 <= i < n => ChunkOf(text, i));
    assert text[..|text|] == text;
    forall i | 0 <= i < n ensures fs[i].i == i && fs[i].n == |fs| && CheckFragment(fs[i], Some(direction)) == None {
      AsciiBytes(text);
      AsciiBytes(fs[i].c);
    }
  }

  /** A message is refused exactly for its direction, its sequence, a non-ASCII character or its size. */
  lemma FragmentMessageAccepts(message: Json, direction: char)
    ensures FragmentMessage(message, direction).Ok? <==>
            && direction in {'q', 'r'}
            && (exists s :: Field(message, "sequence") == Some(Str(s)) && IsSequence(s))
            && IsAscii(Stringify(message)) && LegalBytes(|Stringify(message)|)
  {
    hide Stringify, Bytes, Field;
    AsciiBytes(Stringify(message));
    if s :| Field(message, "sequence") == Some(Str(s)) && IsSequence(s) {
      assert SequenceOf(message) == Some(s);
    }
  }

  /** What fragmentMessage refuses a message for: the first thing that is wrong with it. */
  lemma FragmentMessageRefusals(message: Json, direction: char)
    ensures var r := FragmentMessage(message, direction);
            var named := direction in {'q', 'r'} && exists s :: Field(message, "sequence") == Some(Str(s)) && IsSequence(s);
            && (r == Err(BadDirection) <==> direction !in {'q', 'r'})
            && (r == Err(BadSequence) <==> direction in {'q', 'r'} && !named)
            && (r == Err(NotAscii) <==> named && !IsAscii(Stringify(message)))
            && (r == Err(BadMessageBytes) <==> named && IsAscii(Stringify(message)) && !LegalBytes(|Stringify(message)|))
  {
    hide Stringify, Bytes, Field;
    AsciiBytes(Stringify(message));
    if s :| Field(message, "sequence") == Some(Str(s)) && IsSequence(s) {
      assert SequenceOf(message) == Some(s);
    }
  }

  // ----- datagram sizes -----

  function FragmentJson(f: Fragment): Json {
    Obj([Member("b", Num(f.b)), Member("c", Str(f.c)), Member("d", Str([f.d])), Member("i", Num(f.i)),
         Member("n", Num(f.n)), Member("s", Str(f.s)), Member("v", Num(f.v))])
  }

  function Quotes(s: string): nat {
    if s == "" then 0 else (if s[0] == '"' then 1 else 0) + Quotes(s[1..])
  }

  predicate PlainOrQuote(c: char) {
    Plain(c) || c == '"'
  }

  lemma {:induction false} QuotesAppend(a: string, b: string)
    ensures Quotes(a + b) == Quotes(a) + Quotes(b)
  {
    if a == "" {
      assert a + b == b;
    } else {
      assert (a + b)[1..] == a[1..] + b;
      QuotesAppend(a[1..], b);
    }
  }

  lemma {:induction false} PlainHasNoQuotes(s: string)
    requires AllPlain(s)
    ensures Quotes(s) == 0
  {
    if s != "" { PlainHasNoQuotes(s[1..]); }
  }

  lemma {:induction false} EscapedSize(s: string)
    requires forall k :: 0 <= k < |s| ==> PlainOrQuote(s[k])
    ensures |EscapeAll(s)| == |s| + Quotes(s) && IsAscii(EscapeAll(s))
  {
    if s != "" {
      EscapedSize(s[1..]);
      assert IsAscii(Escape(s[0]));
    }
  }

  lemma {:induction false} DecimalSize(n: nat, k: nat, bound: nat)
    requires n < bound && bound == Pow10(k) && k >= 1
    ensures |Decimal(n)| <= k && IsAscii(Decimal(n))
    decreases n
  {
    if n >= 10 {
      assert Pow10(1) == 10;
      DecimalSize(n / 10, k - 1, Pow10(k - 1));
    }
  }

  function Pow10(k: nat): nat {
    if k == 0 then 1 else 10 * Pow10(k - 1)
  }

  /** A member of one of these objects adds its name, two quotes, a colon and its value. */
  ghost predicate MemberSize(m: Member, size: nat) {
    AllPlain(m.name) && IsAscii(Stringify(m.value)) && |m.name| + 3 + |Stringify(m.value)| <= size
  }

  lemma {:induction false} FieldsSize(ms: seq<Member>, sizes: seq<nat>)
    requires |ms| == |sizes| && forall k :: 0 <= k < |ms| ==> MemberSize(ms[k], sizes[k])
    ensures IsAscii(Fields(ms)) && |Fields(ms)| <= Sum(sizes) + |ms|
    decreases |ms|
  {
    hide Stringify, Quote;
    if ms != [] {
      PlainQuote(ms[0].name);
      if |ms| > 1 { FieldsSize(ms[1..], sizes[1..]); }
    }
  }

  function Sum(xs: seq<nat>): nat {
    if xs == [] then 0 else xs[0] + Sum(xs[1..])
  }

  lemma SmallNumber(name: string, n: int)
    requires 0 <= n < 100000 && |name| == 1 && AllPlain(name)
    ensures MemberSize(Member(name, Num(n)), 9)
  {
    assert Pow10(5) == 100000 by { assert Pow10(3) == 1000; }
    DecimalSize(n, 5, 100000);
  }

  const UDP_EVENT: string := "benchmark.udp.fragment"

  /** The event envelope node-ipc sends a fragment in, with its delimiter. */
  function FragmentEvent(f: Fragment): string {
    Stringify(Obj([Member("type", Str(UDP_EVENT)), Member("data", FragmentJson(f))])) + "\U{0C}"
  }

  lemma FragmentJsonSize(f: Fragment)
    requires CheckFragment(f, None) == None
    requires (forall k :: 0 <= k < |f.c| ==> PlainOrQuote(f.c[k])) && Quotes(f.c) <= 8
    ensures IsAscii(Stringify(FragmentJson(f))) && |Stringify(FragmentJson(f))| <= 1104
  {
    hide Stringify, EscapeAll, Fields, Bytes, Quotes, Decimal;
    SmallNumber("b", f.b);
    SmallNumber("i", f.i);
    SmallNumber("n", f.n);
    SmallNumber("v", f.v);
    PlainHasNoQuotes(f.s);
    PlainHasNoQuotes([f.d]);
    StringMember("c", f.c, 1038);
    StringMember("s", f.s, 14);
    StringMember("d", [f.d], 7);
    var sizes := [9, 1038, 7, 9, 9, 14, 9];
    ObjectSize(FragmentJson(f).fields, sizes);
    SumOf7(sizes);
  }

  /** A fragment whose chunk needs at most eight escapes fits the datagram, by itself and inside a node-ipc event. */
  lemma FragmentFits(f: Fragment)
    requires CheckFragment(f, None) == None
    requires (forall k :: 0 <= k < |f.c| ==> PlainOrQuote(f.c[k])) && Quotes(f.c) <= 8
    ensures Bytes(Stringify(FragmentJson(f))) <= DATAGRAM_BYTES && Bytes(FragmentEvent(f)) <= DATAGRAM_BYTES
  {
    hide Stringify, EscapeAll, Fields, Bytes, Quotes, FragmentJson, CheckFragment;
    FragmentJsonSize(f);
    PlainHasNoQuotes(UDP_EVENT);
    StringMember("type", UDP_EVENT, 31);
    var ms := [Member("type", Str(UDP_EVENT)), Member("data", FragmentJson(f))];
    assert MemberSize(ms[1], 1111);
    ObjectSize(ms, [31, 1111]);
    SumOf2([31, 1111]);
    AsciiBytes(Stringify(FragmentJson(f)));
    AsciiBytes(FragmentEvent(f));
  }

  lemma SumOf2(s: seq<nat>)
    requires |s| == 2
    ensures Sum(s) == s[0] + s[1]
  {
    assert Sum(s[1..]) == s[1] + Sum(s[1..][1..]);
  }

  lemma SumOf7(s: seq<nat>)
    requires |s| == 7
    ensures Sum(s) == s[0] + s[1] + s[2] + s[3] + s[4] + s[5] + s[6]
  {
    var t := s[5..];
    assert s[1..][1..] == s[2..] && s[2..][1..] == s[3..] && s[3..][1..] == s[4..] && s[4..][1..] == t;
    assert Sum(s[2..]) == s[2] + Sum(s[3..]);
    assert Sum(s[4..]) == s[4] + Sum(t);
    SumOf2(t);
  }

  lemma QuoteSize(s: string)
    requires forall k :: 0 <= k < |s| ==> PlainOrQuote(s[k])
    ensures |Quote(s)| == |s| + Quotes(s) + 2 && IsAscii(Quote(s))
  {
    EscapedSize(s);
  }

  lemma StringMember(name: string, s: string, size: nat)
    requires AllPlain(name) && (forall k :: 0 <= k < |s| ==> PlainOrQuote(s[k]))
    requires |name| + 5 + |s| + Quotes(s) <= size
    ensures MemberSize(Member(name, Str(s)), size)
  {
    hide Quote;
    QuoteSize(s);
    assert Stringify(Str(s)) == Quote(s);
  }

  lemma ObjectSize(ms: seq<Member>, sizes: seq<nat>)
    requires |ms| == |sizes| && forall k :: 0 <= k < |ms| ==> MemberSize(ms[k], sizes[k])
    ensures IsAscii(Stringify(Obj(ms))) && |Stringify(Obj(ms))| <= Sum(sizes) + |ms| + 2
  {
    FieldsSize(ms, sizes);
  }

  /** Every fragment of every benchmark message fits in 1200 bytes, bare or in its event envelope. */
  lemma BenchFragmentsFit(bytes: nat, sequence: nat, direction: char, i: nat)
    requires ENVELOPE_BYTES <= bytes <= MAX_MESSAGE_BYTES && sequence <= MAX_SEQUENCE && direction in {'q', 'r'}
    requires i < FragmentCount(bytes)
    ensures var fs := FragmentMessage(BenchMessage(bytes, Hex8(sequence)), direction);
            && fs.Ok? && |fs.value| == FragmentCount(bytes)
            && Bytes(Stringify(FragmentJson(fs.value[i]))) <= DATAGRAM_BYTES
            && Bytes(FragmentEvent(fs.value[i])) <= DATAGRAM_BYTES
  {
    hide Stringify, Bytes, Quotes, Hex8, BenchMessage, FragmentEvent, FragmentJson, CheckFragment;
    SequenceRoundTrip(sequence);
    var s := Hex8(sequence);
    var message := BenchMessage(bytes, s);
    MessageSize(bytes, s);
    FragmentMessageAccepts(message, direction);
    FragmentsAreSound(message, direction);
    var f := FragmentMessage(message, direction).value[i];
    MessageQuotes(bytes, s);
    SliceQuotes(Stringify(message), i);
    CheckForgets(f, direction);
    FragmentFits(f);
  }

  lemma SliceQuotes(text: string, i: nat)
    requires CHUNK_BYTES * i <= |text|
    ensures Quotes(ChunkOf(text, i)) <= Quotes(text)
  {
    hide Quotes;
    var lo, hi := CHUNK_BYTES * i, Min(CHUNK_BYTES * (i + 1), |text|);
    assert text == text[..lo] + (text[lo..hi] + text[hi..]);
    QuotesAppend(text[..lo], text[lo..hi] + text[hi..]);
    QuotesAppend(text[lo..hi], text[hi..]);
  }

  lemma CheckForgets(f: Fragment, direction: char)
    requires CheckFragment(f, Some(direction)) == None
    ensures CheckFragment(f, None) == None
  {
    hide Bytes, ChunkBytes, FragmentCount, LegalBytes, IsSequence;
  }

  lemma MessageQuotes(bytes: nat, s: string)
    requires bytes >= ENVELOPE_BYTES && IsSequence(s)
    ensures var text := Stringify(BenchMessage(bytes, s));
            Quotes(text) == 8 && forall k :: 0 <= k < |text| ==> PlainOrQuote(text[k])
  {
    hide Stringify, Bytes, BenchMessage, Quotes, Head, Middle, Tail, Xs;
    var xs := Xs(bytes - ENVELOPE_BYTES);
    MessageText(bytes, s);
    XsPlain(bytes - ENVELOPE_BYTES);
    PlainHasNoQuotes(xs);
    PlainHasNoQuotes(s);
    PieceQuotes();
    PieceCharacters();
    QuotesAppend(Head() + xs + Middle() + s, Tail());
    QuotesAppend(Head() + xs + Middle(), s);
    QuotesAppend(Head() + xs, Middle());
    QuotesAppend(Head(), xs);
  }

  lemma XsPlain(n: nat)
    ensures AllPlain(Xs(n))
  {
  }

  lemma PieceCharacters()
    ensures forall k :: 0 <= k < |Head()| ==> PlainOrQuote(Head()[k])
    ensures forall k :: 0 <= k < |Middle()| ==> PlainOrQuote(Middle()[k])
    ensures forall k :: 0 <= k < |Tail()| ==> PlainOrQuote(Tail()[k])
  {
  }

  lemma QuotesOf2(s: string)
    requires |s| == 2
    ensures Quotes(s) == (if s[0] == '"' then 1 else 0) + (if s[1] == '"' then 1 else 0)
  {
    assert Quotes(s[1..]) == (if s[1] == '"' then 1 else 0) + Quotes(s[1..][1..]);
  }

  lemma QuotesOf3(s: string)
    requires |s| == 3
    ensures Quotes(s) == (if s[0] == '"' then 1 else 0) + (if s[1] == '"' then 1 else 0) + (if s[2] == '"' then 1 else 0)
  {
    assert Quotes(s[1..]) == (if s[1] == '"' then 1 else 0) + Quotes(s[1..][1..]);
    assert Quotes(s[1..][1..]) == (if s[2] == '"' then 1 else 0) + Quotes(s[1..][1..][1..]);
  }

  lemma PieceQuotes()
    ensures Quotes(Head()) == 3 && Quotes(Middle()) == 4 && Quotes(Tail()) == 1
  {
    hide Quotes, Head, Middle;
    HeadQuotes();
    MiddleQuotes();
    TailQuotes();
  }

  lemma TailQuotes()
    ensures Quotes(Tail()) == 1
  {
    assert Tail()[1..] == "}";
  }

  lemma HeadQuotes()
    ensures Quotes(Head()) == 3
  {
    hide Quotes;
    var name, colon := "payload", "\":\"";
    QuotesOf3(colon);
    PlainHasNoQuotes(name);
    QuotesOf2("{\"");
    assert Head() == "{\"" + (name + colon);
    QuotesAppend("{\"", name + colon);
    QuotesAppend(name, colon);
  }

  lemma MiddleQuotes()
    ensures Quotes(Middle()) == 4
  {
    hide Quotes;
    var comma, name, colon := "\",\"", "sequence", "\":\"";
    QuotesOf3(comma);
    QuotesOf3(colon);
    PlainHasNoQuotes(name);
    assert Middle() == comma + (name + colon);
    QuotesAppend(comma, name + colon);
    QuotesAppend(name, colon);
  }
}
