/**
  JSON values and the text JSON.stringify produces for them, with the byte sizes
  Buffer.byteLength reports. Characters are code points.
*/
module Json {
  import opened Common

  datatype Json =
    | Null
    | Bool(b: bool)
    | Num(n: int)
    | Str(s: string)
    | Arr(items: seq<Json>)
    | Obj(fields: seq<Member>)

  datatype Member = Member(name: string, value: Json)

  /** Property read on a parsed object: the last field of that name wins. */
  function Field(v: Json, name: string): Option<Json> {
    if v.Obj? then LastField(v.fields, name) else None
  }

  function LastField(fields: seq<Member>, name: string): Option<Json> {
    if fields == [] then None
    else if fields[|fields| - 1].name == name then Some(fields[|fields| - 1].value)
    else LastField(fields[..|fields| - 1], name)
  }

  // ----- sizes -----

  /** UTF-8 bytes of one code point. */
  function CharBytes(c: char): (r: nat)
    ensures 1 <= r <= 4
  {
    if c as int < 0x80 then 1 else if c as int < 0x800 then 2 else if c as int < 0x10000 then 3 else 4
  }

  /** Buffer.byteLength */
  function Bytes(s: string): (r: nat)
    ensures r >= |s|
  {
    if s == "" then 0 else CharBytes(s[0]) + Bytes(s[1..])
  }

  /** String length in UTF-16 units. */
  function Units(s: string): (r: nat)
    ensures r >= |s|
  {
    if s == "" then 0 else (if s[0] as int < 0x10000 then 1 else 2) + Units(s[1..])
  }

  predicate IsAscii(s: string) {
    forall i :: 0 <= i < |s| ==> s[i] as int < 0x80
  }

  lemma {:induction false} BytesAppend(a: string, b: string)
    ensures Bytes(a + b) == Bytes(a) + Bytes(b)
  {
    if a == "" {
      assert a + b == b;
    } else {
      assert (a + b)[1..] == a[1..] + b;
      BytesAppend(a[1..], b);
    }
  }

  lemma {:induction false} BytesPrefix(a: string, b: string)
    requires a <= b
    ensures Bytes(a) <= Bytes(b)
  {
    BytesAppend(a, b[|a|..]);
    assert a + b[|a|..] == b;
  }

  lemma {:induction false} AsciiBytes(s: string)
    ensures Bytes(s) == |s| <==> IsAscii(s)
  {
    if s != "" {
      AsciiBytes(s[1..]);
      assert s == [s[0]] + s[1..];
      assert IsAscii(s) <==> s[0] as int < 0x80 && IsAscii(s[1..]);
    }
  }

  // ----- printing -----

  function Digit(d: nat): char
    requires d < 16
  {
    "0123456789abcdef"[d]
  }

  function Decimal(n: nat): (r: string)
    ensures |r| >= 1
    ensures forall i :: 0 <= i < |r| ==> '0' <= r[i] <= '9'
  {
    if n < 10 then [Digit(n)] else Decimal(n / 10) + [Digit(n % 10)]
  }

  function Escape(c: char): string {
    if c == '"' then "\\\""
    else if c == '\\' then "\\\\"
    else if c as int == 8 then "\\b"
    else if c as int == 12 then "\\f"
    else if c == '\n' then "\\n"
    else if c == '\r' then "\\r"
    else if c == '\t' then "\\t"
    else if c as int < 0x20 then "\\u00" + [Digit(c as int / 16), Digit(c as int % 16)]
    else [c]
  }

  function EscapeAll(s: string): string {
    if s == "" then "" else Escape(s[0]) + EscapeAll(s[1..])
  }

  function Quote(s: string): string {
    "\"" + EscapeAll(s) + "\""
  }

  /** JSON.stringify without indentation. */
  function Stringify(v: Json): string
    decreases v, 1
  {
    match v
    case Null => "null"
    case Bool(b) => if b then "true" else "false"
    case Num(n) => if n < 0 then "-" + Decimal(-n) else Decimal(n)
    case Str(s) => Quote(s)
    case Arr(items) => "[" + Items(items) + "]"
    case Obj(fields) => "{" + Fields(fields) + "}"
  }

  function Items(items: seq<Json>): string
    decreases items, 0
  {
    if items == [] then ""
    else if |items| == 1 then Stringify(items[0])
    else Stringify(items[0]) + "," + Items(items[1..])
  }

  function Fields(fields: seq<Member>): string
    decreases fields, 0
  {
    if fields == [] then ""
    else if |fields| == 1 then Quote(fields[0].name) + ":" + Stringify(fields[0].value)
    else Quote(fields[0].name) + ":" + Stringify(fields[0].value) + "," + Fields(fields[1..])
  }

  /** No control character, as section 7 of RFC 8259 demands of JSON strings. */
  ghost predicate Printable(s: string) {
    forall i :: 0 <= i < |s| ==> s[i] as int >= 0x20
  }

  lemma {:induction false} EscapePrintable(s: string)
    ensures Printable(EscapeAll(s))
  {
    if s != "" {
      EscapePrintable(s[1..]);
      assert Printable(Escape(s[0]));
    }
  }

  lemma {:induction false} StringifyPrintable(v: Json)
    ensures Printable(Stringify(v))
    decreases v, 1
  {
    match v
    case Null =>
    case Bool(b) =>
    case Num(n) =>
    case Str(s) => EscapePrintable(s);
    case Arr(items) => ItemsPrintable(items);
    case Obj(fields) => FieldsPrintable(fields);
  }

  lemma {:induction false} ItemsPrintable(items: seq<Json>)
    ensures Printable(Items(items))
    decreases items, 0
  {
    if items != [] {
      StringifyPrintable(items[0]);
      if |items| > 1 { ItemsPrintable(items[1..]); }
    }
  }

  lemma {:induction false} FieldsPrintable(fields: seq<Member>)
    ensures Printable(Fields(fields))
    decreases fields, 0
  {
    if fields != [] {
      EscapePrintable(fields[0].name);
      StringifyPrintable(fields[0].value);
      if |fields| > 1 { FieldsPrintable(fields[1..]); }
    }
  }

  // ----- text that needs no escaping -----

  /** Characters JSON.stringify copies unchanged, one byte each. */
  predicate Plain(c: char) {
    0x20 <= c as int < 0x80 && c != '"' && c != '\\'
  }

  ghost predicate AllPlain(s: string) {
    forall i :: 0 <= i < |s| ==> Plain(s[i])
  }

  lemma {:induction false} PlainQuote(s: string)
    requires AllPlain(s)
    ensures EscapeAll(s) == s && Quote(s) == "\"" + s + "\""
  {
    if s != "" {
      PlainQuote(s[1..]);
      assert s == [s[0]] + s[1..];
    }
  }

  lemma OneMember(a: Member)
    ensures Fields([a]) == Quote(a.name) + ":" + Stringify(a.value)
  {
  }

  lemma MoreMembers(a: Member, rest: seq<Member>)
    requires rest != []
    ensures Fields([a] + rest) == Quote(a.name) + ":" + Stringify(a.value) + "," + Fields(rest)
  {
    assert ([a] + rest)[1..] == rest;
  }
}
