/**
  A reader of JSON text (RFC 8259) over the values of module Json: no white space between tokens, as JSON.stringify
  writes none, integers only, and no surrogate escapes. It reads back exactly what Stringify prints.
*/
module JsonReader {
  import opened Common
  import opened Json

  /** What was read off the front of a text, and the rest. */
  datatype Got<+T> = No | Yes(value: T, rest: string)

  predicate IsDigit(c: char) {
    '0' <= c <= '9'
  }

  // ----- strings -----

  function HexValue(c: char): Option<nat> {
    if '0' <= c <= '9' then Some(c as int - '0' as int)
    else if 'a' <= c <= 'f' then Some(c as int - 'a' as int + 10)
    else if 'A' <= c <= 'F' then Some(c as int - 'A' as int + 10)
    else None
  }

  /** Four hexadecimal digits; halves of surrogate pairs are no characters. */
  function ReadHex(s: string): (r: Got<char>)
    ensures r.Yes? ==> |r.rest| < |s|
  {
    if |s| < 4 then No
    else match (HexValue(s[0]), HexValue(s[1]), HexValue(s[2]), HexValue(s[3]))
      case (Some(a), Some(b), Some(c), Some(d)) =>
        var code := ((a * 16 + b) * 16 + c) * 16 + d;
        if 0 <= code < 0xD800 || 0xE000 <= code < 0x10000 then Yes(code as char, s[4..]) else No
      case _ => No
  }

  /** What follows a backslash. */
  function ReadEscape(s: string): (r: Got<char>)
    ensures r.Yes? ==> |r.rest| < |s|
  {
    if s == "" then No
    else match s[0]
      case '"' => Yes('"', s[1..])
      case '\\' => Yes('\\', s[1..])
      case '/' => Yes('/', s[1..])
      case 'b' => Yes(8 as char, s[1..])
      case 'f' => Yes(12 as char, s[1..])
      case 'n' => Yes('\n', s[1..])
      case 'r' => Yes('\r', s[1..])
      case 't' => Yes('\t', s[1..])
      case 'u' => ReadHex(s[1..])
      case _ => No
  }

  /** The characters up to the closing quote. */
  function ReadString(s: string): (r: Got<string>)
    ensures r.Yes? ==> |r.rest| < |s|
    decreases |s|
  {
    if s == "" then No
    else if s[0] == '"' then Yes("", s[1..])
    else if s[0] as int < 0x20 then No
    else
      var first := if s[0] == '\\' then ReadEscape(s[1..]) else Yes(s[0], s[1..]);
      if first.No? then No
      else match ReadString(first.rest)
        case Yes(more, rest) => Yes([first.value] + more, rest)
        case No => No
  }

  // ----- numbers -----

  function DigitRun(s: string): (r: nat)
    ensures r <= |s| && forall i :: 0 <= i < r ==> IsDigit(s[i])
  {
    if s != "" && IsDigit(s[0]) then 1 + DigitRun(s[1..]) else 0
  }

  function DecimalRead(s: string): nat
    requires forall i :: 0 <= i < |s| ==> IsDigit(s[i])
  {
    if s == "" then 0
    else
      assert IsDigit(s[|s| - 1]);
      10 * DecimalRead(s[..|s| - 1]) + (s[|s| - 1] as int - '0' as int)
  }

  /** An integer without superfluous zeros; what goes on as a fraction or an exponent is none. */
  function ReadNatural(s: string): (r: Got<nat>)
    ensures r.Yes? ==> |r.rest| < |s|
  {
    var n := DigitRun(s);
    if n == 0 || (n > 1 && s[0] == '0') || (n < |s| && s[n] in {'.', 'e', 'E'}) then No
    else Yes(DecimalRead(s[..n]), s[n..])
  }

  function ReadNumber(s: string): (r: Got<Json>)
    ensures r.Yes? ==> |r.rest| < |s|
  {
    if s != "" && s[0] == '-' then
      match ReadNatural(s[1..])
      case Yes(n, rest) => Yes(Num(0 - n), rest)
      case No => No
    else
      match ReadNatural(s)
      case Yes(n, rest) => Yes(Num(n), rest)
      case No => No
  }

  // ----- values -----

  function ReadValue(s: string): (r: Got<Json>)
    ensures r.Yes? ==> |r.rest| < |s|
    decreases |s|, 0
  {
    if s == "" then No
    else if s[0] == '"' then
      match ReadString(s[1..])
      case Yes(t, rest) => Yes(Str(t), rest)
      case No => No
    else if s[0] == '[' then
      if |s| > 1 && s[1] == ']' then Yes(Arr([]), s[2..])
      else match ReadItems(s[1..])
        case Yes(items, rest) => Yes(Arr(items), rest)
        case No => No
    else if s[0] == '{' then
      if |s| > 1 && s[1] == '}' then Yes(Obj([]), s[2..])
      else match ReadFields(s[1..])
        case Yes(fields, rest) => Yes(Obj(fields), rest)
        case No => No
    else if "null" <= s then Yes(Null, s[4..])
    else if "true" <= s then Yes(Bool(true), s[4..])
    else if "false" <= s then Yes(Bool(false), s[5..])
    else ReadNumber(s)
  }

  /** The items of an array up to its closing bracket. */
  function ReadItems(s: string): (r: Got<seq<Json>>)
    ensures r.Yes? ==> |r.rest| < |s|
    decreases |s|, 1
  {
    match ReadValue(s)
    case No => No
    case Yes(v, rest) =>
      if rest == "" then No
      else if rest[0] == ']' then Yes([v], rest[1..])
      else if rest[0] != ',' then No
      else match ReadItems(rest[1..])
        case Yes(more, last) => Yes([v] + more, last)
        case No => No
  }

  /** The members of an object up to its closing brace. */
  function ReadFields(s: string): (r: Got<seq<Member>>)
    ensures r.Yes? ==> |r.rest| < |s|
    decreases |s|, 1
  {
    match ReadMember(s)
    case No => No
    case Yes(m, rest) =>
      if rest == "" then No
      else if rest[0] == '}' then Yes([m], rest[1..])
      else if rest[0] != ',' then No
      else match ReadFields(rest[1..])
        case Yes(more, last) => Yes([m] + more, last)
        case No => No
  }

  function ReadMember(s: string): (r: Got<Member>)
    ensures r.Yes? ==> |r.rest| < |s|
    decreases |s|, 0
  {
    if s == "" || s[0] != '"' then No
    else match ReadString(s[1..])
      case No => No
      case Yes(name, rest) =>
        if rest == "" || rest[0] != ':' then No
        else match ReadValue(rest[1..])
          case Yes(v, last) => Yes(Member(name, v), last)
          case No => No
  }

  /** The value a whole text stands for. */
  function Read(text: string): Option<Json> {
    match ReadValue(text)
    case Yes(v, "") => Some(v)
    case _ => None
  }

  // ----- the reader undoes the printer -----

  lemma ReadsHex(c: char, tail: string)
    requires c as int < 0x20
    ensures ReadEscape("u00" + [Digit(c as int / 16), Digit(c as int % 16)] + tail) == Yes(c, tail)
  {
    var hex := "00" + [Digit(c as int / 16), Digit(c as int % 16)] + tail;
    assert ("u00" + [Digit(c as int / 16), Digit(c as int % 16)] + tail)[1..] == hex;
    assert hex[4..] == tail;
    assert HexValue(Digit(c as int / 16)) == Some(c as int / 16) && HexValue(Digit(c as int % 16)) == Some(c as int % 16);
  }

  /** One escaped character is read back. */
  lemma ReadsEscape(c: char, tail: string)
    ensures Escape(c) != "" && Escape(c)[0] != '"' && Escape(c)[0] as int >= 0x20
    ensures if Escape(c)[0] == '\\' then ReadEscape(Escape(c)[1..] + tail) == Yes(c, tail) else Escape(c) == [c]
  {
    var e := Escape(c);
    if e[0] == '\\' {
      if e[1] == 'u' {
        ReadsHex(c, tail);
        assert e[1..] == "u00" + [Digit(c as int / 16), Digit(c as int % 16)];
      } else {
        assert (e[1..] + tail)[1..] == tail;
      }
    }
  }

  /** One character, escaped or not, is read off the front of a string. */
  lemma ReadsCharacter(c: char, more: string)
    ensures ReadString(Escape(c) + more) == match ReadString(more) { case Yes(t, rest) => Yes([c] + t, rest) case No => No }
  {
    hide Escape, ReadEscape;
    var e := Escape(c);
    ReadsEscape(c, more);
    assert (e + more)[1..] == e[1..] + more;
    if e[0] != '\\' { assert e[1..] + more == more; }
  }

  lemma StringEnds(tail: string)
    ensures EscapeAll("") + "\"" + tail == "\"" + tail && ReadString("\"" + tail) == Yes("", tail)
  {
    assert ("\"" + tail)[1..] == tail;
  }

  lemma {:induction false} ReadsString(s: string, tail: string)
    ensures ReadString(EscapeAll(s) + "\"" + tail) == Yes(s, tail)
    decreases |s|
  {
    hide Escape, ReadString;
    if s == "" {
      StringEnds(tail);
    } else {
      var more := EscapeAll(s[1..]) + "\"" + tail;
      ReadsString(s[1..], tail);
      ReadsCharacter(s[0], more);
      assert EscapeAll(s) + "\"" + tail == Escape(s[0]) + more;
      assert s == [s[0]] + s[1..];
    }
  }

  lemma LastDigit(s: string, c: char)
    requires (forall i :: 0 <= i < |s| ==> IsDigit(s[i])) && IsDigit(c)
    ensures DecimalRead(s + [c]) == 10 * DecimalRead(s) + (c as int - '0' as int)
  {
    assert (s + [c])[..|s|] == s;
  }

  lemma DigitOf(d: nat)
    requires d < 10
    ensures IsDigit(Digit(d)) && Digit(d) as int - '0' as int == d
  {
  }

  lemma {:induction false} DecimalReads(n: nat)
    ensures DecimalRead(Decimal(n)) == n && (n >= 1 ==> Decimal(n)[0] != '0')
    decreases n
  {
    hide DecimalRead, Digit;
    DigitOf(n % 10);
    if n >= 10 {
      DecimalReads(n / 10);
      LastDigit(Decimal(n / 10), Digit(n % 10));
    } else {
      NoDigits();
      LastDigit("", Digit(n));
      assert "" + [Digit(n)] == [Digit(n)];
    }
  }

  lemma NoDigits()
    ensures DecimalRead("") == 0
  {
  }

  lemma {:induction false} DigitsEnd(s: string, tail: string)
    requires (forall i :: 0 <= i < |s| ==> IsDigit(s[i])) && (tail == "" || !IsDigit(tail[0]))
    ensures DigitRun(s + tail) == |s|
    decreases |s|
  {
    if s == "" {
      assert s + tail == tail;
    } else {
      assert (s + tail)[1..] == s[1..] + tail;
      DigitsEnd(s[1..], tail);
    }
  }

  /** What may come after a value. */
  predicate Follows(tail: string) {
    tail == "" || tail[0] in {',', ']', '}'}
  }

  lemma ReadsNatural(n: nat, tail: string)
    requires Follows(tail)
    ensures ReadNatural(Decimal(n) + tail) == Yes(n, tail)
  {
    var s := Decimal(n);
    DecimalReads(n);
    DigitsEnd(s, tail);
    assert (s + tail)[..|s|] == s && (s + tail)[|s|..] == tail;
  }

  lemma ReadsNumber(n: int, tail: string)
    requires Follows(tail)
    ensures ReadValue(Stringify(Num(n)) + tail) == Yes(Num(n), tail)
  {
    hide Decimal, ReadNatural, ReadString, ReadItems, ReadFields;
    var s := Stringify(Num(n)) + tail;
    if n < 0 {
      ReadsNatural(-n, tail);
      assert s[1..] == Decimal(-n) + tail;
    } else {
      ReadsNatural(n, tail);
      assert IsDigit(s[0]);
    }
    NotAWord(s);
  }

  lemma NotAWord(s: string)
    requires s != "" && (s[0] == '-' || IsDigit(s[0]))
    ensures !("null" <= s) && !("true" <= s) && !("false" <= s)
  {
  }

  /** A value's text does not begin like the end of something. */
  lemma Begins(v: Json)
    ensures Stringify(v) != "" && Stringify(v)[0] !in {']', '}', ','}
  {
    hide Decimal, Quote, Items, Fields;
    if v.Num? && v.n >= 0 { assert IsDigit(Decimal(v.n)[0]); }
    if v.Str? { QuoteBegins(v.s); }
  }

  lemma QuoteBegins(s: string)
    ensures Quote(s) != "" && Quote(s)[0] == '"' && Quote(s)[1..] == EscapeAll(s) + "\""
  {
  }

  lemma ReadsWord(v: Json, tail: string)
    requires v.Null? || v.Bool?
    ensures ReadValue(Stringify(v) + tail) == Yes(v, tail)
  {
    hide ReadString, ReadItems, ReadFields, ReadNumber;
    var word := Stringify(v);
    assert word <= word + tail && (word + tail)[|word|..] == tail;
    assert (word + tail)[0] == word[0];
  }

  /** Every value is read back from its text, whatever comes after it. */
  lemma {:induction false} ReadsValue(v: Json, tail: string)
    requires Follows(tail)
    ensures ReadValue(Stringify(v) + tail) == Yes(v, tail)
    decreases v, 1
  {
    hide ReadString, ReadItems, ReadFields, ReadNumber, Quote, Items, Fields, EscapeAll;
    var s := Stringify(v) + tail;
    match v
    case Null => ReadsWord(v, tail);
    case Bool(b) => ReadsWord(v, tail);
    case Num(n) => ReadsNumber(n, tail);
    case Str(t) =>
      QuoteBegins(t);
      ReadsString(t, tail);
      assert s[1..] == EscapeAll(t) + "\"" + tail;
    case Arr(items) =>
      if items == [] {
        NothingInside();
        assert s == "[" + "" + "]" + tail && s[2..] == tail;
      } else {
        ReadsItems(items, tail);
        ItemsBegin(items);
        assert s[1..] == Items(items) + "]" + tail;
      }
    case Obj(fields) =>
      if fields == [] {
        NothingInside();
        assert s == "{" + "" + "}" + tail && s[2..] == tail;
      } else {
        ReadsFields(fields, tail);
        FieldsBegin(fields);
        assert s[1..] == Fields(fields) + "}" + tail;
      }
  }

  lemma NothingInside()
    ensures Items([]) == "" && Fields([]) == ""
  {
  }

  lemma ItemsBegin(items: seq<Json>)
    requires items != []
    ensures Items(items) != "" && Items(items)[0] != ']'
  {
    hide Stringify;
    Begins(items[0]);
  }

  lemma FieldsBegin(fields: seq<Member>)
    requires fields != []
    ensures Fields(fields) != "" && Fields(fields)[0] == '"'
  {
    hide Stringify, Quote;
    QuoteBegins(fields[0].name);
  }

  lemma ItemsText(items: seq<Json>)
    requires items != []
    ensures Items(items) == Stringify(items[0]) + if |items| == 1 then "" else "," + Items(items[1..])
  {
  }

  lemma FieldsText(fields: seq<Member>)
    requires fields != []
    ensures Fields(fields) == Quote(fields[0].name) + ":" + Stringify(fields[0].value)
                            + if |fields| == 1 then "" else "," + Fields(fields[1..])
  {
  }

  lemma {:induction false} ReadsItems(items: seq<Json>, tail: string)
    requires items != []
    ensures ReadItems(Items(items) + "]" + tail) == Yes(items, tail)
    decreases items, 0
  {
    hide ReadValue, Stringify, Items;
    var v, more := items[0], items[1..];
    ItemsText(items);
    var behind := if more == [] then "]" + tail else "," + (Items(more) + "]" + tail);
    ReadsValue(v, behind);
    assert Items(items) + "]" + tail == Stringify(v) + behind;
    if more == [] {
      assert behind[1..] == tail && items == [v];
    } else {
      ReadsItems(more, tail);
      assert behind[1..] == Items(more) + "]" + tail;
      assert items == [v] + more;
    }
  }

  lemma ReadsMember(m: Member, tail: string)
    requires ReadValue(Stringify(m.value) + tail) == Yes(m.value, tail)
    ensures ReadMember(Quote(m.name) + ":" + Stringify(m.value) + tail) == Yes(m, tail)
  {
    hide ReadValue, Stringify, Quote, EscapeAll, ReadString;
    var s, behind := Quote(m.name) + ":" + Stringify(m.value) + tail, ":" + (Stringify(m.value) + tail);
    QuoteBegins(m.name);
    ReadsString(m.name, behind);
    assert s[1..] == EscapeAll(m.name) + "\"" + behind;
    assert behind[1..] == Stringify(m.value) + tail;
  }

  lemma {:induction false} ReadsFields(fields: seq<Member>, tail: string)
    requires fields != []
    ensures ReadFields(Fields(fields) + "}" + tail) == Yes(fields, tail)
    decreases fields, 0
  {
    hide ReadValue, ReadMember, Stringify, Fields, Quote;
    var m, more := fields[0], fields[1..];
    FieldsText(fields);
    var behind := if more == [] then "}" + tail else "," + (Fields(more) + "}" + tail);
    ReadsValue(m.value, behind);
    ReadsMember(m, behind);
    assert Fields(fields) + "}" + tail == Quote(m.name) + ":" + Stringify(m.value) + behind;
    if more == [] {
      assert behind[1..] == tail && fields == [m];
    } else {
      ReadsFields(more, tail);
      assert behind[1..] == Fields(more) + "}" + tail;
      assert fields == [m] + more;
    }
  }

  /** Reading undoes printing, for every value. */
  lemma ReadStringify(v: Json)
    ensures Read(Stringify(v)) == Some(v)
  {
    hide ReadValue, Stringify;
    ReadsValue(v, "");
    assert Stringify(v) + "" == Stringify(v);
  }

  /** So different values have different texts. */
  lemma StringifyInjective(v: Json, w: Json)
    ensures Stringify(v) == Stringify(w) <==> v == w
  {
    hide Read, Stringify;
    ReadStringify(v);
    ReadStringify(w);
  }
}
