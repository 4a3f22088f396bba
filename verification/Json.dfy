/**
The JSON text the execution layer writes for strings, string arrays and string maps, and a decoder
for those three shapes written from sections 2, 4, 5 and 7 of RFC 8259.
 */
module Json {
  import opened Core

  // ---------------------------------------------------------------------------
  // Encoding
  // ---------------------------------------------------------------------------

  /** Unicode control characters (category Cc). */
  predicate IsControl(c: char) {
    c as int < 0x20 || 0x7F <= c as int <= 0x9F
  }

  function HexDigit(d: int): (c: char)
    requires 0 <= d < 16
  {
    if d < 10 then ('0' as int + d) as char else ('a' as int + d - 10) as char
  }

  function Hex4(u: int): string
    requires 0 <= u < 0x10000
  {
    [HexDigit(u / 4096), HexDigit(u / 256 % 16), HexDigit(u / 16 % 16), HexDigit(u % 16)]
  }

  /** One or two UTF-16 code units. */
  function Utf16(c: char): (units: seq<int>)
    ensures 1 <= |units| <= 2
    ensures forall i :: 0 <= i < |units| ==> 0 <= units[i] < 0x10000
  {
    var v := c as int;
    if v < 0x10000 then [v]
    else [0xD800 + (v - 0x10000) / 0x400, 0xDC00 + (v - 0x10000) % 0x400]
  }

  function UnitEscapes(units: seq<int>): string
    requires forall i :: 0 <= i < |units| ==> 0 <= units[i] < 0x10000
  {
    if units == [] then [] else UnitEscapes(units[..|units| - 1]) + "\\u" + Hex4(units[|units| - 1])
  }

  function Escape(c: char): string {
    if c == '"' then "\\\""
    else if c == '\\' then "\\\\"
    else if c == '\n' then "\\n"
    else if c == '\r' then "\\r"
    else if c == '\t' then "\\t"
    else if c as int == 0x08 then "\\b"
    else if c as int == 0x0C then "\\f"
    else if IsControl(c) || c as int > 0xFFFF then UnitEscapes(Utf16(c))
    else [c]
  }

  function EscapeAll(s: string): string {
    if s == [] then [] else Escape(s[0]) + EscapeAll(s[1..])
  }

  function EncodeString(s: string): string {
    "\"" + EscapeAll(s) + "\""
  }

  function EncodeItems(items: seq<string>): string {
    if items == [] then []
    else if |items| == 1 then items[0]
    else items[0] + "," + EncodeItems(items[1..])
  }

  function Encoded(values: seq<string>): (r: seq<string>)
    ensures |r| == |values|
  {
    seq(|values|, i requires 0 <= i < |values| => EncodeString(values[i]))
  }

  function EncodeArray(values: seq<string>): string {
    "[" + EncodeItems(Encoded(values)) + "]"
  }

  function EncodedMembers(entries: seq<(string, string)>): (r: seq<string>)
    ensures |r| == |entries|
  {
    seq(|entries|, i requires 0 <= i < |entries| => EncodeString(entries[i].0) + ":" + EncodeString(entries[i].1))
  }

  /** `entries` are the map's entries in key order. */
  function EncodeMap(entries: seq<(string, string)>): string {
    "{" + EncodeItems(EncodedMembers(entries)) + "}"
  }

  // ---------------------------------------------------------------------------
  // Decoding
  // ---------------------------------------------------------------------------

  function HexValue(c: char): (r: Option<int>)
    ensures r.Some? ==> 0 <= r.value < 16
  {
    if '0' <= c <= '9' then Some(c as int - '0' as int)
    else if 'a' <= c <= 'f' then Some(c as int - 'a' as int + 10)
    else if 'A' <= c <= 'F' then Some(c as int - 'A' as int + 10)
    else None
  }

  /** Four hexadecimal digits at the front of `t`. */
  function DecodeHex4(t: string): (r: Option<int>)
    ensures r.Some? ==> |t| >= 4 && 0 <= r.value < 0x10000
  {
    if |t| < 4 then None
    else
      match (HexValue(t[0]), HexValue(t[1]), HexValue(t[2]), HexValue(t[3]))
      case (Some(a), Some(b), Some(c), Some(d)) => Some(4096 * a + 256 * b + 16 * c + d)
      case _ => None
  }

  predicate IsHigh(u: int) { 0xD800 <= u <= 0xDBFF }
  predicate IsLow(u: int) { 0xDC00 <= u <= 0xDFFF }

  /** `\uXXXX` and, for a high surrogate, the low surrogate escape that must follow; `t` starts after
      the first `\u`. The result is the character and the text behind it. */
  function DecodeUnicode(t: string): (r: Option<(char, string)>)
    ensures r.Some? ==> |r.value.1| < |t|
  {
    match DecodeHex4(t)
    case None => None
    case Some(u) =>
      if IsLow(u) then None
      else if !IsHigh(u) then Some((u as char, t[4..]))
      else if |t| < 6 || t[4] != '\\' || t[5] != 'u' then None
      else
        match DecodeHex4(t[6..])
        case None => None
        case Some(v) =>
          if IsLow(v) then Some(((0x10000 + (u - 0xD800) * 0x400 + (v - 0xDC00)) as char, t[10..])) else None
  }

  /** One character of a string; `t` is not at the closing quotation mark. */
  function DecodeChar(t: string): (r: Option<(char, string)>)
    requires t != []
    ensures r.Some? ==> |r.value.1| < |t|
  {
    if t[0] == '\\' then
      if |t| < 2 then None
      else if t[1] == '"' || t[1] == '\\' || t[1] == '/' then Some((t[1], t[2..]))
      else if t[1] == 'b' then Some((0x08 as char, t[2..]))
      else if t[1] == 'f' then Some((0x0C as char, t[2..]))
      else if t[1] == 'n' then Some(('\n', t[2..]))
      else if t[1] == 'r' then Some(('\r', t[2..]))
      else if t[1] == 't' then Some(('\t', t[2..]))
      else if t[1] == 'u' then DecodeUnicode(t[2..])
      else None
    else if t[0] as int < 0x20 then None
    else Some((t[0], t[1..]))
  }

  /** The rest of a string up to its closing quotation mark, and the text behind that. */
  function DecodeChars(t: string): (r: Option<(string, string)>)
    ensures r.Some? ==> |r.value.1| < |t|
    decreases |t|
  {
    if t == [] then None
    else if t[0] == '"' then Some(([], t[1..]))
    else
      match DecodeChar(t)
      case None => None
      case Some((c, rest)) =>
        match DecodeChars(rest)
        case None => None
        case Some((s, rest')) => Some(([c] + s, rest'))
  }

  function DecodeStringPrefix(t: string): (r: Option<(string, string)>)
    ensures r.Some? ==> |r.value.1| < |t|
  {
    if t == [] || t[0] != '"' then None else DecodeChars(t[1..])
  }

  function SkipWs(t: string): (r: string)
    ensures |r| <= |t|
  {
    if t != [] && (t[0] == ' ' || t[0] == '\t' || t[0] == '\n' || t[0] == '\r') then SkipWs(t[1..]) else t
  }

  function DecodeString(t: string): Option<string> {
    match DecodeStringPrefix(SkipWs(t))
    case None => None
    case Some((s, rest)) => if SkipWs(rest) == [] then Some(s) else None
  }

  /** An element of an array or a member of an object. */
  datatype Item = Element(text: string) | Member(name: string, value: string)

  function DecodeItem(t: string, member: bool): (r: Option<(Item, string)>)
    ensures r.Some? ==> |r.value.1| < |t|
  {
    match DecodeStringPrefix(t)
    case None => None
    case Some((name, rest)) =>
      if !member then Some((Element(name), rest))
      else
        var colon := SkipWs(rest);
        if colon == [] || colon[0] != ':' then None
        else
          match DecodeStringPrefix(SkipWs(colon[1..]))
          case None => None
          case Some((value, rest')) => Some((Member(name, value), rest'))
  }

  /** One or more items separated by commas, up to the closing bracket. */
  function DecodeItems(t: string, member: bool, close: char): (r: Option<(seq<Item>, string)>)
    decreases |t|
  {
    match DecodeItem(t, member)
    case None => None
    case Some((item, rest)) =>
      var next := SkipWs(rest);
      if next == [] then None
      else if next[0] == close then Some(([item], next[1..]))
      else if next[0] == ',' then
        match DecodeItems(SkipWs(next[1..]), member, close)
        case None => None
        case Some((items, rest')) => Some(([item] + items, rest'))
      else None
  }

  function DecodeBracketed(t: string, member: bool, open: char, close: char): Option<seq<Item>> {
    var start := SkipWs(t);
    if start == [] || start[0] != open then None
    else
      var inner := SkipWs(start[1..]);
      if inner != [] && inner[0] == close then (if SkipWs(inner[1..]) == [] then Some([]) else None)
      else
        match DecodeItems(inner, member, close)
        case None => None
        case Some((items, rest)) => if SkipWs(rest) == [] then Some(items) else None
  }

  function DecodeArray(t: string): Option<seq<Item>> {
    DecodeBracketed(t, false, '[', ']')
  }

  function DecodeObject(t: string): Option<seq<Item>> {
    DecodeBracketed(t, true, '{', '}')
  }

  // ---------------------------------------------------------------------------
  // Round trips
  // ---------------------------------------------------------------------------

  lemma HexArithmetic(u: int)
    requires 0 <= u < 0x10000
    ensures u == 4096 * (u / 4096) + 256 * (u / 256 % 16) + 16 * (u / 16 % 16) + u % 16
  {
    assert u == 16 * (u / 16) + u % 16;
    assert u / 16 == 16 * (u / 256) + u / 16 % 16;
    assert u / 256 == 16 * (u / 4096) + u / 256 % 16;
  }

  lemma HexRoundTrip(u: int, t: string)
    requires 0 <= u < 0x10000
    ensures DecodeHex4(Hex4(u) + t) == Some(u)
  {
    var a, b, c, d := u / 4096, u / 256 % 16, u / 16 % 16, u % 16;
    HexArithmetic(u);
    DigitsRoundTrip(a, b, c, d, t);
  }

  lemma DigitsRoundTrip(a: int, b: int, c: int, d: int, t: string)
    requires 0 <= a < 16 && 0 <= b < 16 && 0 <= c < 16 && 0 <= d < 16
    ensures DecodeHex4([HexDigit(a), HexDigit(b), HexDigit(c), HexDigit(d)] + t) ==
            Some(4096 * a + 256 * b + 16 * c + d)
  {
    HexDigitValue(a);
    HexDigitValue(b);
    HexDigitValue(c);
    HexDigitValue(d);
    var text := [HexDigit(a), HexDigit(b), HexDigit(c), HexDigit(d)] + t;
    assert text[0] == HexDigit(a) && text[1] == HexDigit(b) && text[2] == HexDigit(c) && text[3] == HexDigit(d);
  }

  lemma HexDigitValue(d: int)
    requires 0 <= d < 16
    ensures HexValue(HexDigit(d)) == Some(d)
  {
  }

  lemma BmpRoundTrip(c: char, t: string)
    requires c as int < 0x10000
    ensures DecodeUnicode(Hex4(c as int) + t) == Some((c, t))
  {
    HexRoundTrip(c as int, t);
    assert (Hex4(c as int) + t)[4..] == t;
  }

  lemma SurrogateRoundTrip(c: char, t: string)
    requires c as int >= 0x10000
    ensures var units := Utf16(c);
            |units| == 2 && DecodeUnicode(Hex4(units[0]) + ("\\u" + (Hex4(units[1]) + t))) == Some((c, t))
  {
    var units := Utf16(c);
    var low := Hex4(units[1]) + t;
    var rest := "\\u" + low;
    HexRoundTrip(units[0], rest);
    HexRoundTrip(units[1], t);
    SurrogateText(Hex4(units[0]), Hex4(units[1]), t);
  }

  lemma SurrogateText(high: string, low: string, t: string)
    requires |high| == 4 && |low| == 4
    ensures var text := high + ("\\u" + (low + t));
            text[4] == '\\' && text[5] == 'u' && text[6..] == low + t && text[10..] == t
  {
  }

  /** A UTF-16 escape decodes to its character, surrogate pair or not. */
  lemma UnicodeRoundTrip(c: char, t: string)
    ensures var e := UnitEscapes(Utf16(c));
            |e| >= 2 && e[0] == '\\' && e[1] == 'u' && DecodeUnicode(e[2..] + t) == Some((c, t))
  {
    var units := Utf16(c);
    var e := UnitEscapes(units);
    if |units| == 1 {
      SingleEscape(units[0]);
      assert units == [units[0]];
      BmpRoundTrip(c, t);
      assert e[2..] == Hex4(units[0]);
    } else {
      PairEscape(units[0], units[1]);
      assert units == [units[0], units[1]];
      SurrogateRoundTrip(c, t);
      assert e[2..] + t == Hex4(units[0]) + ("\\u" + (Hex4(units[1]) + t));
    }
  }

  lemma SingleEscape(u: int)
    requires 0 <= u < 0x10000
    ensures UnitEscapes([u]) == "\\u" + Hex4(u)
  {
    assert [u][..0] == [];
    assert UnitEscapes([]) == [];
  }

  lemma PairEscape(u: int, v: int)
    requires 0 <= u < 0x10000 && 0 <= v < 0x10000
    ensures UnitEscapes([u, v]) == "\\u" + Hex4(u) + "\\u" + Hex4(v)
  {
    assert [u, v][..1] == [u];
    SingleEscape(u);
  }

  predicate NeedsUnicodeEscape(c: char) {
    && (IsControl(c) || c as int > 0xFFFF)
    && c != '\n' && c != '\r' && c != '\t' && c as int != 0x08 && c as int != 0x0C
  }

  lemma UnicodeCharRoundTrip(c: char, t: string)
    requires NeedsUnicodeEscape(c)
    ensures Escape(c) != [] && Escape(c)[0] == '\\' && DecodeChar(Escape(c) + t) == Some((c, t))
  {
    UnicodeRoundTrip(c, t);
    UnicodeEscaped(c);
    UnicodeText(UnitEscapes(Utf16(c)), t, c);
  }

  lemma UnicodeEscaped(c: char)
    requires NeedsUnicodeEscape(c)
    ensures Escape(c) == UnitEscapes(Utf16(c))
  {
  }

  lemma UnicodeText(e: string, t: string, c: char)
    requires |e| >= 2 && e[0] == '\\' && e[1] == 'u' && DecodeUnicode(e[2..] + t) == Some((c, t))
    ensures DecodeChar(e + t) == Some((c, t))
  {
    assert (e + t)[2..] == e[2..] + t;
    assert (e + t)[0] == '\\' && (e + t)[1] == 'u';
  }

  lemma PlainCharRoundTrip(c: char, t: string)
    requires !NeedsUnicodeEscape(c)
    ensures Escape(c) != [] && Escape(c)[0] != '"' && DecodeChar(Escape(c) + t) == Some((c, t))
  {
    var text := Escape(c) + t;
    if |Escape(c)| == 2 {
      assert text[2..] == t;
      assert text[1] == Escape(c)[1];
    } else {
      assert text[1..] == t;
    }
  }

  lemma CharRoundTrip(c: char, t: string)
    ensures Escape(c) != [] && Escape(c)[0] != '"' && DecodeChar(Escape(c) + t) == Some((c, t))
  {
    if NeedsUnicodeEscape(c) {
      UnicodeCharRoundTrip(c, t);
    } else {
      PlainCharRoundTrip(c, t);
    }
  }

  lemma {:induction false} CharsRoundTrip(s: string, t: string)
    ensures DecodeChars(EscapeAll(s) + "\"" + t) == Some((s, t))
  {
    var text := EscapeAll(s) + "\"" + t;
    if s == [] {
      assert text == "\"" + t;
      assert text[1..] == t;
    } else {
      var rest := EscapeAll(s[1..]) + "\"" + t;
      assert text == Escape(s[0]) + rest;
      CharRoundTrip(s[0], rest);
      CharsRoundTrip(s[1..], t);
      assert [s[0]] + s[1..] == s;
    }
  }

  lemma StringPrefixRoundTrip(s: string, t: string)
    ensures EncodeString(s) != [] && EncodeString(s)[0] == '"'
    ensures DecodeStringPrefix(EncodeString(s) + t) == Some((s, t))
  {
    CharsRoundTrip(s, t);
    assert (EncodeString(s) + t)[1..] == EscapeAll(s) + "\"" + t;
  }

  /** Decoding an encoded string gives the string back, for every string of Unicode scalars. */
  lemma StringRoundTrip(s: string)
    ensures DecodeString(EncodeString(s)) == Some(s)
  {
    StringPrefixRoundTrip(s, []);
    assert EncodeString(s) + [] == EncodeString(s);
  }

  lemma StringEncodingInjective(a: string, b: string)
    requires EncodeString(a) == EncodeString(b)
    ensures a == b
  {
    StringRoundTrip(a);
    StringRoundTrip(b);
  }

  /** `text` is an encoding of `s` that can be decoded whatever follows it. */
  ghost predicate Quotes(text: string, s: string) {
    text != [] && text[0] == '"' && forall t :: DecodeStringPrefix(text + t) == Some((s, t))
  }

  lemma EncodeQuotes(s: string)
    ensures Quotes(EncodeString(s), s)
  {
    forall t
      ensures DecodeStringPrefix(EncodeString(s) + t) == Some((s, t))
    {
      StringPrefixRoundTrip(s, t);
    }
    StringPrefixRoundTrip(s, []);
  }

  /** `text` decodes to `item`, whatever follows, and starts like a string. */
  ghost predicate Decodes(text: string, member: bool, item: Item) {
    text != [] && text[0] == '"' && forall t :: DecodeItem(text + t, member) == Some((item, t))
  }

  lemma ElementDecodes(text: string, s: string)
    requires Quotes(text, s)
    ensures Decodes(text, false, Element(s))
  {
  }

  lemma MemberDecodes(n: string, name: string, v: string, value: string)
    requires Quotes(n, name) && Quotes(v, value)
    ensures Decodes(n + ":" + v, true, Member(name, value))
  {
    forall t
      ensures DecodeItem(n + ":" + v + t, true) == Some((Member(name, value), t))
    {
      Regrouped(n, v, t);
      MemberStep(n + (":" + (v + t)), name, v + t, value, t);
    }
    assert (n + ":" + v)[0] == n[0];
  }

  lemma Regrouped(n: string, v: string, t: string)
    ensures n + ":" + v + t == n + (":" + (v + t))
  {
  }

  lemma MemberStep(text: string, name: string, w: string, value: string, t: string)
    requires DecodeStringPrefix(text) == Some((name, ":" + w))
    requires w != [] && w[0] == '"' && DecodeStringPrefix(w) == Some((value, t))
    ensures DecodeItem(text, true) == Some((Member(name, value), t))
  {
    assert SkipWs(":" + w) == ":" + w && (":" + w)[1..] == w && SkipWs(w) == w;
  }

  lemma LastItem(text: string, member: bool, item: Item, close: char)
    requires Decodes(text, member, item) && (close == ']' || close == '}')
    ensures DecodeItems(text + [close], member, close) == Some(([item], []))
  {
    var rest := [close];
    var r := DecodeItem(text + rest, member);
    assert r == Some((item, rest));
    assert SkipWs(rest) == rest;
    assert rest[1..] == [];
  }

  /** `text` is a comma-separated list of encoded items. */
  ghost predicate ListDecodes(text: string, member: bool, items: seq<Item>, close: char) {
    text != [] && text[0] == '"' && DecodeItems(text + [close], member, close) == Some((items, []))
  }

  lemma OneMoreItem(text: string, member: bool, item: Item, inner: string, items: seq<Item>, close: char)
    requires Decodes(text, member, item) && ListDecodes(inner, member, items, close) && (close == ']' || close == '}')
    ensures ListDecodes(text + "," + inner, member, [item] + items, close)
  {
    var tail := inner + [close];
    var rest := "," + tail;
    Regroup(text, inner, close);
    var r := DecodeItem(text + rest, member);
    assert r == Some((item, rest));
    assert SkipWs(rest) == rest && rest[1..] == tail && SkipWs(tail) == tail;
  }

  /** A comma-separated list of encoded items decodes item by item. */
  ghost predicate AllDecode(texts: seq<string>, member: bool, items: seq<Item>) {
    |texts| == |items| && forall i :: 0 <= i < |texts| ==> Decodes(texts[i], member, items[i])
  }

  lemma DecodeTail(texts: seq<string>, member: bool, items: seq<Item>)
    requires AllDecode(texts, member, items) && texts != []
    ensures Decodes(texts[0], member, items[0]) && AllDecode(texts[1..], member, items[1..])
  {
  }

  lemma {:induction false} ItemsRoundTrip(texts: seq<string>, member: bool, items: seq<Item>, close: char)
    requires AllDecode(texts, member, items) && texts != [] && (close == ']' || close == '}')
    ensures ListDecodes(EncodeItems(texts), member, items, close)
  {
    DecodeTail(texts, member, items);
    if |texts| == 1 {
      LastItem(texts[0], member, items[0], close);
      assert items == [items[0]];
    } else {
      ItemsRoundTrip(texts[1..], member, items[1..], close);
      OneMoreItem(texts[0], member, items[0], EncodeItems(texts[1..]), items[1..], close);
      assert [items[0]] + items[1..] == items;
    }
  }

  lemma Regroup(text: string, inner: string, close: char)
    ensures text + "," + inner + [close] == text + ("," + (inner + [close]))
  {
  }

  lemma BracketedRoundTrip(texts: seq<string>, member: bool, items: seq<Item>, open: char, close: char)
    requires AllDecode(texts, member, items) && (open == '[' || open == '{') && (close == ']' || close == '}')
    ensures DecodeBracketed([open] + EncodeItems(texts) + [close], member, open, close) == Some(items)
  {
    if texts == [] {
      EmptyBrackets(member, open, close);
      assert [open] + EncodeItems(texts) + [close] == [open, close];
    } else {
      ItemsRoundTrip(texts, member, items, close);
      FullBrackets(EncodeItems(texts) + [close], member, items, open, close);
      assert [open] + EncodeItems(texts) + [close] == [open] + (EncodeItems(texts) + [close]);
    }
  }

  lemma EmptyBrackets(member: bool, open: char, close: char)
    requires (open == '[' || open == '{') && (close == ']' || close == '}')
    ensures DecodeBracketed([open, close], member, open, close) == Some([])
  {
    var text := [open, close];
    assert SkipWs(text) == text && text[1..] == [close] && SkipWs([close]) == [close];
    assert [close][1..] == [];
  }

  lemma FullBrackets(inner: string, member: bool, items: seq<Item>, open: char, close: char)
    requires (open == '[' || open == '{') && (close == ']' || close == '}')
    requires inner != [] && inner[0] == '"' && DecodeItems(inner, member, close) == Some((items, []))
    ensures DecodeBracketed([open] + inner, member, open, close) == Some(items)
  {
    var text := [open] + inner;
    assert SkipWs(text) == text && text[1..] == inner && SkipWs(inner) == inner;
  }

  function ArrayItems(values: seq<string>): (r: seq<Item>)
    ensures |r| == |values|
  {
    seq(|values|, i requires 0 <= i < |values| => Element(values[i]))
  }

  function Members(entries: seq<(string, string)>): (r: seq<Item>)
    ensures |r| == |entries|
  {
    seq(|entries|, i requires 0 <= i < |entries| => Member(entries[i].0, entries[i].1))
  }

  lemma ArrayRoundTrip(values: seq<string>)
    ensures DecodeArray(EncodeArray(values)) == Some(ArrayItems(values))
  {
    forall i | 0 <= i < |values|
      ensures Decodes(Encoded(values)[i], false, ArrayItems(values)[i])
    {
      EncodeQuotes(values[i]);
      ElementDecodes(EncodeString(values[i]), values[i]);
    }
    BracketedRoundTrip(Encoded(values), false, ArrayItems(values), '[', ']');
  }

  lemma MapRoundTrip(entries: seq<(string, string)>)
    ensures DecodeObject(EncodeMap(entries)) == Some(Members(entries))
  {
    forall i | 0 <= i < |entries|
      ensures Decodes(EncodedMembers(entries)[i], true, Members(entries)[i])
    {
      var (name, value) := entries[i];
      EncodeQuotes(name);
      EncodeQuotes(value);
      MemberDecodes(EncodeString(name), name, EncodeString(value), value);
    }
    BracketedRoundTrip(EncodedMembers(entries), true, Members(entries), '{', '}');
  }

  /** The map an object's members denote, a later member winning. */
  function ToMap(items: seq<Item>): map<string, string> {
    if items == [] then map[]
    else
      var before, last := ToMap(items[..|items| - 1]), items[|items| - 1];
      if last.Member? then before[last.name := last.value] else before
  }

  /** Each entry of `m` once. */
  ghost predicate Enumerates(entries: seq<(string, string)>, m: map<string, string>) {
    && (forall i, j :: 0 <= i < j < |entries| ==> entries[i].0 != entries[j].0)
    && (forall i :: 0 <= i < |entries| ==> entries[i].0 in m && m[entries[i].0] == entries[i].1)
    && (forall k :: k in m ==> exists i :: 0 <= i < |entries| && entries[i].0 == k)
  }

  lemma EnumeratesFront(entries: seq<(string, string)>, m: map<string, string>)
    requires Enumerates(entries, m) && entries != []
    ensures Enumerates(entries[..|entries| - 1], m - {entries[|entries| - 1].0})
  {
    var front, last := entries[..|entries| - 1], entries[|entries| - 1];
    forall k | k in m - {last.0}
      ensures exists i :: 0 <= i < |front| && front[i].0 == k
    {
      var i :| 0 <= i < |entries| && entries[i].0 == k;
      assert front[i].0 == k;
    }
  }

  lemma ToMapSnoc(items: seq<Item>, name: string, value: string)
    ensures ToMap(items + [Member(name, value)]) == ToMap(items)[name := value]
  {
    assert (items + [Member(name, value)])[..|items|] == items;
  }

  lemma PutBack(m: map<string, string>, k: string)
    requires k in m
    ensures (m - {k})[k := m[k]] == m
  {
  }

  lemma {:induction false} MembersDenote(entries: seq<(string, string)>, m: map<string, string>)
    requires Enumerates(entries, m)
    ensures ToMap(Members(entries)) == m
  {
    if entries == [] {
      assert m == map[];
    } else {
      var front, last := entries[..|entries| - 1], entries[|entries| - 1];
      assert Members(entries) == Members(front) + [Member(last.0, last.1)];
      EnumeratesFront(entries, m);
      MembersDenote(front, m - {last.0});
      ToMapSnoc(Members(front), last.0, last.1);
      PutBack(m, last.0);
    }
  }

  /** Decoding the text of a map gives the map back, in whatever order its entries were written. */
  lemma MapContents(entries: seq<(string, string)>, m: map<string, string>)
    requires Enumerates(entries, m)
    ensures DecodeObject(EncodeMap(entries)).Some? && ToMap(DecodeObject(EncodeMap(entries)).value) == m
  {
    MapRoundTrip(entries);
    MembersDenote(entries, m);
  }

  lemma ArrayEncodingInjective(a: seq<string>, b: seq<string>)
    requires EncodeArray(a) == EncodeArray(b)
    ensures a == b
  {
    ArrayRoundTrip(a);
    ArrayRoundTrip(b);
    var x, y := ArrayItems(a), ArrayItems(b);
    assert forall i :: 0 <= i < |a| ==> a[i] == x[i].text && b[i] == y[i].text;
  }

  lemma MapEncodingInjective(a: seq<(string, string)>, b: seq<(string, string)>)
    requires EncodeMap(a) == EncodeMap(b)
    ensures a == b
  {
    MapRoundTrip(a);
    MapRoundTrip(b);
    var x, y := Members(a), Members(b);
    assert forall i :: 0 <= i < |a| ==> a[i] == (x[i].name, x[i].value) && b[i] == (y[i].name, y[i].value);
  }

  // ---------------------------------------------------------------------------
  // The encoders
  // ---------------------------------------------------------------------------

  method PushUtf16Escape(json: string, c: char) returns (r: string)
    ensures r == json + UnitEscapes(Utf16(c))
  {
    r := json;
    var units := Utf16(c);
    var i := 0;
    while i < |units|
      invariant 0 <= i <= |units|
      invariant r == json + UnitEscapes(units[..i])
    {
      assert units[..i + 1][..i] == units[..i];
      r := r + "\\u" + Hex4(units[i]);
      i := i + 1;
    }
    assert units[..i] == units;
  }

  lemma {:induction false} EscapeAllAppend(s: string, c: char)
    ensures EscapeAll(s + [c]) == EscapeAll(s) + Escape(c)
  {
    if s == [] {
      assert (s + [c])[1..] == [];
    } else {
      assert (s + [c])[1..] == s[1..] + [c];
      EscapeAllAppend(s[1..], c);
    }
  }

  method PushEscaped(json: string, c: char) returns (r: string)
    ensures r == json + Escape(c)
  {
    if c == '"' {
      r := json + "\\\"";
    } else if c == '\\' {
      r := json + "\\\\";
    } else if c == '\n' {
      r := json + "\\n";
    } else if c == '\r' {
      r := json + "\\r";
    } else if c == '\t' {
      r := json + "\\t";
    } else if c as int == 0x08 {
      r := json + "\\b";
    } else if c as int == 0x0C {
      r := json + "\\f";
    } else if IsControl(c) || c as int > 0xFFFF {
      r := PushUtf16Escape(json, c);
    } else {
      r := json + [c];
    }
  }

  lemma EscapeNext(done: string, c: char)
    ensures "\"" + EscapeAll(done) + Escape(c) == "\"" + EscapeAll(done + [c])
  {
    EscapeAllAppend(done, c);
    ConcatAssoc("\"", EscapeAll(done), Escape(c));
  }

  lemma ConcatAssoc(a: string, b: string, c: string)
    ensures a + (b + c) == a + b + c
  {
  }

  method EncodeJsonString(value: string) returns (json: string)
    ensures json == EncodeString(value)
  {
    json := "\"";
    ghost var done := "";
    var i := 0;
    while i < |value|
      invariant 0 <= i <= |value| && done == value[..i]
      invariant json == "\"" + EscapeAll(done)
    {
      EscapeNext(done, value[i]);
      json := PushEscaped(json, value[i]);
      done := done + [value[i]];
      i := i + 1;
    }
    assert done == value;
    json := json + "\"";
  }

  lemma {:induction false} EncodeItemsAppend(items: seq<string>, item: string)
    ensures EncodeItems(items + [item]) == if items == [] then item else EncodeItems(items) + "," + item
  {
    if |items| >= 1 {
      assert (items + [item])[1..] == items[1..] + [item];
      EncodeItemsAppend(items[1..], item);
    }
  }

  method EncodeJsonStringArray(values: seq<string>) returns (json: string)
    ensures json == EncodeArray(values)
  {
    ghost var items := Encoded(values);
    json := "[";
    var i := 0;
    while i < |values|
      invariant 0 <= i <= |values|
      invariant json == "[" + EncodeItems(items[..i])
    {
      EncodeItemsAppend(items[..i], items[i]);
      PrefixStep(items, i);
      if i > 0 {
        json := json + ",";
      }
      var item := EncodeJsonString(values[i]);
      json := json + item;
      i := i + 1;
    }
    WholePrefix(items);
    json := json + "]";
  }

  method EncodeMember(name: string, value: string) returns (json: string)
    ensures json == EncodeString(name) + ":" + EncodeString(value)
  {
    json := EncodeJsonString(name);
    json := json + ":";
    var text := EncodeJsonString(value);
    json := json + text;
  }

  /** `entries` are the ordered map's entries in key order. */
  method EncodeJsonStringMap(entries: seq<(string, string)>) returns (json: string)
    ensures json == EncodeMap(entries)
  {
    ghost var members := EncodedMembers(entries);
    json := "{";
    var i := 0;
    while i < |entries|
      invariant 0 <= i <= |entries|
      invariant json == "{" + EncodeItems(members[..i])
    {
      EncodeItemsAppend(members[..i], members[i]);
      PrefixStep(members, i);
      if i > 0 {
        json := json + ",";
      }
      var member := EncodeMember(entries[i].0, entries[i].1);
      json := json + member;
      i := i + 1;
    }
    WholePrefix(members);
    json := json + "}";
  }

  lemma PrefixStep(items: seq<string>, i: int)
    requires 0 <= i < |items|
    ensures items[..i + 1] == items[..i] + [items[i]]
  {
  }

  lemma WholePrefix(items: seq<string>)
    ensures items[..|items|] == items
  {
  }
}
