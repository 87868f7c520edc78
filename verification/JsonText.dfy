/** The text form of canonical JSON, and a parser that undoes it (sections 4, 6 and 7 of RFC 8259). */
module JsonText {
  import opened Wrappers
  import opened Json

  // ---------- numbers ----------

  predicate IsDigit(c: char) {
    '0' <= c <= '9'
  }

  predicate InNumeral(c: char) {
    IsDigit(c) || c == '-' || c == '+' || c == '.' || c == 'e'
  }

  predicate AllNumeral(s: string) {
    forall i | 0 <= i < |s| :: InNumeral(s[i])
  }

  /** A float keeps its numeral as text: numeral characters, with a point or an exponent that an integer never has. */
  predicate FloatText(t: string) {
    AllNumeral(t) && ('.' in t || 'e' in t)
  }

  predicate FloatsOk(j: Json) {
    match j
    case Float(t) => FloatText(t)
    case List(items) => forall i | 0 <= i < |items| :: FloatsOk(items[i])
    case Dict(entries) => forall i | 0 <= i < |entries| :: FloatsOk(entries[i].1)
    case _ => true
  }

  function DigitChar(n: nat): char
    requires n < 10
  {
    '0' + n as char
  }

  function Digits(n: nat): string {
    if n < 10 then [DigitChar(n)] else Digits(n / 10) + [DigitChar(n % 10)]
  }

  function Decimal(n: int): string {
    if n < 0 then "-" + Digits(-n) else Digits(n)
  }

  function Number(s: string): nat {
    if s == "" then 0
    else Number(s[..|s| - 1]) * 10 + (if IsDigit(s[|s| - 1]) then (s[|s| - 1] - '0') as nat else 0)
  }

  function Integer(s: string): int {
    if s != "" && s[0] == '-' then -(Number(s[1..]) as int) else Number(s)
  }

  lemma {:induction false} NumberOfDigits(n: nat)
    ensures Number(Digits(n)) == n && Digits(n) != "" && forall i | 0 <= i < |Digits(n)| :: IsDigit(Digits(n)[i])
  {
    if n >= 10 {
      NumberOfDigits(n / 10);
      assert Digits(n)[..|Digits(n)| - 1] == Digits(n / 10);
    } else {
      assert Digits(n)[..0] == "";
    }
  }

  lemma {:induction false} IntegerOfDecimal(n: int)
    ensures Integer(Decimal(n)) == n && Decimal(n) != "" && AllNumeral(Decimal(n)) && '.' !in Decimal(n) &&
              'e' !in Decimal(n)
  {
    NumberOfDigits(if n < 0 then -n else n);
    if n < 0 {
      assert Decimal(n)[1..] == Digits(-n);
    }
  }

  // ---------- strings ----------

  function HexChar(n: nat): char
    requires n < 16
  {
    if n < 10 then '0' + n as char else 'a' + (n - 10) as char
  }

  function HexValue(c: char): Option<nat> {
    if '0' <= c <= '9' then Some((c - '0') as nat)
    else if 'a' <= c <= 'f' then Some((c - 'a') as nat + 10) else None
  }

  /** Only quotes, backslashes and control characters are escaped. */
  function Escape(c: char): string {
    if c == '\"' then "\\\""
    else if c == '\\' then "\\\\"
    else if c == '\n' then "\\n"
    else if c == '\r' then "\\r"
    else if c == '\t' then "\\t"
    else if c == '\U{0008}' then "\\b"
    else if c == '\U{000C}' then "\\f"
    else if c < ' ' then "\\u00" + [HexChar(c as nat / 16), HexChar(c as nat % 16)]
    else [c]
  }

  function EscapeAll(s: string): string {
    if s == "" then "" else Escape(s[0]) + EscapeAll(s[1..])
  }

  function Quote(s: string): string {
    "\"" + EscapeAll(s) + "\""
  }

  /** The control character of a six-character escape. */
  function ControlEscape(s: string): Option<(char, string)> {
    if |s| < 6 || s[2] != '0' || s[3] != '0' || HexValue(s[4]).None? || HexValue(s[5]).None? then None
    else Some(((HexValue(s[4]).value * 16 + HexValue(s[5]).value) as char, s[6..]))
  }

  /** One character of a string body, and what follows it. */
  function Unescape(s: string): Option<(char, string)>
    requires s != ""
    ensures Unescape(s).Some? ==> |Unescape(s).value.1| < |s|
  {
    if s[0] == '\"' || s[0] < ' ' then None
    else if s[0] != '\\' then Some((s[0], s[1..]))
    else if |s| < 2 then None
    else if s[1] == '\"' || s[1] == '\\' then Some((s[1], s[2..]))
    else if s[1] == 'n' then Some(('\n', s[2..]))
    else if s[1] == 'r' then Some(('\r', s[2..]))
    else if s[1] == 't' then Some(('\t', s[2..]))
    else if s[1] == 'b' then Some(('\U{0008}', s[2..]))
    else if s[1] == 'f' then Some(('\U{000C}', s[2..]))
    else if s[1] == 'u' then ControlEscape(s)
    else None
  }

  lemma {:induction false} UnescapeEscaped(c: char, tail: string)
    ensures Escape(c) != "" && Unescape(Escape(c) + tail) == Some((c, tail)) && Escape(c)[0] != '\"'
  {
    if c < ' ' && |Escape(c)| == 6 {
      var s := Escape(c) + tail;
      assert s[6..] == tail && s[4] == HexChar(c as nat / 16) && s[5] == HexChar(c as nat % 16);
    } else {
      assert (Escape(c) + tail)[|Escape(c)|..] == tail;
    }
  }

  function ParseString(s: string): (r: Option<(string, string)>)
    ensures r.Some? ==> |r.value.1| < |s|
  {
    if s == "" then None
    else if s[0] == '\"' then Some(("", s[1..]))
    else
      var c := Unescape(s);
      if c.None? then None
      else
        var more := ParseString(c.value.1);
        if more.None? then None else Some(([c.value.0] + more.value.0, more.value.1))
  }

  lemma ParseOneMore(c: char, tail: string, t: string, rest: string)
    requires ParseString(tail) == Some((t, rest))
    ensures ParseString(Escape(c) + tail) == Some(([c] + t, rest))
  {
    UnescapeEscaped(c, tail);
    assert (Escape(c) + tail)[0] == Escape(c)[0];
  }

  lemma EscapeStep(t: string, rest: string)
    requires t != ""
    ensures EscapeAll(t) + "\"" + rest == Escape(t[0]) + (EscapeAll(t[1..]) + "\"" + rest)
  {
  }

  lemma {:induction false} ParseQuoted(t: string, rest: string)
    ensures ParseString(EscapeAll(t) + "\"" + rest) == Some((t, rest))
  {
    if t == "" {
      assert EscapeAll(t) + "\"" + rest == "\"" + rest;
    } else {
      ParseQuoted(t[1..], rest);
      EscapeStep(t, rest);
      ParseOneMore(t[0], EscapeAll(t[1..]) + "\"" + rest, t[1..], rest);
      assert t == [t[0]] + t[1..];
    }
  }

  // ---------- values ----------

  function Render(j: Json): string {
    match j
    case Null => "null"
    case Bool(b) => if b then "true" else "false"
    case Int(n) => Decimal(n)
    case Float(t) => t
    case Str(s) => Quote(s)
    case List(items) => if items == [] then "[]" else "[" + RenderItems(items)
    case Dict(entries) => if entries == [] then "{}" else "{" + RenderEntries(entries)
  }

  function RenderItems(items: seq<Json>): string {
    if items == [] then ""
    else Render(items[0]) + (if |items| == 1 then "]" else "," + RenderItems(items[1..]))
  }

  function RenderEntry(e: (string, Json)): string {
    Quote(e.0) + ":" + Render(e.1)
  }

  function RenderEntries(entries: seq<(string, Json)>): string {
    if entries == [] then ""
    else RenderEntry(entries[0]) + (if |entries| == 1 then "}" else "," + RenderEntries(entries[1..]))
  }

  // ---------- the parser ----------

  function NumeralLength(s: string): (n: nat)
    ensures n <= |s|
  {
    if s != "" && InNumeral(s[0]) then 1 + NumeralLength(s[1..]) else 0
  }

  function ParseNumber(s: string): (r: Option<(Json, string)>)
    ensures r.Some? ==> |r.value.1| < |s|
  {
    var n := NumeralLength(s);
    if n == 0 then None
    else
      var t := s[..n];
      Some((if '.' in t || 'e' in t then Float(t) else Int(Integer(t)), s[n..]))
  }

  function Parse(s: string): (r: Option<(Json, string)>)
    ensures r.Some? ==> |r.value.1| < |s|
    decreases |s|, 1
  {
    if s == "" then None
    else if s[0] == 'n' then if "null" <= s then Some((Null, s[4..])) else None
    else if s[0] == 't' then if "true" <= s then Some((Bool(true), s[4..])) else None
    else if s[0] == 'f' then if "false" <= s then Some((Bool(false), s[5..])) else None
    else if s[0] == '\"' then
      var t := ParseString(s[1..]);
      if t.None? then None else Some((Str(t.value.0), t.value.1))
    else if s[0] == '[' then
      if |s| > 1 && s[1] == ']' then Some((List([]), s[2..]))
      else
        var items := ParseItems(s[1..]);
        if items.None? then None else Some((List(items.value.0), items.value.1))
    else if s[0] == '{' then
      if |s| > 1 && s[1] == '}' then Some((Dict([]), s[2..]))
      else
        var entries := ParseEntries(s[1..]);
        if entries.None? then None else Some((Dict(entries.value.0), entries.value.1))
    else ParseNumber(s)
  }

  function ParseItems(s: string): (r: Option<(seq<Json>, string)>)
    ensures r.Some? ==> |r.value.1| < |s|
    decreases |s|, 2
  {
    var first := Parse(s);
    if first.None? || first.value.1 == "" then None
    else if first.value.1[0] == ']' then Some(([first.value.0], first.value.1[1..]))
    else if first.value.1[0] == ',' then
      var more := ParseItems(first.value.1[1..]);
      if more.None? then None else Some(([first.value.0] + more.value.0, more.value.1))
    else None
  }

  function ParseEntry(s: string): (r: Option<((string, Json), string)>)
    ensures r.Some? ==> |r.value.1| < |s|
    decreases |s|, 2
  {
    if s == "" || s[0] != '\"' then None
    else
      var key := ParseString(s[1..]);
      if key.None? || key.value.1 == "" || key.value.1[0] != ':' then None
      else
        var value := Parse(key.value.1[1..]);
        if value.None? then None else Some(((key.value.0, value.value.0), value.value.1))
  }

  function ParseEntries(s: string): (r: Option<(seq<(string, Json)>, string)>)
    ensures r.Some? ==> |r.value.1| < |s|
    decreases |s|, 3
  {
    var first := ParseEntry(s);
    if first.None? || first.value.1 == "" then None
    else if first.value.1[0] == '}' then Some(([first.value.0], first.value.1[1..]))
    else if first.value.1[0] == ',' then
      var more := ParseEntries(first.value.1[1..]);
      if more.None? then None else Some(([first.value.0] + more.value.0, more.value.1))
    else None
  }
}
