/** Parsing undoes rendering, so different values never share a text. */
module JsonRoundTrip {
  import opened Wrappers
  import opened Json
  import opened JsonText

  /** The text after a value cannot be mistaken for more of a number. */
  predicate Stops(rest: string) {
    rest == "" || !InNumeral(rest[0])
  }

  lemma {:induction false} NumeralEnds(t: string, rest: string)
    requires AllNumeral(t) && Stops(rest)
    ensures NumeralLength(t + rest) == |t|
  {
    if t == "" {
      assert t + rest == rest;
    } else {
      assert (t + rest)[1..] == t[1..] + rest;
      NumeralEnds(t[1..], rest);
    }
  }

  lemma ParseNumeral(t: string, rest: string)
    requires t != "" && AllNumeral(t) && Stops(rest)
    ensures Parse(t + rest) == Some((if '.' in t || 'e' in t then Float(t) else Int(Integer(t)), rest))
  {
    NumeralEnds(t, rest);
    assert (t + rest)[..|t|] == t && (t + rest)[|t|..] == rest;
    assert InNumeral(t[0]);
  }

  /** A rendered value is not empty, and does not start like the end of a list. */
  lemma RenderStarts(j: Json)
    requires FloatsOk(j)
    ensures Render(j) != "" && Render(j)[0] != ']'
  {
    match j
    case Int(n) => IntegerOfDecimal(n);
    case Float(t) => assert InNumeral(t[0]);
    case _ =>
  }

  lemma ParseText(s: string, rest: string)
    ensures Parse(Quote(s) + rest) == Some((Str(s), rest))
  {
    ParseQuoted(s, rest);
    assert (Quote(s) + rest)[1..] == EscapeAll(s) + "\"" + rest;
  }

  lemma ParseRenderedAtom(j: Json, rest: string)
    requires FloatsOk(j) && Stops(rest) && !j.List? && !j.Dict?
    ensures Parse(Render(j) + rest) == Some((j, rest))
  {
    match j
    case Null => assert ("null" + rest)[4..] == rest;
    case Bool(b) =>
      assert ("true" + rest)[4..] == rest;
      assert ("false" + rest)[5..] == rest;
    case Int(n) =>
      IntegerOfDecimal(n);
      ParseNumeral(Decimal(n), rest);
    case Float(t) => ParseNumeral(t, rest);
    case Str(s) => ParseText(s, rest);
  }

  lemma ParseBracketed(s: string, items: seq<Json>, rest: string)
    requires ParseItems(s) == Some((items, rest)) && s != "" && s[0] != ']'
    ensures Parse("[" + s) == Some((List(items), rest))
  {
    assert ("[" + s)[1..] == s;
  }

  lemma ParseBraced(s: string, entries: seq<(string, Json)>, rest: string)
    requires ParseEntries(s) == Some((entries, rest)) && s != "" && s[0] != '}'
    ensures Parse("{" + s) == Some((Dict(entries), rest))
  {
    assert ("{" + s)[1..] == s;
  }

  lemma EntriesStart(entries: seq<(string, Json)>)
    requires entries != []
    ensures RenderEntries(entries) != "" && RenderEntries(entries)[0] == '\"'
  {
  }

  lemma ParseRenderedList(items: seq<Json>, rest: string)
    requires items != [] && FloatsOk(items[0]) && ParseItems(RenderItems(items) + rest) == Some((items, rest))
    ensures Parse(Render(List(items)) + rest) == Some((List(items), rest))
  {
    RenderStarts(items[0]);
    ParseBracketed(RenderItems(items) + rest, items, rest);
    assert Render(List(items)) + rest == "[" + (RenderItems(items) + rest);
  }

  lemma ParseRenderedDict(entries: seq<(string, Json)>, rest: string)
    requires entries != [] && ParseEntries(RenderEntries(entries) + rest) == Some((entries, rest))
    ensures Parse(Render(Dict(entries)) + rest) == Some((Dict(entries), rest))
  {
    EntriesStart(entries);
    ParseBraced(RenderEntries(entries) + rest, entries, rest);
    assert Render(Dict(entries)) + rest == "{" + (RenderEntries(entries) + rest);
  }

  lemma {:induction false} ParseRendered(j: Json, rest: string)
    requires FloatsOk(j) && Stops(rest)
    ensures Parse(Render(j) + rest) == Some((j, rest))
    decreases j
  {
    match j
    case List(items) =>
      if items == [] {
        assert ("[]" + rest)[2..] == rest;
      } else {
        ParseRenderedItems(items, rest);
        ParseRenderedList(items, rest);
      }
    case Dict(entries) =>
      if entries == [] {
        assert ("{}" + rest)[2..] == rest;
      } else {
        ParseRenderedEntries(entries, rest);
        ParseRenderedDict(entries, rest);
      }
    case _ => ParseRenderedAtom(j, rest);
  }

  lemma {:induction false} ParseRenderedItems(items: seq<Json>, rest: string)
    requires items != [] && forall i | 0 <= i < |items| :: FloatsOk(items[i])
    ensures ParseItems(RenderItems(items) + rest) == Some((items, rest))
    decreases items
  {
    var tail := (if |items| == 1 then "]" else "," + RenderItems(items[1..])) + rest;
    assert RenderItems(items) + rest == Render(items[0]) + tail;
    ParseRendered(items[0], tail);
    if |items| == 1 {
      assert tail[1..] == rest && items == [items[0]];
    } else {
      assert tail[1..] == RenderItems(items[1..]) + rest;
      ParseRenderedItems(items[1..], rest);
      assert items == [items[0]] + items[1..];
    }
  }

  lemma ParseKeyed(x: string, key: string, value: string, v: Json, tail: string)
    requires ParseString(x) == Some((key, ":" + value)) && Parse(value) == Some((v, tail))
    ensures ParseEntry("\"" + x) == Some(((key, v), tail))
  {
    assert ("\"" + x)[1..] == x;
    assert (":" + value)[1..] == value;
  }

  lemma {:induction false} ParseRenderedEntry(e: (string, Json), tail: string)
    requires FloatsOk(e.1) && Stops(tail)
    ensures ParseEntry(RenderEntry(e) + tail) == Some((e, tail))
    decreases e
  {
    var value := Render(e.1) + tail;
    var x := EscapeAll(e.0) + "\"" + (":" + value);
    ParseQuoted(e.0, ":" + value);
    ParseRendered(e.1, tail);
    ParseKeyed(x, e.0, value, e.1, tail);
    RenderedEntry(e, tail);
  }

  lemma RenderedEntry(e: (string, Json), tail: string)
    ensures RenderEntry(e) + tail == "\"" + (EscapeAll(e.0) + "\"" + (":" + (Render(e.1) + tail)))
  {
    Reassociate(EscapeAll(e.0), Render(e.1), tail);
  }

  lemma Reassociate(key: string, value: string, tail: string)
    ensures "\"" + key + "\"" + ":" + value + tail == "\"" + (key + "\"" + (":" + (value + tail)))
  {
  }

  lemma {:induction false} RenderedEntries(entries: seq<(string, Json)>, rest: string)
    requires entries != []
    ensures RenderEntries(entries) + rest ==
            RenderEntry(entries[0]) + if |entries| == 1 then "}" + rest else "," + (RenderEntries(entries[1..]) + rest)
  {
  }

  lemma ParseLastEntry(s: string, e: (string, Json), rest: string)
    requires ParseEntry(s) == Some((e, "}" + rest))
    ensures ParseEntries(s) == Some(([e], rest))
  {
    assert ("}" + rest)[1..] == rest;
  }

  lemma ParseNextEntry(s: string, e: (string, Json), tail: string, more: seq<(string, Json)>, rest: string)
    requires ParseEntry(s) == Some((e, "," + tail)) && ParseEntries(tail) == Some((more, rest))
    ensures ParseEntries(s) == Some(([e] + more, rest))
  {
    assert ("," + tail)[1..] == tail;
  }

  lemma {:induction false} ParseRenderedEntries(entries: seq<(string, Json)>, rest: string)
    requires entries != [] && forall i | 0 <= i < |entries| :: FloatsOk(entries[i].1)
    ensures ParseEntries(RenderEntries(entries) + rest) == Some((entries, rest))
    decreases entries
  {
    RenderedEntries(entries, rest);
    var s, e := RenderEntries(entries) + rest, entries[0];
    if |entries| == 1 {
      ParseRenderedEntry(e, "}" + rest);
      ParseLastEntry(s, e, rest);
      assert entries == [e];
    } else {
      var more := entries[1..];
      var tail := RenderEntries(more) + rest;
      ParseRenderedEntry(e, "," + tail);
      ParseRenderedEntries(more, rest);
      ParseNextEntry(s, e, tail, more, rest);
      assert entries == [e] + more;
    }
  }

  /** Different values have different texts. */
  lemma {:induction false} RenderInjective(a: Json, b: Json)
    requires FloatsOk(a) && FloatsOk(b) && Render(a) == Render(b)
    ensures a == b
  {
    ParseRendered(a, "");
    ParseRendered(b, "");
    assert Render(a) + "" == Render(a) && Render(b) + "" == Render(b);
  }
}
