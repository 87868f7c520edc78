/** The canonical text read off the page: the order of keys, the escapes, the digits, and examples. */
module TextRules {
  import opened Json
  import opened JsonText
  import opened JsonOrder
  import opened CanonicalManifest

  // ---------- the order of keys ----------

  /** The strings agree up to here, and then the first one ends or has the smaller code point. */
  predicate SmallerAt(s: string, t: string, k: nat) {
    && k <= |s| && k < |t| && s[..k] == t[..k]
    && (k == |s| || (s[k] as int) < (t[k] as int))
  }

  lemma {:induction false} SmallerIsBefore(s: string, t: string, k: nat)
    requires SmallerAt(s, t, k)
    ensures Before(s, t)
  {
    if k > 0 {
      assert s[..k][0] == s[0] && t[..k][0] == t[0];
      assert s[1..][..k - 1] == s[..k][1..] && t[1..][..k - 1] == t[..k][1..];
      SmallerIsBefore(s[1..], t[1..], k - 1);
    }
  }

  lemma {:induction false} BeforeIsSmaller(s: string, t: string) returns (k: nat)
    requires Before(s, t)
    ensures SmallerAt(s, t, k)
  {
    if s == "" || s[0] < t[0] {
      k := 0;
    } else {
      var rest := BeforeIsSmaller(s[1..], t[1..]);
      k := rest + 1;
      assert s[..k] == [s[0]] + s[1..][..rest] && t[..k] == [t[0]] + t[1..][..rest];
    }
  }

  /** Keys are ordered by the code point of their first difference; a proper prefix comes first. */
  lemma {:induction false} BeforeIffSmaller(s: string, t: string)
    ensures Before(s, t) <==> exists k: nat :: SmallerAt(s, t, k)
  {
    if Before(s, t) {
      var k := BeforeIsSmaller(s, t);
    }
    if k: nat :| SmallerAt(s, t, k) {
      SmallerIsBefore(s, t, k);
    }
  }

  /** In every mapping, at any depth, the keys ascend. */
  predicate Ascends(j: Json) {
    match j
    case List(items) => forall i | 0 <= i < |items| :: Ascends(items[i])
    case Dict(entries) => Sorted(entries) && forall i | 0 <= i < |entries| :: Ascends(entries[i].1)
    case _ => true
  }

  lemma {:induction false} InsertKeepsElements<T>(e: (string, T), es: seq<(string, T)>)
    ensures forall x :: x in Insert(e, es) <==> x == e || x in es
  {
    if es != [] && !Before(e.0, es[0].0) {
      InsertKeepsElements(e, es[1..]);
      assert es == [es[0]] + es[1..];
    }
  }

  lemma {:induction false} SortKeepsElements<T>(es: seq<(string, T)>)
    ensures forall x :: x in SortEntries(es) <==> x in es
  {
    if es != [] {
      SortKeepsElements(es[1..]);
      InsertKeepsElements(es[0], SortEntries(es[1..]));
      assert es == [es[0]] + es[1..];
    }
  }

  lemma AscendingEntries(entries: seq<(string, Json)>)
    requires DistinctKeys(entries) && forall i | 0 <= i < |entries| :: Ascends(Norm(entries[i].1))
    ensures Ascends(Norm(Dict(entries)))
  {
    NormSorted(entries);
    NormKeys(entries);
    SortKeepsElements(NormEntries(entries));
    var sorted := SortEntries(NormEntries(entries));
    forall i | 0 <= i < |sorted|
      ensures Ascends(sorted[i].1)
    {
      assert sorted[i] in NormEntries(entries);
    }
  }

  /** The canonical text is that of a value whose keys ascend in every mapping. */
  lemma {:induction false} CanonicalKeysAscend(j: Json)
    requires Keyed(j)
    ensures Ascends(Norm(j)) && CanonicalText(j) == Render(Norm(j))
  {
    match j
    case List(items) =>
      forall i | 0 <= i < |items|
        ensures Ascends(Norm(items[i]))
      {
        CanonicalKeysAscend(items[i]);
      }
    case Dict(entries) =>
      forall i | 0 <= i < |entries|
        ensures Ascends(Norm(entries[i].1))
      {
        CanonicalKeysAscend(entries[i].1);
      }
      AscendingEntries(entries);
    case _ =>
  }

  // ---------- escapes and digits ----------

  predicate Escaped(c: char) {
    c == '\"' || c == '\\' || (c as int) < 32
  }

  /** Two hexadecimal digits with small letters. */
  predicate HexPair(x: char, y: char, n: int) {
    exists h, l :: 0 <= h < 16 && 0 <= l < 16 && n == 16 * h + l && HexOf(h, x) && HexOf(l, y)
  }

  predicate HexOf(n: int, c: char) {
    if n < 10 then c as int == 48 + n else c as int == 87 + n
  }

  /** Quotes and backslashes get a backslash; five control characters have a letter and the others their number; every
      other character stands for itself. */
  lemma {:induction false} EscapesAreSpelled(c: char)
    ensures !Escaped(c) ==> Escape(c) == [c]
    ensures c == '\"' || c == '\\' ==> Escape(c) == ['\\', c]
    ensures c as int == 8 ==> Escape(c) == "\\b"
    ensures c as int == 9 ==> Escape(c) == "\\t"
    ensures c as int == 10 ==> Escape(c) == "\\n"
    ensures c as int == 12 ==> Escape(c) == "\\f"
    ensures c as int == 13 ==> Escape(c) == "\\r"
    ensures (c as int) < 32 && c as int !in {8, 9, 10, 12, 13} ==>
              |Escape(c)| == 6 && Escape(c)[..4] == "\\u00" && HexPair(Escape(c)[4], Escape(c)[5], c as int)
  {
    if (c as int) < 32 && c as int !in {8, 9, 10, 12, 13} {
      HexDigits(c);
    }
  }

  lemma HexDigits(c: char)
    requires (c as int) < 32
    ensures HexPair(HexChar(c as nat / 16), HexChar(c as nat % 16), c as int)
  {
    var h, l := c as nat / 16, c as nat % 16;
    assert HexOf(h, HexChar(h)) && HexOf(l, HexChar(l));
  }

  /** Decimal digits without a leading zero. */
  lemma {:induction false} DigitsHaveNoLeadingZero(n: nat)
    ensures Digits(n) != "" && (n > 0 ==> Digits(n)[0] != '0') && (n == 0 ==> Digits(n) == "0")
    ensures Number(Digits(n)) == n && forall i | 0 <= i < |Digits(n)| :: IsDigit(Digits(n)[i])
  {
    NumberOfDigits(n);
    if n >= 10 {
      DigitsHaveNoLeadingZero(n / 10);
    }
  }

  // ---------- lists and mappings ----------

  function Commas(texts: seq<string>): string {
    if texts == [] then "" else if |texts| == 1 then texts[0] else texts[0] + "," + Commas(texts[1..])
  }

  function Texts(items: seq<Json>): (r: seq<string>)
    ensures |r| == |items| && forall i | 0 <= i < |r| :: r[i] == Render(items[i])
  {
    seq(|items|, i requires 0 <= i < |items| => Render(items[i]))
  }

  function Pairs(entries: seq<(string, Json)>): (r: seq<string>)
    ensures |r| == |entries| && forall i | 0 <= i < |r| :: r[i] == Quote(entries[i].0) + ":" + Render(entries[i].1)
  {
    seq(|entries|, i requires 0 <= i < |entries| => Quote(entries[i].0) + ":" + Render(entries[i].1))
  }

  lemma CommasStep(texts: seq<string>)
    requires texts != []
    ensures Commas(texts) == texts[0] + if |texts| == 1 then "" else "," + Commas(texts[1..])
  {
  }

  lemma {:induction false} ItemsHaveCommas(items: seq<Json>)
    requires items != []
    ensures RenderItems(items) == Commas(Texts(items)) + "]"
  {
    CommasStep(Texts(items));
    if |items| > 1 {
      ItemsHaveCommas(items[1..]);
      assert Texts(items)[1..] == Texts(items[1..]);
    }
  }

  lemma {:induction false} EntriesHaveCommas(entries: seq<(string, Json)>)
    requires entries != []
    ensures RenderEntries(entries) == Commas(Pairs(entries)) + "}"
  {
    CommasStep(Pairs(entries));
    if |entries| > 1 {
      EntriesHaveCommas(entries[1..]);
      assert Pairs(entries)[1..] == Pairs(entries[1..]);
    }
  }

  /** No blanks anywhere: elements are separated by a comma, and a key from its value by a colon. */
  lemma {:induction false} TextsAreCompact(j: Json)
    ensures j.List? ==> Render(j) == "[" + Commas(Texts(j.items)) + "]"
    ensures j.Dict? ==> Render(j) == "{" + Commas(Pairs(j.entries)) + "}"
    ensures j == Null ==> Render(j) == "null"
    ensures j.Bool? ==> Render(j) == if j.b then "true" else "false"
    ensures j.Int? ==> Render(j) == if j.n < 0 then "-" + Digits(-j.n) else Digits(j.n)
    ensures j.Str? ==> Render(j) == "\"" + EscapeAll(j.s) + "\""
    ensures j.Float? ==> Render(j) == j.text
  {
    if j.List? && j.items != [] {
      ItemsHaveCommas(j.items);
    } else if j.Dict? && j.entries != [] {
      EntriesHaveCommas(j.entries);
    }
  }

  /** A text is escaped character by character. */
  lemma {:induction false} EscapesAppend(s: string, t: string)
    ensures EscapeAll(s + t) == EscapeAll(s) + EscapeAll(t)
  {
    if s == "" {
      assert s + t == t;
    } else {
      assert (s + t)[1..] == s[1..] + t;
      EscapesAppend(s[1..], t);
    }
  }

  lemma OneEscape(c: char)
    ensures EscapeAll([c]) == Escape(c)
  {
    assert [c][1..] == "";
  }

  // ---------- an example ----------

  const EXAMPLE: seq<(string, Json)> := [("b", Int(-7)), ("signature", Str("s")), ("B", Null)]

  lemma ExampleSorted()
    ensures Norm(Dict(Unsigned(EXAMPLE))) == Dict([("B", Null), ("b", Int(-7))])
  {
    var x, y := ("b", Int(-7)), ("B", Null);
    assert Unsigned(EXAMPLE) == [x, y];
    assert NormEntries([x, y]) == [x, y];
    assert Before("B", "b") && !Before("b", "B");
    assert SortEntries([y]) == [y] && [x, y][1..] == [y];
    assert SortEntries([x, y]) == Insert(x, [y]);
    assert Insert(x, [y]) == [y, x];
  }

  /** The signed text of a small manifest. */
  lemma ExampleText()
    ensures ManifestText(EXAMPLE) == "{\"B\":null,\"b\":-7}"
  {
    ExampleSorted();
  }
}
