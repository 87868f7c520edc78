/** Canonical text straight from a graph of containers, as the encoder walks it, and why a snapshot does not change
    it. */
module GraphText {
  import opened Json
  import opened JsonText
  import opened JsonOrder
  import opened JsonGraph
  import opened CanonicalManifest

  /** Texts with commas between them and a closing bracket. */
  function Joined(texts: seq<string>, close: string): string
    requires texts != []
  {
    texts[0] + if |texts| == 1 then close else "," + Joined(texts[1..], close)
  }

  function SequenceText(texts: seq<string>): string {
    if texts == [] then "[]" else "[" + Joined(texts, "]")
  }

  function MemberText(e: (string, string)): string {
    Quote(e.0) + ":" + e.1
  }

  function MemberTexts(es: seq<(string, string)>): (r: seq<string>)
    ensures |r| == |es|
  {
    if es == [] then [] else [MemberText(es[0])] + MemberTexts(es[1..])
  }

  /** The members of a mapping, sorted by key. */
  function MappingText(es: seq<(string, string)>): string {
    var sorted := SortEntries(es);
    if sorted == [] then "{}" else "{" + Joined(MemberTexts(sorted), "}")
  }

  /** The canonical text of a value: every container is visited where it is met, and shared ones again each time. */
  ghost function GraphText(g: Graph, v: Value, above: set<nat>): string
    requires Closed(g) && Known(g, v) && CleanBelow(g, v, above)
    decreases g.Keys - above
  {
    match v
    case Leaf(j) => Render(j)
    case Ref(id) =>
      CleanUnrolls(g, id, above);
      Beneath(g, id, above);
      var c := g[id];
      var texts := seq(|Children(c)|, i requires 0 <= i < |Children(c)| => GraphText(g, Children(c)[i], above + {id}));
      (match c
       case Sequence(_) => SequenceText(texts)
       case Mapping(_) => MappingText(WithKeys(c.entries, texts)))
  }

  /** The keys of a mapping with the texts of its values. */
  function WithKeys<T>(entries: seq<(Key, Value)>, values: seq<T>): (r: seq<(string, T)>)
    requires |values| == |entries|
    ensures |r| == |entries| && forall i | 0 <= i < |r| :: r[i] == (KeyText(entries[i].0), values[i])
  {
    seq(|entries|, i requires 0 <= i < |entries| => (KeyText(entries[i].0), values[i]))
  }

  // ---------- the same text from a tree ----------

  function Texts(items: seq<Json>): (r: seq<string>)
    ensures |r| == |items| && forall i | 0 <= i < |r| :: r[i] == Render(items[i])
  {
    seq(|items|, i requires 0 <= i < |items| => Render(items[i]))
  }

  function EntryTexts(es: seq<(string, Json)>): (r: seq<(string, string)>)
    ensures |r| == |es|
  {
    if es == [] then [] else [(es[0].0, Render(es[0].1))] + EntryTexts(es[1..])
  }

  lemma {:induction false} ItemsJoined(items: seq<Json>)
    requires items != []
    ensures RenderItems(items) == Joined(Texts(items), "]")
  {
    if |items| > 1 {
      ItemsJoined(items[1..]);
      assert Texts(items)[1..] == Texts(items[1..]);
    }
  }

  lemma {:induction false} EntriesJoined(es: seq<(string, Json)>)
    requires es != []
    ensures RenderEntries(es) == Joined(MemberTexts(EntryTexts(es)), "}")
  {
    var texts := MemberTexts(EntryTexts(es));
    assert EntryTexts(es)[1..] == EntryTexts(es[1..]);
    assert texts[1..] == MemberTexts(EntryTexts(es[1..])) && texts[0] == RenderEntry(es[0]);
    if |es| > 1 {
      EntriesJoined(es[1..]);
    }
  }

  lemma {:induction false} InsertTexts(e: (string, Json), es: seq<(string, Json)>)
    ensures EntryTexts(Insert(e, es)) == Insert((e.0, Render(e.1)), EntryTexts(es))
  {
    if es == [] || Before(e.0, es[0].0) {
      assert ([e] + es)[1..] == es;
    } else {
      InsertTexts(e, es[1..]);
      assert ([es[0]] + Insert(e, es[1..]))[1..] == Insert(e, es[1..]);
      assert EntryTexts(es)[1..] == EntryTexts(es[1..]);
    }
  }

  /** Rendering the values does not change how the keys sort. */
  lemma {:induction false} SortTexts(es: seq<(string, Json)>)
    ensures EntryTexts(SortEntries(es)) == SortEntries(EntryTexts(es))
  {
    if es != [] {
      SortTexts(es[1..]);
      InsertTexts(es[0], SortEntries(es[1..]));
      assert EntryTexts(es)[1..] == EntryTexts(es[1..]);
    }
  }

  lemma ListText(items: seq<Json>)
    ensures CanonicalText(List(items)) ==
              SequenceText(seq(|items|, i requires 0 <= i < |items| => CanonicalText(items[i])))
  {
    var normal := Norm(List(items)).items;
    assert Texts(normal) == seq(|items|, i requires 0 <= i < |items| => CanonicalText(items[i]));
    if items != [] {
      ItemsJoined(normal);
    }
  }

  /** The text of a mapping, from the canonical texts of its values. */
  lemma DictText(es: seq<(string, Json)>)
    ensures CanonicalText(Dict(es)) == MappingText(EntryTexts(NormEntries(es)))
  {
    var sorted := SortEntries(NormEntries(es));
    SortTexts(NormEntries(es));
    if sorted != [] {
      EntriesJoined(sorted);
    }
  }

  lemma {:induction false} EntryTextsAt(es: seq<(string, Json)>, i: nat)
    requires i < |es|
    ensures EntryTexts(NormEntries(es)) != [] && |NormEntries(es)| == |es| &&
              EntryTexts(NormEntries(es))[i] == (es[i].0, CanonicalText(es[i].1))
  {
    NormKeys(es);
    if i > 0 {
      EntryTextsAt(es[1..], i - 1);
      assert NormEntries(es)[1..] == NormEntries(es[1..]);
    }
  }

  lemma EntryTextsFrom(es: seq<(string, Json)>, pairs: seq<(string, string)>)
    requires |pairs| == |es| && forall i | 0 <= i < |es| :: pairs[i] == (es[i].0, CanonicalText(es[i].1))
    ensures EntryTexts(NormEntries(es)) == pairs
  {
    NormKeys(es);
    forall i | 0 <= i < |es|
      ensures EntryTexts(NormEntries(es))[i] == pairs[i]
    {
      EntryTextsAt(es, i);
    }
  }

  // ---------- graph and tree agree ----------

  /** The encoder writes for a clean value exactly the canonical text of the tree under it. */
  lemma {:induction false} GraphTextIsTreeText(g: Graph, v: Value, above: set<nat>)
    requires Closed(g) && Known(g, v) && CleanBelow(g, v, above)
    ensures GraphText(g, v, above) == CanonicalText(Unfold(g, v, above))
    decreases g.Keys - above
  {
    if v.Ref? {
      CleanUnrolls(g, v.id, above);
      Beneath(g, v.id, above);
      forall i | 0 <= i < |Children(g[v.id])|
        ensures GraphText(g, Children(g[v.id])[i], above + {v.id}) ==
                  CanonicalText(Unfold(g, Children(g[v.id])[i], above + {v.id}))
      {
        GraphTextIsTreeText(g, Children(g[v.id])[i], above + {v.id});
      }
      ContainerText(g, v.id, above);
    }
  }

  lemma ContainerText(g: Graph, id: nat, above: set<nat>)
    requires Closed(g) && id in g && CleanBelow(g, Ref(id), above)
    requires id !in above && forall i | 0 <= i < |Children(g[id])| :: CleanBelow(g, Children(g[id])[i], above + {id})
    requires forall i | 0 <= i < |Children(g[id])| ::
               GraphText(g, Children(g[id])[i], above + {id}) ==
                   CanonicalText(Unfold(g, Children(g[id])[i], above + {id}))
    ensures GraphText(g, Ref(id), above) == CanonicalText(Unfold(g, Ref(id), above))
  {
    var c := g[id];
    var tree := Unfold(g, Ref(id), above);
    var texts := seq(|Children(c)|, i requires 0 <= i < |Children(c)| => GraphText(g, Children(c)[i], above + {id}));
    if c.Sequence? {
      ListText(tree.items);
      assert texts == seq(|tree.items|, i requires 0 <= i < |tree.items| => CanonicalText(tree.items[i]));
      assert GraphText(g, Ref(id), above) == SequenceText(texts);
    } else {
      DictText(tree.entries);
      EntryTextsFrom(tree.entries, WithKeys(c.entries, texts));
      assert GraphText(g, Ref(id), above) == MappingText(WithKeys(c.entries, texts));
    }
  }

  // ---------- the signed text of a manifest ----------

  /** What the signature of a mapping in a graph covers. */
  ghost function GraphManifestText(g: Graph, id: nat): string
    requires Closed(g) && id in g && g[id].Mapping? && Clean(g, Ref(id))
  {
    CleanUnrolls(g, id, {});
    var c := g[id];
    var texts := seq(|c.entries|, i requires 0 <= i < |c.entries| => GraphText(g, Children(c)[i], {} + {id}));
    MappingText(Unsigned(WithKeys(c.entries, texts)))
  }

  lemma {:induction false} UnsignedTexts(es: seq<(string, Json)>)
    ensures EntryTexts(NormEntries(Unsigned(es))) == Unsigned(EntryTexts(NormEntries(es)))
  {
    if es != [] {
      UnsignedTexts(es[1..]);
      assert NormEntries(es)[1..] == NormEntries(es[1..]);
      assert EntryTexts(NormEntries(es))[1..] == EntryTexts(NormEntries(es[1..]));
      if es[0].0 != SIGNATURE {
        var u := Unsigned(es);
        assert u[1..] == Unsigned(es[1..]);
        assert NormEntries(u)[1..] == NormEntries(u[1..]);
      }
    }
  }

  /** Copying a clean mapping to a plain tree changes neither its canonical text nor the text its signature covers. */
  lemma {:induction false} SnapshotKeepsTexts(g: Graph, id: nat)
    requires Closed(g) && id in g && g[id].Mapping? && Clean(g, Ref(id))
    ensures GraphText(g, Ref(id), {}) == CanonicalText(Unfold(g, Ref(id), {}))
    ensures GraphManifestText(g, id) == ManifestText(Unfold(g, Ref(id), {}).entries)
  {
    GraphTextIsTreeText(g, Ref(id), {});
    CleanUnrolls(g, id, {});
    var c, es := g[id], Unfold(g, Ref(id), {}).entries;
    var texts := seq(|c.entries|, i requires 0 <= i < |c.entries| => GraphText(g, Children(c)[i], {} + {id}));
    forall i | 0 <= i < |es|
      ensures WithKeys(c.entries, texts)[i] == (es[i].0, CanonicalText(es[i].1))
    {
      GraphTextIsTreeText(g, Children(c)[i], {} + {id});
    }
    EntryTextsFrom(es, WithKeys(c.entries, texts));
    UnsignedTexts(es);
    DictText(Unsigned(es));
  }
}
