/** The checks that walk a decoded value as a graph of containers: with the set of containers on the way down they
    terminate on any graph, cyclic or not, and accept exactly those that stand for a finite JSON tree. */
module JsonGraph {
  import opened Json
  import opened JsonText

  /** A value: a JSON leaf, something that JSON has no form for, or a container under its identity. */
  datatype Value = Leaf(j: Json) | Foreign | Ref(id: nat)

  datatype Key = Text(s: string) | OtherKey

  datatype Container = Sequence(items: seq<Value>) | Mapping(entries: seq<(Key, Value)>)

  type Graph = map<nat, Container>

  function Children(c: Container): seq<Value> {
    match c
    case Sequence(items) => items
    case Mapping(entries) => seq(|entries|, i requires 0 <= i < |entries| => entries[i].1)
  }

  /** A float is finite exactly when its text is a numeral. */
  predicate LeafOk(v: Value) {
    match v
    case Leaf(j) => !j.List? && !j.Dict? && FloatsOk(j)
    case Foreign => false
    case Ref(_) => true
  }

  predicate Known(g: Graph, v: Value) {
    v.Ref? ==> v.id in g
  }

  /** Every reference leads to a container. */
  predicate Closed(g: Graph) {
    forall id | id in g :: forall i | 0 <= i < |Children(g[id])| :: Known(g, Children(g[id])[i])
  }

  predicate KeysAreText(c: Container) {
    c.Mapping? ==> forall i | 0 <= i < |c.entries| :: c.entries[i].0.Text?
  }

  // ---------- what should be accepted: no way down meets anything bad ----------

  /** The containers met on one way down from a value. */
  ghost predicate Way(g: Graph, v: Value, path: seq<nat>) {
    && path != [] && v == Ref(path[0])
    && (forall i | 0 <= i < |path| :: path[i] in g)
    && (forall i | 0 <= i < |path| - 1 :: Ref(path[i + 1]) in Children(g[path[i]]))
  }

  ghost predicate NodeOk(c: Container) {
    KeysAreText(c) && forall v | v in Children(c) :: LeafOk(v)
  }

  /** The way neither repeats a container nor meets one of `above`, and finds only text keys and JSON leaves. */
  ghost predicate WayOk(g: Graph, path: seq<nat>, above: set<nat>) {
    && (forall i, j | 0 <= i < j < |path| :: path[i] != path[j])
    && (forall i | 0 <= i < |path| :: path[i] !in above && path[i] in g && NodeOk(g[path[i]]))
  }

  ghost predicate CleanBelow(g: Graph, v: Value, above: set<nat>) {
    LeafOk(v) && forall path | Way(g, v, path) :: WayOk(g, path, above)
  }

  /** No cycle can be reached, and everything that can be reached is JSON. */
  ghost predicate Clean(g: Graph, v: Value) {
    CleanBelow(g, v, {})
  }

  lemma WayDown(g: Graph, id: nat, v: Value, path: seq<nat>)
    requires id in g && v in Children(g[id]) && Way(g, v, path)
    ensures Way(g, Ref(id), [id] + path)
  {
    var p := [id] + path;
    forall i | 0 <= i < |p|
      ensures p[i] in g
    {
    }
    forall i | 0 <= i < |p| - 1
      ensures Ref(p[i + 1]) in Children(g[p[i]])
    {
      if i > 0 {
        assert p[i] == path[i - 1] && p[i + 1] == path[i];
        assert Ref(path[i - 1 + 1]) in Children(g[path[i - 1]]);
      }
    }
  }

  lemma WayOkTail(g: Graph, id: nat, path: seq<nat>, above: set<nat>)
    requires id in g
    ensures WayOk(g, [id] + path, above) <==> id !in above && NodeOk(g[id]) && WayOk(g, path, above + {id})
  {
    var p := [id] + path;
    if WayOk(g, p, above) {
      assert p[0] == id;
      forall i | 0 <= i < |path|
        ensures path[i] != id && path[i] !in above && path[i] in g && NodeOk(g[path[i]])
      {
        assert p[i + 1] == path[i] && p[0] != p[i + 1];
      }
      forall i, j | 0 <= i < j < |path|
        ensures path[i] != path[j]
      {
        assert p[i + 1] != p[j + 1];
      }
    }
    if id !in above && NodeOk(g[id]) && WayOk(g, path, above + {id}) {
      forall i | 0 <= i < |p|
        ensures p[i] !in above && p[i] in g && NodeOk(g[p[i]])
      {
        assert i > 0 ==> p[i] == path[i - 1];
      }
      forall i, j | 0 <= i < j < |p|
        ensures p[i] != p[j]
      {
        assert p[j] == path[j - 1] && (i > 0 ==> p[i] == path[i - 1]);
      }
    }
  }

  /** Cleanness unrolls one container at a time. */
  lemma {:induction false} CleanUnrolls(g: Graph, id: nat, above: set<nat>)
    requires id in g
    ensures CleanBelow(g, Ref(id), above) <==>
              id !in above && NodeOk(g[id]) && forall v | v in Children(g[id]) :: CleanBelow(g, v, above + {id})
  {
    if CleanBelow(g, Ref(id), above) {
      assert Way(g, Ref(id), [id]);
      assert [id] + [] == [id];
      WayOkTail(g, id, [], above);
      forall v, path | v in Children(g[id]) && Way(g, v, path)
        ensures WayOk(g, path, above + {id})
      {
        WayDown(g, id, v, path);
        WayOkTail(g, id, path, above);
      }
    }
    if id !in above && NodeOk(g[id]) && forall v | v in Children(g[id]) :: CleanBelow(g, v, above + {id}) {
      forall path | Way(g, Ref(id), path)
        ensures WayOk(g, path, above)
      {
        var rest := path[1..];
        assert path == [id] + rest;
        if rest != [] {
          assert Ref(path[1]) in Children(g[path[0]]);
          RestOfWay(g, path);
          assert CleanBelow(g, Ref(path[1]), above + {id});
        }
        WayOkTail(g, id, rest, above);
      }
    }
  }

  lemma RestOfWay(g: Graph, path: seq<nat>)
    requires |path| > 1 && Way(g, Ref(path[0]), path)
    ensures Way(g, Ref(path[1]), path[1..])
  {
    var rest := path[1..];
    forall i | 0 <= i < |rest| - 1
      ensures Ref(rest[i + 1]) in Children(g[rest[i]])
    {
      assert rest[i] == path[i + 1] && rest[i + 1] == path[i + 1 + 1];
    }
  }

  // ---------- the tree a clean value stands for ----------

  function KeyText(k: Key): string {
    match k
    case Text(s) => s
    case OtherKey => ""
  }

  /** The tree under a value. */
  ghost function Unfold(g: Graph, v: Value, above: set<nat>): Json
    requires Closed(g) && Known(g, v) && CleanBelow(g, v, above)
    decreases g.Keys - above
  {
    match v
    case Leaf(j) => j
    case Ref(id) =>
      CleanUnrolls(g, id, above);
      Beneath(g, id, above);
      var c := g[id];
      var trees := seq(|Children(c)|, i requires 0 <= i < |Children(c)| => Unfold(g, Children(c)[i], above + {id}));
      (match c
       case Sequence(_) => List(trees)
       case Mapping(entries) =>
           Dict(seq(|entries|, i requires 0 <= i < |entries| => (KeyText(entries[i].0), trees[i]))))
  }

  lemma Beneath(g: Graph, id: nat, above: set<nat>)
    requires id in g && id !in above
    ensures g.Keys - (above + {id}) < g.Keys - above
  {
    assert id in g.Keys - above;
  }

  /** The unfolded tree has proper numbers throughout. */
  lemma {:induction false} UnfoldedFloats(g: Graph, v: Value, above: set<nat>)
    requires Closed(g) && Known(g, v) && CleanBelow(g, v, above)
    ensures FloatsOk(Unfold(g, v, above))
    decreases g.Keys - above
  {
    if v.Ref? {
      CleanUnrolls(g, v.id, above);
      Beneath(g, v.id, above);
      var c := g[v.id];
      forall i | 0 <= i < |Children(c)|
        ensures FloatsOk(Unfold(g, Children(c)[i], above + {v.id}))
      {
        UnfoldedFloats(g, Children(c)[i], above + {v.id});
      }
    }
  }
}
