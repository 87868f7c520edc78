/** The recursive checks themselves, with the one mutable set of containers that they extend on the way down and
    restore on the way up. */
module JsonWalk {
  import opened Wrappers
  import opened Json
  import opened JsonGraph

  lemma NotClean(g: Graph, id: nat, above: set<nat>, i: nat)
    requires id in g && i < |Children(g[id])|
    ensures !CleanBelow(g, Children(g[id])[i], above + {id}) ==> !CleanBelow(g, Ref(id), above)
    ensures g[id].Mapping? && !g[id].entries[i].0.Text? ==> !CleanBelow(g, Ref(id), above)
  {
    CleanUnrolls(g, id, above);
    assert Children(g[id])[i] in Children(g[id]);
  }

  lemma AllClean(g: Graph, id: nat, above: set<nat>)
    requires id in g && id !in above && KeysAreText(g[id])
    requires forall i | 0 <= i < |Children(g[id])| :: CleanBelow(g, Children(g[id])[i], above + {id})
    ensures CleanBelow(g, Ref(id), above)
  {
    CleanUnrolls(g, id, above);
  }

  lemma RepeatedKey(g: Graph, id: nat, above: set<nat>, i: nat, j: nat)
    requires Closed(g) && id in g && g[id].Mapping? && i < j < |g[id].entries| &&
               g[id].entries[i].0 == g[id].entries[j].0
    ensures !(CleanBelow(g, Ref(id), above) && Keyed(Unfold(g, Ref(id), above)))
  {
    if CleanBelow(g, Ref(id), above) {
      CleanUnrolls(g, id, above);
      var entries := Unfold(g, Ref(id), above).entries;
      assert entries[i].0 == entries[j].0;
    }
  }

  lemma KeyedChild(g: Graph, id: nat, above: set<nat>, i: nat)
    requires Closed(g) && id in g && i < |Children(g[id])|
    ensures CleanBelow(g, Ref(id), above) && Keyed(Unfold(g, Ref(id), above)) ==>
              var v := Children(g[id])[i]; CleanBelow(g, v, above + {id}) && Keyed(Unfold(g, v, above + {id}))
  {
    if CleanBelow(g, Ref(id), above) {
      CleanUnrolls(g, id, above);
      var v := Children(g[id])[i];
      assert v in Children(g[id]);
      var tree := Unfold(g, Ref(id), above);
      assert Unfold(g, v, above + {id}) == if g[id].Sequence? then tree.items[i] else tree.entries[i].1;
    }
  }

  class Walker {
    var ancestors: set<nat>

    constructor ()
      ensures ancestors == {}
    {
      ancestors := {};
    }

    /** Accepts exactly the values that are clean below the current ancestors, and leaves the set as it was, also on
        refusal. */
    method Validate(g: Graph, v: Value) returns (ok: bool)
      requires Closed(g) && Known(g, v)
      modifies this
      ensures ancestors == old(ancestors)
      ensures ok <==> CleanBelow(g, v, ancestors)
      decreases g.Keys - ancestors
    {
      if !v.Ref? { return LeafOk(v); }
      ghost var above := ancestors;
      CleanUnrolls(g, v.id, above);
      if v.id in ancestors { return false; }
      var c := g[v.id];
      Beneath(g, v.id, above);
      ancestors := ancestors + {v.id};
      ok := true;
      var n := 0;
      while n < |Children(c)| && ok
        invariant 0 <= n <= |Children(c)| && ancestors == above + {v.id}
        invariant ok ==> forall i | 0 <= i < n ::
                    CleanBelow(g, Children(c)[i], ancestors) && (c.Mapping? ==> c.entries[i].0.Text?)
        invariant !ok ==> !CleanBelow(g, v, above)
        decreases |Children(c)| - n, ok
      {
        NotClean(g, v.id, above, n);
        if c.Mapping? && !c.entries[n].0.Text? {
          ok := false;
        } else {
          ok := Validate(g, Children(c)[n]);
          n := n + 1;
        }
      }
      if ok {
        AllClean(g, v.id, above);
      }
      ancestors := ancestors - {v.id};
    }

    /** The plain copy: the tree under the value, refused exactly when the value is not clean or some mapping
        repeats a key. */
    method Snapshot(g: Graph, v: Value) returns (r: Option<Json>)
      requires Closed(g) && Known(g, v)
      modifies this
      ensures ancestors == old(ancestors)
      ensures r.Some? <==> CleanBelow(g, v, ancestors) && Keyed(Unfold(g, v, ancestors))
      ensures r.Some? ==> r.value == Unfold(g, v, ancestors)
      decreases g.Keys - ancestors, 0
    {
      if !v.Ref? {
        r := if LeafOk(v) then Some(v.j) else None;
        return;
      }
      ghost var above := ancestors;
      CleanUnrolls(g, v.id, above);
      if v.id in ancestors { return None; }
      var c := g[v.id];
      Beneath(g, v.id, above);
      ancestors := ancestors + {v.id};
      if c.Mapping? {
        r := SnapshotEntries(g, v.id, above);
      } else {
        r := SnapshotItems(g, v.id, above);
      }
      ancestors := ancestors - {v.id};
    }

    method SnapshotItems(g: Graph, id: nat, ghost above: set<nat>) returns (r: Option<Json>)
      requires Closed(g) && id in g && id !in above && ancestors == above + {id} && g[id].Sequence?
      modifies this
      ensures ancestors == old(ancestors)
      ensures r.Some? <==> CleanBelow(g, Ref(id), above) && Keyed(Unfold(g, Ref(id), above))
      ensures r.Some? ==> r.value == Unfold(g, Ref(id), above)
      decreases g.Keys - ancestors, 1
    {
      var c := g[id];
      var trees: seq<Json> := [];
      for n := 0 to |Children(c)|
        invariant |trees| == n && ancestors == above + {id}
        invariant forall i | 0 <= i < n ::
            CleanBelow(g, c.items[i], ancestors) && trees[i] == Unfold(g, c.items[i], ancestors) && Keyed(trees[i])
      {
        NotClean(g, id, above, n);
        var tree := Snapshot(g, c.items[n]);
        if tree.None? {
          KeyedChild(g, id, above, n);
          return None;
        }
        trees := trees + [tree.value];
      }
      AllClean(g, id, above);
      r := Some(List(trees));
    }

    method SnapshotEntries(g: Graph, id: nat, ghost above: set<nat>) returns (r: Option<Json>)
      requires Closed(g) && id in g && id !in above && ancestors == above + {id} && g[id].Mapping?
      modifies this
      ensures ancestors == old(ancestors)
      ensures r.Some? <==> CleanBelow(g, Ref(id), above) && Keyed(Unfold(g, Ref(id), above))
      ensures r.Some? ==> r.value == Unfold(g, Ref(id), above)
      decreases g.Keys - ancestors, 1
    {
      var c := g[id];
      var entries: seq<(string, Json)> := [];
      for n := 0 to |Children(c)|
        invariant |entries| == n && ancestors == above + {id}
        invariant forall i | 0 <= i < n ::
            CleanBelow(g, Children(c)[i], ancestors) && entries[i].1 == Unfold(g, Children(c)[i], ancestors) &&
                Keyed(entries[i].1)
        invariant forall i | 0 <= i < n :: c.entries[i].0 == Text(entries[i].0)
        invariant DistinctKeys(entries)
      {
        NotClean(g, id, above, n);
        var key := c.entries[n].0;
        if key.OtherKey? { return None; }
        if key.s in KeysOf(entries) {
          ghost var i :| 0 <= i < n && entries[i].0 == key.s;
          RepeatedKey(g, id, above, i, n);
          return None;
        }
        var tree := Snapshot(g, Children(c)[n]);
        if tree.None? {
          KeyedChild(g, id, above, n);
          return None;
        }
        entries := entries + [(key.s, tree.value)];
      }
      AllClean(g, id, above);
      r := Some(Dict(entries));
    }
  }
}
