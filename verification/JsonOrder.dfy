/** Sorting the keys of every mapping, and what that forgets: exactly the order of entries. */
module JsonOrder {
  import opened Wrappers
  import opened Json

  // ---------- keys in code point order ----------

  predicate Before(s: string, t: string) {
    t != "" && (s == "" || s[0] < t[0] || (s[0] == t[0] && Before(s[1..], t[1..])))
  }

  lemma {:induction false} BeforeIrreflexive(s: string)
    ensures !Before(s, s)
  {
    if s != "" {
      BeforeIrreflexive(s[1..]);
    }
  }

  lemma {:induction false} BeforeTotal(s: string, t: string)
    ensures Before(s, t) || Before(t, s) || s == t
    ensures !(Before(s, t) && Before(t, s))
  {
    if s != "" && t != "" {
      BeforeTotal(s[1..], t[1..]);
      assert s == [s[0]] + s[1..] && t == [t[0]] + t[1..];
    }
  }

  lemma {:induction false} BeforeTransitive(s: string, t: string, u: string)
    requires Before(s, t) && Before(t, u)
    ensures Before(s, u)
  {
    if s != "" && s[0] == t[0] && t[0] == u[0] {
      BeforeTransitive(s[1..], t[1..], u[1..]);
    }
  }

  predicate Sorted(es: seq<(string, Json)>) {
    forall i, j | 0 <= i < j < |es| :: Before(es[i].0, es[j].0)
  }

  function Insert<T>(e: (string, T), es: seq<(string, T)>): seq<(string, T)> {
    if es == [] || Before(e.0, es[0].0) then [e] + es else [es[0]] + Insert(e, es[1..])
  }

  function SortEntries<T>(es: seq<(string, T)>): seq<(string, T)> {
    if es == [] then [] else Insert(es[0], SortEntries(es[1..]))
  }

  lemma KeysStep(es: seq<(string, Json)>)
    requires es != []
    ensures KeysOf(es) == {es[0].0} + KeysOf(es[1..])
  {
    forall k
      ensures k in KeysOf(es) <==> k in {es[0].0} + KeysOf(es[1..])
    {
      if k in KeysOf(es) && k != es[0].0 {
        var i :| 0 <= i < |es| && es[i].0 == k;
        assert es[1..][i - 1].0 == k;
      }
      if k in KeysOf(es[1..]) {
        var i :| 0 <= i < |es| - 1 && es[1..][i].0 == k;
        assert es[i + 1].0 == k;
      }
    }
  }

  lemma SortedTail(es: seq<(string, Json)>)
    requires es != []
    ensures Sorted(es) <==> Sorted(es[1..]) && forall k | k in KeysOf(es[1..]) :: Before(es[0].0, k)
  {
    if Sorted(es) {
      forall i, j | 0 <= i < j < |es| - 1
        ensures Before(es[1..][i].0, es[1..][j].0)
      {
        assert Before(es[i + 1].0, es[j + 1].0);
      }
    }
    if Sorted(es[1..]) && forall k | k in KeysOf(es[1..]) :: Before(es[0].0, k) {
      forall i, j | 0 <= i < j < |es|
        ensures Before(es[i].0, es[j].0)
      {
        assert es[1..][j - 1] == es[j] && es[j].0 in KeysOf(es[1..]);
        assert i > 0 ==> es[1..][i - 1] == es[i];
      }
    }
  }

  lemma {:induction false} InsertSorts(e: (string, Json), es: seq<(string, Json)>)
    requires Sorted(es) && e.0 !in KeysOf(es)
    ensures Sorted(Insert(e, es)) && KeysOf(Insert(e, es)) == KeysOf(es) + {e.0}
    ensures forall k :: Find(Insert(e, es), k) == if k == e.0 then Some(e.1) else Find(es, k)
  {
    var r := Insert(e, es);
    if es == [] || Before(e.0, es[0].0) {
      assert r[1..] == es;
      KeysStep(r);
      if es != [] {
        SortedTail(es);
        KeysStep(es);
        forall k | k in KeysOf(es)
          ensures Before(e.0, k)
        {
          if k != es[0].0 {
            BeforeTransitive(e.0, es[0].0, k);
          }
        }
      }
      SortedTail(r);
    } else {
      SortedTail(es);
      KeysStep(es);
      InsertSorts(e, es[1..]);
      assert r[1..] == Insert(e, es[1..]);
      KeysStep(r);
      BeforeTotal(e.0, es[0].0);
      SortedTail(r);
    }
  }

  lemma {:induction false} SortSorts(es: seq<(string, Json)>)
    requires DistinctKeys(es)
    ensures Sorted(SortEntries(es)) && KeysOf(SortEntries(es)) == KeysOf(es)
    ensures forall k :: Find(SortEntries(es), k) == Find(es, k)
  {
    if es != [] {
      KeysStep(es);
      DistinctTail(es);
      SortSorts(es[1..]);
      InsertSorts(es[0], SortEntries(es[1..]));
    }
  }

  lemma DistinctTail(es: seq<(string, Json)>)
    requires es != [] && DistinctKeys(es)
    ensures DistinctKeys(es[1..]) && es[0].0 !in KeysOf(es[1..])
  {
    forall i | 0 <= i < |es| - 1
      ensures es[1..][i].0 != es[0].0
    {
      assert es[0].0 != es[i + 1].0;
    }
    forall i, j | 0 <= i < j < |es| - 1
      ensures es[1..][i].0 != es[1..][j].0
    {
      assert es[i + 1].0 != es[j + 1].0;
    }
  }

  /** Sorted entries are determined by what can be looked up in them. */
  lemma {:induction false} SortedUnique(es: seq<(string, Json)>, fs: seq<(string, Json)>)
    requires Sorted(es) && Sorted(fs) && forall k :: Find(es, k) == Find(fs, k)
    ensures es == fs
  {
    assert es != [] ==> Find(es, es[0].0) == Some(es[0].1);
    assert fs != [] ==> Find(fs, fs[0].0) == Some(fs[0].1);
    if es != [] {
      SortedTail(es);
      SortedTail(fs);
      KeysStep(es);
      KeysStep(fs);
      BeforeTotal(es[0].0, fs[0].0);
      BeforeIrreflexive(fs[0].0);
      assert es[0].0 in KeysOf(fs) && fs[0].0 in KeysOf(es);
      assert es[0].0 == fs[0].0;
      forall k
        ensures Find(es[1..], k) == Find(fs[1..], k)
      {
        assert Find(es, k) == Find(fs, k);
        if k == es[0].0 {
          assert k !in KeysOf(es[1..]) && k !in KeysOf(fs[1..]);
        }
      }
      SortedUnique(es[1..], fs[1..]);
      assert es == [es[0]] + es[1..] && fs == [fs[0]] + fs[1..];
    }
  }
}
