/** Canonical manifest text: keys sorted at every depth, the top-level signature left out. Its equality decides
    exactly whether two manifests are the same apart from the signature. */
module CanonicalManifest {
  import opened Wrappers
  import opened Json
  import opened JsonText
  import opened JsonRoundTrip
  import opened JsonOrder

  // ---------- normal form ----------

  function Norm(j: Json): Json {
    match j
    case List(items) => List(seq(|items|, i requires 0 <= i < |items| => Norm(items[i])))
    case Dict(entries) => Dict(SortEntries(NormEntries(entries)))
    case _ => j
  }

  function NormEntry(e: (string, Json)): (string, Json) {
    (e.0, Norm(e.1))
  }

  function NormEntries(entries: seq<(string, Json)>): seq<(string, Json)> {
    if entries == [] then [] else [NormEntry(entries[0])] + NormEntries(entries[1..])
  }

  /** Equal, but for the order of the entries of any mapping at any depth. */
  ghost predicate SameValue(a: Json, b: Json) {
    match a
    case List(items) => b.List? && |items| == |b.items| && forall i | 0 <= i < |items| ::
        SameValue(items[i], b.items[i])
    case Dict(entries) =>
      && b.Dict? && KeysOf(entries) == KeysOf(b.entries)
      && forall i | 0 <= i < |entries| ::
           Find(b.entries, entries[i].0).Some? && SameValue(entries[i].1, Find(b.entries, entries[i].0).value)
    case _ => a == b
  }

  lemma {:induction false} NormFind(es: seq<(string, Json)>, k: string)
    ensures Find(NormEntries(es), k) == match Find(es, k) case Some(v) => Some(Norm(v)) case None => None
  {
    if es != [] {
      NormFind(es[1..], k);
      assert NormEntries(es)[1..] == NormEntries(es[1..]);
    }
  }

  lemma {:induction false} NormKeys(es: seq<(string, Json)>)
    ensures |NormEntries(es)| == |es| && forall i | 0 <= i < |es| :: NormEntries(es)[i] == NormEntry(es[i])
  {
    if es != [] {
      NormKeys(es[1..]);
      assert es == [es[0]] + es[1..];
    }
  }

  lemma {:induction false} FindDistinct(es: seq<(string, Json)>, i: nat)
    requires DistinctKeys(es) && i < |es|
    ensures Find(es, es[i].0) == Some(es[i].1)
  {
    if i > 0 {
      DistinctTail(es);
      assert es[1..][i - 1] == es[i];
      FindDistinct(es[1..], i - 1);
    }
  }

  lemma NormSorted(es: seq<(string, Json)>)
    requires DistinctKeys(es)
    ensures Sorted(SortEntries(NormEntries(es))) && KeysOf(SortEntries(NormEntries(es))) == KeysOf(es)
    ensures forall k :: Find(SortEntries(NormEntries(es)), k) ==
              match Find(es, k) case Some(v) => Some(Norm(v)) case None => None
  {
    NormKeys(es);
    assert DistinctKeys(NormEntries(es));
    SortSorts(NormEntries(es));
    forall k
      ensures Find(SortEntries(NormEntries(es)), k) == match Find(es, k) case Some(v) => Some(Norm(v)) case None => None
    {
      NormFind(es, k);
    }
    forall k
      ensures k in KeysOf(SortEntries(NormEntries(es))) <==> k in KeysOf(es)
    {
      assert Find(SortEntries(NormEntries(es)), k).Some? <==> Find(es, k).Some?;
    }
  }

  /** Two mappings have the same normal form exactly when looking up any key gives values with the same normal form. */
  lemma NormDictDecides(es: seq<(string, Json)>, fs: seq<(string, Json)>)
    requires DistinctKeys(es) && DistinctKeys(fs)
    ensures SortEntries(NormEntries(es)) == SortEntries(NormEntries(fs)) <==>
              && KeysOf(es) == KeysOf(fs)
              && forall k | k in KeysOf(es) && k in KeysOf(fs) :: Norm(Find(es, k).value) == Norm(Find(fs, k).value)
  {
    NormSorted(es);
    NormSorted(fs);
    var s, t := SortEntries(NormEntries(es)), SortEntries(NormEntries(fs));
    if s == t {
      forall k | k in KeysOf(es) && k in KeysOf(fs)
        ensures Norm(Find(es, k).value) == Norm(Find(fs, k).value)
      {
        assert Find(s, k) == Find(t, k);
      }
    }
    if KeysOf(es) == KeysOf(fs) && forall k | k in KeysOf(es) && k in KeysOf(fs) ::
        Norm(Find(es, k).value) == Norm(Find(fs, k).value) {
      forall k
        ensures Find(s, k) == Find(t, k)
      {
        assert k in KeysOf(es) <==> Find(es, k).Some?;
        assert k in KeysOf(fs) <==> Find(fs, k).Some?;
      }
      SortedUnique(s, t);
    }
  }

  lemma {:induction false} NormDecides(a: Json, b: Json)
    requires Keyed(a) && Keyed(b)
    ensures Norm(a) == Norm(b) <==> SameValue(a, b)
    decreases a
  {
    match a
    case List(items) =>
      if b.List? && |items| == |b.items| {
        forall i | 0 <= i < |items|
          ensures Norm(items[i]) == Norm(b.items[i]) <==> SameValue(items[i], b.items[i])
        {
          NormDecides(items[i], b.items[i]);
        }
        NormListDecides(items, b.items);
      } else {
        NormKinds(a, b);
      }
    case Dict(entries) =>
      if b.Dict? {
        NormDictDecides(entries, b.entries);
        forall i | 0 <= i < |entries|
          ensures Find(entries, entries[i].0) == Some(entries[i].1)
          ensures Find(b.entries, entries[i].0).Some? ==>
                    (Norm(entries[i].1) == Norm(Find(b.entries, entries[i].0).value) <==>
                     SameValue(entries[i].1, Find(b.entries, entries[i].0).value))
        {
          FindDistinct(entries, i);
          if Find(b.entries, entries[i].0).Some? {
            NormDecides(entries[i].1, Find(b.entries, entries[i].0).value);
          }
        }
      }
    case _ => NormKinds(a, b);
  }

  lemma NormListDecides(items: seq<Json>, others: seq<Json>)
    requires |items| == |others|
    ensures Norm(List(items)) == Norm(List(others)) <==>
              forall i | 0 <= i < |items| :: Norm(items[i]) == Norm(others[i])
  {
    var x, y := Norm(List(items)).items, Norm(List(others)).items;
    assert forall i | 0 <= i < |items| :: x[i] == Norm(items[i]) && y[i] == Norm(others[i]);
  }

  lemma NormKinds(a: Json, b: Json)
    ensures Norm(a).List? == a.List? && Norm(a).Dict? == a.Dict? && (!a.List? && !a.Dict? ==> Norm(a) == a)
    ensures Norm(b).List? == b.List? && Norm(b).Dict? == b.Dict? && (!b.List? && !b.Dict? ==> Norm(b) == b)
    ensures a.List? && b.List? && |a.items| != |b.items| ==> Norm(a) != Norm(b)
  {
  }

  // ---------- canonical text ----------

  function CanonicalText(j: Json): string {
    Render(Norm(j))
  }

  lemma {:induction false} InsertKeepsFloats(e: (string, Json), es: seq<(string, Json)>)
    requires FloatsOk(e.1) && FloatsOk(Dict(es))
    ensures FloatsOk(Dict(Insert(e, es)))
  {
    if es != [] && !Before(e.0, es[0].0) {
      assert FloatsOk(Dict(es[1..]));
      InsertKeepsFloats(e, es[1..]);
    }
  }

  lemma {:induction false} SortKeepsFloats(es: seq<(string, Json)>)
    requires FloatsOk(Dict(es))
    ensures FloatsOk(Dict(SortEntries(es)))
  {
    if es != [] {
      assert FloatsOk(Dict(es[1..]));
      SortKeepsFloats(es[1..]);
      InsertKeepsFloats(es[0], SortEntries(es[1..]));
    }
  }

  lemma {:induction false} NormKeepsFloats(j: Json)
    requires FloatsOk(j)
    ensures FloatsOk(Norm(j))
  {
    match j
    case List(items) =>
      forall i | 0 <= i < |items|
        ensures FloatsOk(Norm(items[i]))
      {
        NormKeepsFloats(items[i]);
      }
    case Dict(entries) =>
      NormKeys(entries);
      forall i | 0 <= i < |entries|
        ensures FloatsOk(NormEntries(entries)[i].1)
      {
        NormKeepsFloats(entries[i].1);
      }
      SortKeepsFloats(NormEntries(entries));
    case _ =>
  }

  /** A parser recovers the value from its canonical text, up to the order of entries; and equal texts mean equal
      values, up to that order. */
  lemma {:induction false} CanonicalTextDecides(a: Json, b: Json)
    requires Keyed(a) && Keyed(b) && FloatsOk(a) && FloatsOk(b)
    ensures CanonicalText(a) == CanonicalText(b) <==> SameValue(a, b)
    ensures Parse(CanonicalText(a)) == Some((Norm(a), ""))
  {
    NormKeepsFloats(a);
    NormKeepsFloats(b);
    if CanonicalText(a) == CanonicalText(b) {
      RenderInjective(Norm(a), Norm(b));
    }
    NormDecides(a, b);
    ParseRendered(Norm(a), "");
    assert CanonicalText(a) + "" == CanonicalText(a);
  }

  // ---------- the signing profile ----------

  const SIGNATURE: string := "signature"

  function Unsigned<T>(entries: seq<(string, T)>): seq<(string, T)> {
    if entries == [] then []
    else if entries[0].0 == SIGNATURE then Unsigned(entries[1..])
    else [entries[0]] + Unsigned(entries[1..])
  }

  /** The text a manifest's signature covers. */
  function ManifestText(entries: seq<(string, Json)>): string {
    CanonicalText(Dict(Unsigned(entries)))
  }

  /** Apart from the top-level signature, the two manifests have the same keys, and under each the same value. */
  ghost predicate SameExceptSignature(es: seq<(string, Json)>, fs: seq<(string, Json)>) {
    forall k | k != SIGNATURE ::
      && (k in KeysOf(es) <==> k in KeysOf(fs))
      && (k in KeysOf(es) && k in KeysOf(fs) ==> SameValue(Find(es, k).value, Find(fs, k).value))
  }

  lemma DistinctCons(e: (string, Json), es: seq<(string, Json)>)
    requires DistinctKeys(es) && e.0 !in KeysOf(es)
    ensures DistinctKeys([e] + es) && KeysOf([e] + es) == {e.0} + KeysOf(es)
    ensures forall k :: Find([e] + es, k) == if k == e.0 then Some(e.1) else Find(es, k)
  {
    var u := [e] + es;
    assert u[1..] == es;
    KeysStep(u);
    assert forall i | 1 <= i < |u| :: u[i] == es[i - 1] && u[i].0 in KeysOf(es);
  }

  lemma {:induction false} UnsignedLookup(es: seq<(string, Json)>)
    requires DistinctKeys(es)
    ensures DistinctKeys(Unsigned(es)) && KeysOf(Unsigned(es)) == KeysOf(es) - {SIGNATURE}
    ensures forall k | k != SIGNATURE :: Find(Unsigned(es), k) == Find(es, k)
  {
    if es != [] {
      DistinctTail(es);
      UnsignedLookup(es[1..]);
      KeysStep(es);
      if es[0].0 != SIGNATURE {
        DistinctCons(es[0], Unsigned(es[1..]));
      }
    }
  }

  lemma {:induction false} UnsignedContained(es: seq<(string, Json)>)
    ensures forall e | e in Unsigned(es) :: e in es
  {
    if es != [] {
      UnsignedContained(es[1..]);
    }
  }

  lemma UnsignedKeeps(es: seq<(string, Json)>)
    requires Keyed(Dict(es)) && FloatsOk(Dict(es))
    ensures Keyed(Dict(Unsigned(es))) && FloatsOk(Dict(Unsigned(es)))
  {
    UnsignedLookup(es);
    UnsignedContained(es);
    forall i | 0 <= i < |Unsigned(es)|
      ensures Keyed(Unsigned(es)[i].1) && FloatsOk(Unsigned(es)[i].1)
    {
      assert Unsigned(es)[i] in es;
    }
  }

  lemma SameUnsigned(es: seq<(string, Json)>, fs: seq<(string, Json)>)
    requires DistinctKeys(es) && DistinctKeys(fs) && SameExceptSignature(es, fs)
    ensures SameValue(Dict(Unsigned(es)), Dict(Unsigned(fs)))
  {
    UnsignedLookup(es);
    UnsignedLookup(fs);
    var u, w := Unsigned(es), Unsigned(fs);
    assert KeysOf(u) == KeysOf(w);
    forall i | 0 <= i < |u|
      ensures Find(w, u[i].0).Some? && SameValue(u[i].1, Find(w, u[i].0).value)
    {
      FindDistinct(u, i);
      assert u[i].0 in KeysOf(u);
    }
  }

  lemma UnsignedSame(es: seq<(string, Json)>, fs: seq<(string, Json)>)
    requires DistinctKeys(es) && DistinctKeys(fs) && SameValue(Dict(Unsigned(es)), Dict(Unsigned(fs)))
    ensures SameExceptSignature(es, fs)
  {
    UnsignedLookup(es);
    UnsignedLookup(fs);
    var u, w := Unsigned(es), Unsigned(fs);
    forall k | k != SIGNATURE
      ensures k in KeysOf(es) <==> k in KeysOf(fs)
      ensures k in KeysOf(es) && k in KeysOf(fs) ==> SameValue(Find(es, k).value, Find(fs, k).value)
    {
      assert k in KeysOf(u) <==> k in KeysOf(w);
      if k in KeysOf(u) {
        var i :| 0 <= i < |u| && u[i].0 == k;
        FindDistinct(u, i);
      }
    }
  }

  /** Comparing the signed texts of two manifests decides exactly whether they are the same apart from the signature. */
  lemma {:induction false} ManifestTextDecides(es: seq<(string, Json)>, fs: seq<(string, Json)>)
    requires Keyed(Dict(es)) && Keyed(Dict(fs)) && FloatsOk(Dict(es)) && FloatsOk(Dict(fs))
    ensures ManifestText(es) == ManifestText(fs) <==> SameExceptSignature(es, fs)
  {
    UnsignedKeeps(es);
    UnsignedKeeps(fs);
    CanonicalTextDecides(Dict(Unsigned(es)), Dict(Unsigned(fs)));
    if SameExceptSignature(es, fs) {
      SameUnsigned(es, fs);
    }
    if SameValue(Dict(Unsigned(es)), Dict(Unsigned(fs))) {
      UnsignedSame(es, fs);
    }
  }
}
