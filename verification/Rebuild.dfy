/** Rebuilding an archive with a signed manifest: nothing but the signature changes, the result is accepted again,
    and rebuilding it once more changes nothing. */
module Rebuild {
  import opened Wrappers
  import opened Json
  import opened Paths
  import opened Base64
  import opened JsonText
  import opened JsonGraph
  import opened JsonWalk
  import opened CanonicalManifest
  import opened Archive

  /** What the YAML reader and writer are relied on for: what is read has distinct keys and finite numbers, and what
      is written is read back as the same value. */
  ghost predicate Faithful(env: Env) {
    && FoldsPaths(env.unicode.fold)
    && (forall b :: env.parse(b).Some? ==> Keyed(Dict(env.parse(b).value)) && FloatsOk(Dict(env.parse(b).value)))
    && (forall t :: Keyed(Dict(t)) && FloatsOk(Dict(t)) ==> ReadsBack(env, t))
    && env.limits.yamlBytes <= env.limits.fileBytes
  }

  ghost predicate ReadsBack(env: Env, t: seq<(string, Json)>) {
    env.parse(env.dump(t)).Some? && SameValue(Dict(t), Dict(env.parse(env.dump(t)).value))
  }

  // ---------- the signed manifest ----------

  /** The signed mapping as a plain tree: it carries a well-formed signature, and is otherwise the original manifest. */
  ghost predicate Signs(original: seq<(string, Json)>, t: Json) {
    && t.Dict? && Keyed(t) && FloatsOk(t)
    && (match Find(t.entries, SIGNATURE) case Some(Str(s)) => DecodeSignature(s).Ok? case _ => false)
    && SameExceptSignature(original, t.entries)
  }

  ghost predicate SignedAs(original: seq<(string, Json)>, g: Graph, v: Value, t: Json)
    requires Closed(g) && Known(g, v)
  {
    Clean(g, v) && Unfold(g, v, {}) == t && Signs(original, t)
  }

  method SerialiseSigned(env: Env, original: seq<(string, Json)>, g: Graph, v: Value)
      returns (r: Result<Json, ArchiveError>)
    requires Closed(g) && Known(g, v) && Keyed(Dict(original)) && FloatsOk(Dict(original))
    ensures r.Ok? ==> SignedAs(original, g, v, r.value) && |env.dump(r.value.entries)| <= env.limits.yamlBytes
    ensures r.Err? ==> forall t :: !(SignedAs(original, g, v, t) && |env.dump(t.entries)| <= env.limits.yamlBytes)
  {
    var walker := new Walker();
    var tree := walker.Snapshot(g, v);
    if tree.None? || !tree.value.Dict? { return Err(BadManifest); }
    UnfoldedFloats(g, v, {});
    var t := tree.value;
    var signature := Find(t.entries, SIGNATURE);
    if signature.None? || !signature.value.Str? || DecodeSignature(signature.value.s).Err? { return Err(BadManifest); }
    ManifestTextDecides(original, t.entries);
    if ManifestText(original) != ManifestText(t.entries) { return Err(ChangedManifest); }
    if |env.dump(t.entries)| > env.limits.yamlBytes { return Err(LimitExceeded); }
    r := Ok(t);
  }

  // ---------- the written members ----------

  function NormalMode(m: Member): bv12 {
    if m.isDirectory || m.mode & 0x49 != 0 then 0x1ED else 0x1A4
  }

  /** One of the three execute bits. */
  predicate Executable(mode: bv12) {
    (mode >> 6) & 1 == 1 || (mode >> 3) & 1 == 1 || mode & 1 == 1
  }

  /** Directories and executables are written as rwxr-xr-x (octal 755), other files as rw-r--r-- (octal 644). */
  lemma ModesAreNormal(m: Member)
    ensures NormalMode(m) ==
              if m.isDirectory || Executable(m.mode) then (7 << 6) | (5 << 3) | 5 else (6 << 6) | (4 << 3) | 4
    ensures Executable(NormalMode(m)) <==> m.isDirectory || Executable(m.mode)
  {
  }

  /** A member as it is written: only its name's slash, its mode and, for the manifest, its payload can differ. */
  function Written(m: Member, manifest: string, payload: Bytes): Entry {
    var data := if m.name == manifest then payload else if m.data.Some? then m.data.value else [];
    Entry(if m.isDirectory then m.name + [SLASH] else m.name,
        if m.isDirectory then Directory else Regular, NormalMode(m), data)
  }

  function WrittenAll(ms: seq<Member>, manifest: string, payload: Bytes): (r: seq<Entry>)
    ensures |r| == |ms| && forall i | 0 <= i < |r| :: r[i] == Written(ms[i], manifest, payload)
  {
    seq(|ms|, i requires 0 <= i < |ms| => Written(ms[i], manifest, payload))
  }

  /** The same member with its mode normalised and, for the manifest, the new payload. */
  function Renewed(m: Member, manifest: string, payload: Bytes): Member {
    m.(mode := NormalMode(m), data := if m.name == manifest then Some(payload) else m.data)
  }

  lemma WrittenName(env: Env, e: Entry, manifest: string, payload: Bytes)
    requires EntryOk(env, e)
    ensures MemberName(env, Written(MemberOf(env, e), manifest, payload)) == Some(MemberOf(env, e).name)
  {
    CanonicalIsStable(env, RawName(e), e.kind == Directory);
  }

  /** A written member passes the inspection as the same member. */
  lemma {:induction false} WrittenEntry(env: Env, e: Entry, manifest: string, payload: Bytes)
    requires EntryOk(env, e) && env.limits.yamlBytes <= env.limits.fileBytes
    requires MemberOf(env, e).name == manifest ==> e.kind == Regular && NamedLikeManifest(env, manifest)
    requires |payload| <= env.limits.yamlBytes && env.parse(payload).Some?
    ensures var w := Written(MemberOf(env, e), manifest, payload);
            EntryOk(env, w) && MemberOf(env, w) == Renewed(MemberOf(env, e), manifest, payload)
  {
    var m := MemberOf(env, e);
    WrittenName(env, e, manifest, payload);
    WrittenRules(env, e, manifest, payload);
  }

  lemma WrittenRules(env: Env, e: Entry, manifest: string, payload: Bytes)
    requires EntryOk(env, e) && env.limits.yamlBytes <= env.limits.fileBytes
    requires MemberOf(env, e).name == manifest ==> e.kind == Regular && NamedLikeManifest(env, manifest)
    requires |payload| <= env.limits.yamlBytes && env.parse(payload).Some?
    ensures var m := MemberOf(env, e);
            var w := Written(m, manifest, payload);
            KindOk(env, w) && (NamedLikeManifest(env, m.name) ==> YamlOk(env, m.name, w))
  {
  }

  // ---------- the rebuilt archive ----------

  /** What the result is: the members of the accepted archive, written with the new manifest. */
  ghost function Output(env: Env, es: seq<Entry>, k: nat, t: Json): seq<Entry>
    requires Accepts(env, es, k) && t.Dict?
  {
    WrittenAll(MembersOf(env, es), MembersOf(env, es)[k].name, env.dump(t.entries))
  }

  /** The archive that the writer makes of these members; it always ends with zero blocks. */
  function Packed(env: Env, es: seq<Entry>): Tarball {
    Tarball(es, env.packed(es), env.expanded(es), true)
  }

  ghost predicate Rebuilds(env: Env, es: seq<Entry>, k: nat, t: Json) {
    && Accepts(env, es, k) && env.parse(es[k].data).Some? && Signs(env.parse(es[k].data).value, t)
    && |env.dump(t.entries)| <= env.limits.yamlBytes && TotalSize(Output(env, es, k, t)) <= env.limits.totalBytes
  }

  lemma ManifestIsRegular(env: Env, es: seq<Entry>, k: nat, i: nat)
    requires Accepts(env, es, k) && i < |es|
    ensures MemberOf(env, es[i]).name == MembersOf(env, es)[k].name ==>
              es[i].kind == Regular && NamedLikeManifest(env, MembersOf(env, es)[k].name)
  {
    assert EntryOk(env, es[i]);
    assert MembersOf(env, es)[k] == MemberOf(env, es[k]);
  }

  /** The members after: the same, with normalised modes and the new manifest. */
  ghost predicate AllRenewed(ms: seq<Member>, ns: seq<Member>, k: nat, payload: Bytes) {
    k < |ms| == |ns| && forall i | 0 <= i < |ms| :: ns[i] == Renewed(ms[i], ms[k].name, payload)
  }

  lemma OutputEntries(env: Env, es: seq<Entry>, k: nat, t: Json)
    requires Accepts(env, es, k) && t.Dict? && env.limits.yamlBytes <= env.limits.fileBytes
    requires |env.dump(t.entries)| <= env.limits.yamlBytes && env.parse(env.dump(t.entries)).Some?
    ensures EntriesOk(env, Output(env, es, k, t))
    ensures AllRenewed(MembersOf(env, es), MembersOf(env, Output(env, es, k, t)), k, env.dump(t.entries))
  {
    var out, name, payload := Output(env, es, k, t), MembersOf(env, es)[k].name, env.dump(t.entries);
    forall i | 0 <= i < |es|
      ensures EntryOk(env, out[i]) && MemberOf(env, out[i]) == Renewed(MemberOf(env, es[i]), name, payload)
    {
      ManifestIsRegular(env, es, k, i);
      WrittenEntry(env, es[i], name, payload);
    }
  }

  /** Path checks, the choice of the manifest and confinement look at names and kinds alone. */
  lemma NamesDecide(env: Env, ms: seq<Member>, ns: seq<Member>, k: nat, payload: Bytes)
    requires AllRenewed(ms, ns, k, payload) && MembersAccepted(env, ms, k)
    ensures MembersAccepted(env, ns, k)
  {
    assert PathsOf(ms) == PathsOf(ns);
    ManifestKept(env, ms, ns, k, payload);
  }

  lemma ManifestKept(env: Env, ms: seq<Member>, ns: seq<Member>, k: nat, payload: Bytes)
    requires AllRenewed(ms, ns, k, payload) && ManifestAt(env, ms, k) && Confined(ms, ms[k].name)
    ensures ManifestAt(env, ns, k) && Confined(ns, ns[k].name)
  {
  }

  lemma AcceptedLikewise(env: Env, es: seq<Entry>, out: seq<Entry>, k: nat, payload: Bytes)
    requires Accepts(env, es, k) && |out| == |es| && EntriesOk(env, out) && TotalSize(out) <= env.limits.totalBytes
    requires AllRenewed(MembersOf(env, es), MembersOf(env, out), k, payload)
    ensures Accepts(env, out, k)
  {
    NamesDecide(env, MembersOf(env, es), MembersOf(env, out), k, payload);
  }

  lemma ReadBack(env: Env, t: seq<(string, Json)>)
    requires Faithful(env) && Keyed(Dict(t)) && FloatsOk(Dict(t))
    ensures ReadsBack(env, t)
  {
  }

  lemma ReadValid(env: Env, b: Bytes)
    requires Faithful(env) && env.parse(b).Some?
    ensures Keyed(Dict(env.parse(b).value)) && FloatsOk(Dict(env.parse(b).value))
  {
  }

  /** The result is accepted in turn: same names, kinds and order, and every payload but the manifest's unchanged. */
  lemma OutputAccepted(env: Env, es: seq<Entry>, k: nat, t: Json)
    requires Faithful(env) && Rebuilds(env, es, k, t)
    ensures Accepts(env, Output(env, es, k, t), k)
    ensures AllRenewed(MembersOf(env, es), MembersOf(env, Output(env, es, k, t)), k, env.dump(t.entries))
  {
    ReadBack(env, t.entries);
    OutputEntries(env, es, k, t);
    AcceptedLikewise(env, es, Output(env, es, k, t), k, env.dump(t.entries));
  }

  lemma SameValueExceptSignature(es: seq<(string, Json)>, fs: seq<(string, Json)>)
    requires Keyed(Dict(es)) && Keyed(Dict(fs)) && SameValue(Dict(es), Dict(fs))
    ensures SameExceptSignature(es, fs)
  {
    forall k | k in KeysOf(es)
      ensures Find(fs, k).Some? && SameValue(Find(es, k).value, Find(fs, k).value)
    {
      var i :| 0 <= i < |es| && es[i].0 == k;
      FindDistinct(es, i);
    }
  }

  lemma ManifestsChain(original: seq<(string, Json)>, t: seq<(string, Json)>, read: seq<(string, Json)>)
    requires Keyed(Dict(original)) && Keyed(Dict(t)) && Keyed(Dict(read))
    requires FloatsOk(Dict(original)) && FloatsOk(Dict(t)) && FloatsOk(Dict(read))
    requires SameExceptSignature(original, t) && SameValue(Dict(t), Dict(read))
    ensures SameExceptSignature(original, read) && SameExceptSignature(read, t)
  {
    SameValueExceptSignature(t, read);
    ManifestTextDecides(original, t);
    ManifestTextDecides(t, read);
    ManifestTextDecides(original, read);
    ManifestTextDecides(read, t);
  }

  /** The new manifest as it is read back says what the original said, apart from the signature; and it is the
      signed mapping. */
  lemma NewManifestAgrees(env: Env, es: seq<Entry>, k: nat, t: Json)
    requires Faithful(env) && Rebuilds(env, es, k, t)
    ensures var out := Output(env, es, k, t);
            && out[k].data == env.dump(t.entries) && env.parse(out[k].data).Some?
            && SameValue(t, Dict(env.parse(out[k].data).value))
            && SameExceptSignature(env.parse(es[k].data).value, env.parse(out[k].data).value)
            && SameExceptSignature(env.parse(out[k].data).value, t.entries)
  {
    ReadBack(env, t.entries);
    ReadValid(env, es[k].data);
    ReadValid(env, env.dump(t.entries));
    ManifestsChain(env.parse(es[k].data).value, t.entries, env.parse(env.dump(t.entries)).value);
  }

  lemma WrittenTwice(m: Member, manifest: string, payload: Bytes)
    requires m.name == manifest ==> m.data.Some?
    ensures Written(Renewed(m, manifest, payload), manifest, payload) == Written(m, manifest, payload)
  {
  }

  lemma AllWrittenTwice(ms: seq<Member>, ns: seq<Member>, k: nat, payload: Bytes)
    requires AllRenewed(ms, ns, k, payload) && forall i | 0 <= i < |ms| && ms[i].name == ms[k].name :: ms[i].data.Some?
    ensures WrittenAll(ns, ns[k].name, payload) == WrittenAll(ms, ms[k].name, payload)
  {
    forall i | 0 <= i < |ms|
      ensures Written(ns[i], ns[k].name, payload) == Written(ms[i], ms[k].name, payload)
    {
      WrittenTwice(ms[i], ms[k].name, payload);
    }
  }

  lemma ManifestHasData(env: Env, es: seq<Entry>, k: nat)
    requires Accepts(env, es, k)
    ensures forall i | 0 <= i < |es| && MembersOf(env, es)[i].name == MembersOf(env, es)[k].name ::
              MembersOf(env, es)[i].data.Some?
  {
    forall i | 0 <= i < |es| && MembersOf(env, es)[i].name == MembersOf(env, es)[k].name
      ensures MembersOf(env, es)[i].data.Some?
    {
      ManifestIsRegular(env, es, k, i);
    }
  }

  lemma OutputTwice(env: Env, es: seq<Entry>, k: nat, t: Json)
    requires Faithful(env) && Rebuilds(env, es, k, t) && Accepts(env, Output(env, es, k, t), k)
    ensures Output(env, Output(env, es, k, t), k, t) == Output(env, es, k, t)
  {
    OutputAccepted(env, es, k, t);
    ManifestHasData(env, es, k);
    AllWrittenTwice(MembersOf(env, es), MembersOf(env, Output(env, es, k, t)), k, env.dump(t.entries));
  }

  /** Rebuilding preserves meaning and is a fixed point: the result is accepted with the same names, kinds and
      order, execute bits, payloads other than the manifest's and the same unsigned manifest; and rebuilding the
      result with the same signed manifest succeeds and gives it back unchanged. */
  lemma {:induction false} RebuildPreservesMeaning(env: Env, es: seq<Entry>, k: nat, t: Json)
    requires Faithful(env) && Rebuilds(env, es, k, t)
    ensures var out := Output(env, es, k, t);
            && Accepts(env, out, k)
            && (var ms, ns := MembersOf(env, es), MembersOf(env, out);
                |ns| == |ms| && forall i | 0 <= i < |ms| ::
                  && ns[i].name == ms[i].name && ns[i].isDirectory == ms[i].isDirectory
                  && (Executable(ns[i].mode) <==> ms[i].isDirectory || Executable(ms[i].mode))
                  && (i != k ==> ns[i].data == ms[i].data))
            && env.parse(out[k].data).Some?
            && SameExceptSignature(env.parse(es[k].data).value, env.parse(out[k].data).value)
            && SameValue(t, Dict(env.parse(out[k].data).value))
            && Rebuilds(env, out, k, t) && Output(env, out, k, t) == out
  {
    OutputAccepted(env, es, k, t);
    NewManifestAgrees(env, es, k, t);
    OutputTwice(env, es, k, t);
    OthersKeepTheirNames(env, es, k);
    forall m: Member
      ensures Executable(NormalMode(m)) <==> m.isDirectory || Executable(m.mode)
    {
      ModesAreNormal(m);
    }
  }

  /** The same for the archive as a whole: rebuilding the rebuilt archive gives it back. */
  lemma {:induction false} RebuiltTarballIsFixed(env: Env, t: Tarball, g: Graph, v: Value, k: nat, j: Json)
    requires Faithful(env) && Closed(g) && Known(g, v) && TarballFits(env, t, g, v, k, j)
    ensures var out := Packed(env, Output(env, t.entries, k, j));
            TarballFits(env, out, g, v, k, j) && Packed(env, Output(env, out.entries, k, j)) == out
  {
    RebuildPreservesMeaning(env, t.entries, k, j);
  }

  /** Only the manifest has the manifest's name. */
  lemma OthersKeepTheirNames(env: Env, es: seq<Entry>, k: nat)
    requires Accepts(env, es, k)
    ensures forall i | 0 <= i < |es| && i != k :: MembersOf(env, es)[i].name != MembersOf(env, es)[k].name
  {
  }

  // ---------- the operation ----------

  /** The archive and the signed mapping go together: the members should be rebuilt, with member `k` as the manifest. */
  ghost predicate Fits(env: Env, es: seq<Entry>, g: Graph, v: Value, k: nat, t: Json)
    requires Closed(g) && Known(g, v)
  {
    Clean(g, v) && Unfold(g, v, {}) == t && Rebuilds(env, es, k, t)
  }

  ghost predicate NothingFits(env: Env, es: seq<Entry>, g: Graph, v: Value)
    requires Closed(g) && Known(g, v)
  {
    forall k: nat, t :: !Fits(env, es, g, v, k, t)
  }

  lemma OneManifest(env: Env, es: seq<Entry>, j: nat, k: nat)
    requires Accepts(env, es, j) && Accepts(env, es, k)
    ensures j == k
  {
  }

  lemma FittingIsSigned(env: Env, es: seq<Entry>, g: Graph, v: Value, k: nat, j: nat, t: Json)
    requires Closed(g) && Known(g, v) && Accepts(env, es, k) && env.parse(es[k].data).Some?
    ensures Fits(env, es, g, v, j, t) ==>
              SignedAs(env.parse(es[k].data).value, g, v, t) && |env.dump(t.entries)| <= env.limits.yamlBytes
  {
    if Fits(env, es, g, v, j, t) {
      OneManifest(env, es, j, k);
    }
  }

  lemma UnsignedFits(env: Env, es: seq<Entry>, g: Graph, v: Value, k: nat)
    requires Closed(g) && Known(g, v) && Accepts(env, es, k) && env.parse(es[k].data).Some?
    requires forall t :: !(SignedAs(env.parse(es[k].data).value, g, v, t) &&
               |env.dump(t.entries)| <= env.limits.yamlBytes)
    ensures NothingFits(env, es, g, v)
  {
    forall j: nat, t
      ensures !Fits(env, es, g, v, j, t)
    {
      FittingIsSigned(env, es, g, v, k, j, t);
    }
  }

  lemma AcceptedOutput(env: Env, es: seq<Entry>, k: nat, t: Json, j: nat)
    requires Faithful(env) && Accepts(env, es, k) && env.parse(es[k].data).Some? &&
               Signs(env.parse(es[k].data).value, t)
    requires |env.dump(t.entries)| <= env.limits.yamlBytes && Accepts(env, Output(env, es, k, t), j)
    ensures Rebuilds(env, es, k, t) && MembersOf(env, Output(env, es, k, t))[j].name == MembersOf(env, es)[k].name
  {
    OutputAccepted(env, es, k, t);
    OneManifest(env, Output(env, es, k, t), j, k);
  }

  method WriteMembers(members: seq<Member>, name: string, payload: Bytes) returns (out: seq<Entry>)
    ensures out == WrittenAll(members, name, payload)
  {
    out := [];
    for n := 0 to |members|
      invariant |out| == n && forall i | 0 <= i < n :: out[i] == Written(members[i], name, payload)
    {
      out := out + [Written(members[n], name, payload)];
    }
  }

  /** And the streams before and after are within the limits. */
  ghost predicate TarballFits(env: Env, t: Tarball, g: Graph, v: Value, k: nat, j: Json)
    requires Closed(g) && Known(g, v)
  {
    StreamOk(env, t) && Fits(env, t.entries, g, v, k, j) && StreamOk(env, Packed(env, Output(env, t.entries, k, j)))
  }

  ghost predicate NoTarballFits(env: Env, t: Tarball, g: Graph, v: Value)
    requires Closed(g) && Known(g, v)
  {
    forall k: nat, j :: !TarballFits(env, t, g, v, k, j)
  }

  lemma NoneFits(env: Env, t: Tarball, g: Graph, v: Value)
    requires Closed(g) && Known(g, v) &&
               (NothingFits(env, t.entries, g, v) || forall k: nat :: !AcceptsTarball(env, t, k))
    ensures NoTarballFits(env, t, g, v)
  {
    forall k: nat, j
      ensures !TarballFits(env, t, g, v, k, j)
    {
      assert TarballFits(env, t, g, v, k, j) ==> Fits(env, t.entries, g, v, k, j) && AcceptsTarball(env, t, k);
    }
  }

  /** Succeeds exactly when the archive is accepted, the mapping is signed and otherwise unchanged, and the result
      fits the limits; so the second inspection can only fail on a size. */
  method RebuildTarball(env: Env, t: Tarball, g: Graph, v: Value) returns (r: Result<Tarball, ArchiveError>)
    requires Faithful(env) && Closed(g) && Known(g, v)
    ensures r.Ok? ==> exists k: nat, j ::
              TarballFits(env, t, g, v, k, j) && r.value == Packed(env, Output(env, t.entries, k, j))
    ensures r.Err? ==> NoTarballFits(env, t, g, v)
  {
    var first := InspectTarball(env, t);
    if first.Err? {
      NoneFits(env, t, g, v);
      return Err(first.error);
    }
    var k, original := first.value.manifest, first.value.mapping;
    ReadValid(env, t.entries[k].data);
    var signed := SerialiseSigned(env, original, g, v);
    if signed.Err? {
      UnsignedFits(env, t.entries, g, v, k);
      NoneFits(env, t, g, v);
      return Err(signed.error);
    }
    var j, members := signed.value, first.value.members;
    var name := members[k].name;
    var written := WriteMembers(members, name, env.dump(j.entries));
    assert written == Output(env, t.entries, k, j);
    var rebuilt := Packed(env, written);
    r := CheckRebuilt(env, t, g, v, k, j, name, rebuilt);
  }

  /** The size check and the second inspection. */
  method CheckRebuilt(env: Env, t: Tarball, g: Graph, v: Value, ghost k: nat, ghost j: Json, name: string,
      rebuilt: Tarball)
    returns (r: Result<Tarball, ArchiveError>)
    requires Faithful(env) && Closed(g) && Known(g, v) && AcceptsTarball(env, t, k)
    requires env.parse(t.entries[k].data).Some? && SignedAs(env.parse(t.entries[k].data).value, g, v, j)
    requires |env.dump(j.entries)| <= env.limits.yamlBytes
    requires rebuilt == Packed(env, Output(env, t.entries, k, j)) && name == MembersOf(env, t.entries)[k].name
    ensures r.Ok? ==> TarballFits(env, t, g, v, k, j) && r.value == rebuilt
    ensures r.Err? ==> NoTarballFits(env, t, g, v)
  {
    NoOtherFit(env, t, g, v, k, j);
    if rebuilt.packed > env.limits.archiveBytes { return Err(LimitExceeded); }
    var second := InspectTarball(env, rebuilt);
    if second.Err? {
      RefusedRebuilt(env, t, g, v, k, j);
      return Err(second.error);
    }
    AcceptedOutput(env, t.entries, k, j, second.value.manifest);
    if second.value.members[second.value.manifest].name != name {
      assert false;
      return Err(ChangedManifest);
    }
    assert Fits(env, t.entries, g, v, k, j);
    r := Ok(rebuilt);
  }

  /** Only this manifest and this mapping can fit. */
  lemma NoOtherFit(env: Env, t: Tarball, g: Graph, v: Value, k: nat, j: Json)
    requires Closed(g) && Known(g, v) && Accepts(env, t.entries, k) && Clean(g, v) && Unfold(g, v, {}) == j
    ensures forall m: nat, u | TarballFits(env, t, g, v, m, u) :: m == k && u == j
  {
    forall m: nat, u | TarballFits(env, t, g, v, m, u)
      ensures m == k && u == j
    {
      OneManifest(env, t.entries, m, k);
    }
  }

  lemma RefusedRebuilt(env: Env, t: Tarball, g: Graph, v: Value, k: nat, j: Json)
    requires Faithful(env) && Closed(g) && Known(g, v) && Accepts(env, t.entries, k) && j.Dict?
    requires forall m: nat :: !AcceptsTarball(env, Packed(env, Output(env, t.entries, k, j)), m)
    ensures !TarballFits(env, t, g, v, k, j)
  {
    if TarballFits(env, t, g, v, k, j) {
      FittingIsAccepted(env, t, g, v, k, j);
    }
  }

  lemma FittingIsAccepted(env: Env, t: Tarball, g: Graph, v: Value, k: nat, j: Json)
    requires Faithful(env) && Closed(g) && Known(g, v) && TarballFits(env, t, g, v, k, j)
    ensures AcceptsTarball(env, Packed(env, Output(env, t.entries, k, j)), k)
  {
    OutputAccepted(env, t.entries, k, j);
  }
}
