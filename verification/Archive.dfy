/** Inspecting a skill archive: which member lists are accepted, and what is read from them. */
module Archive {
  import opened Wrappers
  import opened Json
  import opened Paths
  import PathCheck

  datatype Kind = Regular | Directory | Special

  /** A member as it stands in the archive. */
  datatype Entry = Entry(name: string, kind: Kind, mode: bv12, data: Bytes)

  /** A member as the inspection keeps it; only regular files have a payload. */
  datatype Member = Member(name: string, isDirectory: bool, mode: bv12, data: Option<Bytes>)

  /** An archive as it is read: its members, the sizes of the compressed and the expanded stream, and whether the
      expanded stream ends with zero blocks and nothing hidden after the last member. */
  datatype Tarball = Tarball(entries: seq<Entry>, packed: nat, expanded: nat, terminated: bool)

  datatype Limits = Limits(
    archiveBytes: nat, expandedBytes: nat, members: nat, fileBytes: nat, totalBytes: nat, yamlBytes: nat,
        pathBytes: nat)

  /** What the inspection takes from Unicode: the folding of a character, which characters are control, format or
      surrogate characters, which names are in NFC, and how many bytes a character has in UTF-8. */
  datatype Unicode = Unicode(fold: char -> string, control: char -> bool, nfc: string -> bool, width: char -> nat)

  /** And from the formats: the strict YAML reader, the YAML writer, and the sizes of the archive that is written. */
  datatype Env = Env(unicode: Unicode, parse: Bytes -> Option<seq<(string, Json)>>, dump: seq<(string, Json)> -> Bytes,
                     packed: seq<Entry> -> nat, expanded: seq<Entry> -> nat, limits: Limits)

  datatype Inspection = Inspection(manifest: nat, mapping: seq<(string, Json)>, members: seq<Member>)

  datatype ArchiveError = Rejected | BadManifest | ChangedManifest | LimitExceeded

  const YAML_NAME: string := "skill.yaml"

  // ---------- names ----------

  /** The device names: six words, and COM and LPT with a digit from one to nine. */
  predicate DeviceName(s: string) {
    || s == "aux" || s == "con" || s == "conin$" || s == "conout$" || s == "nul" || s == "prn"
    || (|s| == 4 && (s[..3] == "com" || s[..3] == "lpt") && '1' <= s[3] <= '9')
  }

  const COMPONENT_BYTES: nat := 255

  function Width(u: Unicode, s: string): nat {
    if s == "" then 0 else u.width(s[0]) + Width(u, s[1..])
  }

  /** The part of a component before its first dot. */
  function Stem(s: string): string {
    if s == "" || s[0] == '.' then "" else [s[0]] + Stem(s[1..])
  }

  /** Neither empty nor a dot name, no colon or backslash, no space or dot at the end, not too long, not a device
      name. */
  predicate ComponentOk(u: Unicode, c: string) {
    && c != "" && c != "." && c != ".." && ':' !in c && '\\' !in c && c[|c| - 1] != ' ' && c[|c| - 1] != '.'
    && Width(u, c) <= COMPONENT_BYTES && !DeviceName(Fold(u.fold, Stem(c)))
  }

  predicate ComponentsOk(u: Unicode, parts: seq<string>) {
    parts != [] && forall i | 0 <= i < |parts| :: ComponentOk(u, parts[i])
  }

  predicate Printable(u: Unicode, s: string) {
    forall i | 0 <= i < |s| :: !u.control(s[i])
  }

  /** The components of a member's name; one final slash of a directory is dropped. */
  function Kept(raw: string, directory: bool): seq<string> {
    var parts := Split(raw); if directory && parts[|parts| - 1] == "" then parts[..|parts| - 1] else parts
  }

  /** The canonical form of a member's name. */
  function CanonicalName(env: Env, raw: string, directory: bool): Option<string> {
    var kept := Kept(raw, directory);
    if !Printable(env.unicode, raw) || !ComponentsOk(env.unicode, kept) then None
    else if !env.unicode.nfc(Join(kept)) || Width(env.unicode, Join(kept)) > env.limits.pathBytes then None
    else Some(Join(kept))
  }

  /** Reading an archive drops the final slashes of a directory's name. */
  function StripSlashes(s: string): string {
    if s != "" && s[|s| - 1] == SLASH then StripSlashes(s[..|s| - 1]) else s
  }

  function RawName(e: Entry): string {
    if e.kind == Directory then StripSlashes(e.name) else e.name
  }

  lemma NoFinalSlash(u: Unicode, parts: seq<string>)
    requires ComponentsOk(u, parts) && AllSlashless(parts)
    ensures StripSlashes(Join(parts)) == Join(parts) && Split(Join(parts)) == parts
  {
    var n := Join(parts);
    SplitJoined(parts);
    assert ComponentOk(u, parts[|parts| - 1]);
    if n != "" && n[|n| - 1] == SLASH {
      FinalSlashSplits(n);
    }
  }

  lemma FinalSlashSplits(n: string)
    requires n != "" && n[|n| - 1] == SLASH
    ensures Split(n)[|Split(n)| - 1] == ""
  {
    SplitAt(n[..|n| - 1], "");
    assert n == n[..|n| - 1] + [SLASH] + "";
  }

  lemma StripOne(n: string)
    requires StripSlashes(n) == n
    ensures StripSlashes(n + [SLASH]) == n
  {
    assert (n + [SLASH])[..|n + [SLASH]| - 1] == n;
  }

  /** Canonical names stay as they are, with or without a directory's slash. */
  lemma {:induction false} CanonicalIsStable(env: Env, raw: string, directory: bool)
    requires CanonicalName(env, raw, directory).Some?
    ensures var n := CanonicalName(env, raw, directory).value;
            CanonicalName(env, n, directory) == Some(n) && StripSlashes(n) == n && StripSlashes(n + [SLASH]) == n
  {
    var kept := Kept(raw, directory);
    KeptParts(raw, directory);
    NoFinalSlash(env.unicode, kept);
    StripOne(Join(kept));
    KeptIsPrefix(raw, kept);
    StaysCanonical(env, Join(kept), kept, directory);
  }

  lemma KeptParts(raw: string, directory: bool)
    ensures AllSlashless(Kept(raw, directory))
    ensures Split(raw) == Kept(raw, directory) || Split(raw) == Kept(raw, directory) + [""]
  {
    SplitSlashless(raw);
  }

  lemma StaysCanonical(env: Env, n: string, kept: seq<string>, directory: bool)
    requires Split(n) == kept && Join(kept) == n && ComponentsOk(env.unicode, kept) && Printable(env.unicode, n)
    requires env.unicode.nfc(n) && Width(env.unicode, n) <= env.limits.pathBytes
    ensures CanonicalName(env, n, directory) == Some(n)
  {
    assert ComponentOk(env.unicode, kept[|kept| - 1]);
  }

  /** Dropping a directory's slash drops nothing else. */
  lemma KeptIsPrefix(raw: string, kept: seq<string>)
    requires kept != [] && (Split(raw) == kept || Split(raw) == kept + [""])
    ensures Join(kept) <= raw
  {
    JoinSplit(raw);
    if Split(raw) == kept + [""] {
      JoinAppend(kept, [""]);
    }
  }

  // ---------- one member ----------

  function MemberName(env: Env, e: Entry): Option<string> {
    CanonicalName(env, RawName(e), e.kind == Directory)
  }

  function Basename(name: string): string {
    var parts := Split(name); parts[|parts| - 1]
  }

  predicate NamedLikeManifest(env: Env, name: string) {
    Fold(env.unicode.fold, Basename(name)) == YAML_NAME
  }

  function Size(e: Entry): nat {
    if e.kind == Regular then |e.data| else 0
  }

  predicate KindOk(env: Env, e: Entry) {
    e.kind != Special && (e.kind == Directory ==> e.data == []) && Size(e) <= env.limits.fileBytes
  }

  /** What is required of a manifest. */
  predicate YamlOk(env: Env, name: string, e: Entry) {
    && e.kind == Regular && Basename(name) == YAML_NAME && |Split(name)| <= 2
    && |e.data| <= env.limits.yamlBytes && env.parse(e.data).Some?
  }

  /** What is required of each member by itself. */
  predicate EntryOk(env: Env, e: Entry) {
    var name := MemberName(env, e);
    KindOk(env, e) && name.Some? && (NamedLikeManifest(env, name.value) ==> YamlOk(env, name.value, e))
  }

  function MemberOf(env: Env, e: Entry): Member
    requires EntryOk(env, e)
  {
    Member(MemberName(env, e).value, e.kind == Directory, e.mode, if e.kind == Regular then Some(e.data) else None)
  }

  function PathOf(m: Member): PathCheck.Member {
    PathCheck.Member(m.name, m.isDirectory)
  }

  function PathsOf(ms: seq<Member>): (r: seq<PathCheck.Member>)
    ensures |r| == |ms| && forall i | 0 <= i < |r| :: r[i] == PathOf(ms[i])
  {
    seq(|ms|, i requires 0 <= i < |ms| => PathOf(ms[i]))
  }

  // ---------- the whole archive ----------

  function TotalSize(es: seq<Entry>): nat {
    if es == [] then 0 else TotalSize(es[..|es| - 1]) + Size(es[|es| - 1])
  }

  ghost predicate EntriesOk(env: Env, es: seq<Entry>) {
    forall i | 0 <= i < |es| :: EntryOk(env, es[i])
  }

  function MembersOf(env: Env, es: seq<Entry>): (r: seq<Member>)
    requires EntriesOk(env, es)
    ensures |r| == |es| && forall i | 0 <= i < |r| :: r[i] == MemberOf(env, es[i])
  {
    seq(|es|, i requires 0 <= i < |es| => MemberOf(env, es[i]))
  }

  /** Member `k` is the manifest, and the only one. */
  ghost predicate ManifestAt(env: Env, ms: seq<Member>, k: nat) {
    k < |ms| && NamedLikeManifest(env, ms[k].name) && forall i | 0 <= i < |ms| && NamedLikeManifest(env, ms[i].name) ::
        i == k
  }

  /** A manifest one directory deep keeps every member inside that directory. */
  predicate Confined(ms: seq<Member>, manifest: string) {
    SLASH in manifest ==> forall i | 0 <= i < |ms| ::
        ms[i].name == Split(manifest)[0] || Split(manifest)[0] + [SLASH] <= ms[i].name
  }

  /** What is required of the members together; member `k` is the manifest. */
  ghost predicate MembersAccepted(env: Env, ms: seq<Member>, k: nat) {
    PathCheck.AllCompatible(env.unicode.fold, PathsOf(ms)) && ManifestAt(env, ms, k) && Confined(ms, ms[k].name)
  }

  ghost predicate Accepts(env: Env, es: seq<Entry>, k: nat) {
    && |es| <= env.limits.members && EntriesOk(env, es) && TotalSize(es) <= env.limits.totalBytes
    && MembersAccepted(env, MembersOf(env, es), k)
  }

  // ---------- the loop ----------

  method InspectEntry(env: Env, e: Entry) returns (r: Option<Member>)
    ensures r.Some? <==> EntryOk(env, e)
    ensures r.Some? ==> r.value == MemberOf(env, e)
  {
    if e.kind == Special || (e.kind == Directory && e.data != []) { return None; }
    var name := MemberName(env, e);
    if name.None? { return None; }
    if e.kind == Regular && |e.data| > env.limits.fileBytes { return None; }
    if NamedLikeManifest(env, name.value) {
      var ok := InspectYaml(env, name.value, e);
      if !ok { return None; }
    }
    r := Some(Member(name.value, e.kind == Directory, e.mode, if e.kind == Regular then Some(e.data) else None));
  }

  method InspectYaml(env: Env, name: string, e: Entry) returns (ok: bool)
    ensures ok <==> YamlOk(env, name, e)
  {
    if e.kind != Regular || Basename(name) != YAML_NAME { return false; }
    if |Split(name)| > 2 || |e.data| > env.limits.yamlBytes { return false; }
    ok := env.parse(e.data).Some?;
  }

  lemma EntriesAppend(env: Env, es: seq<Entry>, e: Entry)
    requires EntriesOk(env, es) && EntryOk(env, e)
    ensures EntriesOk(env, es + [e])
  {
  }

  lemma MembersAppend(env: Env, es: seq<Entry>, e: Entry)
    requires EntriesOk(env, es) && EntryOk(env, e) && EntriesOk(env, es + [e])
    ensures MembersOf(env, es + [e]) == MembersOf(env, es) + [MemberOf(env, e)]
  {
  }

  lemma {:induction false} OneMoreMember(env: Env, es: seq<Entry>, n: nat)
    requires n < |es| && EntriesOk(env, es[..n]) && EntryOk(env, es[n])
    ensures EntriesOk(env, es[..n + 1])
    ensures MembersOf(env, es[..n + 1]) == MembersOf(env, es[..n]) + [MemberOf(env, es[n])]
  {
    assert es[..n + 1] == es[..n] + [es[n]];
    EntriesAppend(env, es[..n], es[n]);
    MembersAppend(env, es[..n], es[n]);
  }

  lemma OneMoreSize(es: seq<Entry>, n: nat)
    requires n < |es|
    ensures TotalSize(es[..n + 1]) == TotalSize(es[..n]) + Size(es[n])
  {
    assert es[..n + 1][..n] == es[..n];
  }

  lemma {:induction false} TotalGrows(es: seq<Entry>, n: nat)
    requires n <= |es|
    ensures TotalSize(es[..n]) <= TotalSize(es)
  {
    if n == |es| {
      assert es[..n] == es;
    } else {
      TotalGrows(es[..|es| - 1], n);
      assert es[..|es| - 1][..n] == es[..n];
    }
  }

  // ---------- why an archive is refused ----------

  ghost predicate Refused(env: Env, es: seq<Entry>) {
    forall k: nat :: !Accepts(env, es, k)
  }

  lemma RefusedByEntry(env: Env, es: seq<Entry>, n: nat)
    requires n < |es| && (!EntryOk(env, es[n]) || TotalSize(es[..n]) + Size(es[n]) > env.limits.totalBytes)
    ensures Refused(env, es)
  {
    TotalGrows(es, n + 1);
    OneMoreSize(es, n);
  }

  lemma {:induction false} RefusedByPath(env: Env, es: seq<Entry>, n: nat)
    requires n < |es| && EntriesOk(env, es[..n]) && EntryOk(env, es[n])
    requires !PathCheck.FitsIn(env.unicode.fold, PathsOf(MembersOf(env, es[..n])), PathOf(MemberOf(env, es[n])))
    ensures Refused(env, es)
  {
    var some := PathsOf(MembersOf(env, es[..n]));
    var a :| a in some && !PathCheck.Compatible(env.unicode.fold, a, PathOf(MemberOf(env, es[n])));
    var i :| 0 <= i < n && some[i] == a;
    if EntriesOk(env, es) {
      var all := PathsOf(MembersOf(env, es));
      assert all[i] == some[i] && all[n] == PathOf(MemberOf(env, es[n]));
      assert !PathCheck.Compatible(env.unicode.fold, all[i], all[n]);
    }
  }

  /** The member names seen so far that could be a manifest's: none, or just one. */
  ghost predicate ManifestSoFar(env: Env, ms: seq<Member>, found: Option<nat>) {
    match found
    case None => forall i | 0 <= i < |ms| :: !NamedLikeManifest(env, ms[i].name)
    case Some(k) => ManifestAt(env, ms, k)
  }

  lemma RefusedByManifest(env: Env, es: seq<Entry>, n: nat, k: nat)
    requires k < n < |es| && EntryOk(env, es[n]) && EntryOk(env, es[k])
    requires NamedLikeManifest(env, MemberOf(env, es[n]).name) && NamedLikeManifest(env, MemberOf(env, es[k]).name)
    ensures Refused(env, es)
  {
    if EntriesOk(env, es) {
      var ms := MembersOf(env, es);
      assert ms[n] == MemberOf(env, es[n]) && ms[k] == MemberOf(env, es[k]);
    }
  }

  lemma RefusedAtEnd(env: Env, es: seq<Entry>, ms: seq<Member>, found: Option<nat>)
    requires EntriesOk(env, es) && ms == MembersOf(env, es) && ManifestSoFar(env, ms, found)
    requires found.Some? ==> !Confined(ms, ms[found.value].name)
    ensures Refused(env, es)
  {
    forall k: nat
      ensures !Accepts(env, es, k)
    {
      assert ManifestAt(env, ms, k) ==> found == Some(k);
    }
  }

  // ---------- the loop ----------

  /** What is known after the first `n` members. */
  ghost predicate Scanned(env: Env, es: seq<Entry>, n: nat, ms: seq<Member>, total: nat, found: Option<nat>) {
    && n <= |es| && EntriesOk(env, es[..n]) && ms == MembersOf(env, es[..n])
    && total == TotalSize(es[..n]) && total <= env.limits.totalBytes && ManifestSoFar(env, ms, found)
  }

  lemma ScannedOneMore(env: Env, es: seq<Entry>, n: nat, ms: seq<Member>, total: nat, found: Option<nat>, m: Member)
    requires n < |es| && Scanned(env, es, n, ms, total, found) && EntryOk(env, es[n]) && m == MemberOf(env, es[n])
    requires total + Size(es[n]) <= env.limits.totalBytes && (NamedLikeManifest(env, m.name) ==> found.None?)
    ensures Scanned(env, es, n + 1, ms + [m], total + Size(es[n]),
                    if NamedLikeManifest(env, m.name) then Some(n) else found)
  {
    OneMoreMember(env, es, n);
    OneMoreSize(es, n);
    ManifestOneMore(env, ms, found, m);
  }

  lemma ManifestOneMore(env: Env, ms: seq<Member>, found: Option<nat>, m: Member)
    requires ManifestSoFar(env, ms, found) && (NamedLikeManifest(env, m.name) ==> found.None?)
    ensures ManifestSoFar(env, ms + [m], if NamedLikeManifest(env, m.name) then Some(|ms|) else found)
  {
  }

  lemma FoundEarlier(env: Env, es: seq<Entry>, n: nat, ms: seq<Member>, total: nat, k: nat)
    requires Scanned(env, es, n, ms, total, Some(k))
    ensures k < n && EntryOk(env, es[k]) && NamedLikeManifest(env, MemberOf(env, es[k]).name)
  {
    assert es[..n][k] == es[k];
  }

  /** One more member, or the reason that the archive is refused. */
  method InspectNext(env: Env, es: seq<Entry>, n: nat, seen: PathCheck.SeenPaths, ms: seq<Member>, total: nat,
      found: Option<nat>)
    returns (r: Option<Member>)
    requires n < |es| && Scanned(env, es, n, ms, total, found)
    requires seen.Valid() && seen.fold == env.unicode.fold && seen.members == PathsOf(ms)
    modifies seen
    ensures r.None? ==> Refused(env, es)
    ensures r.Some? ==>
              && EntryOk(env, es[n]) && r.value == MemberOf(env, es[n]) && total + Size(es[n]) <= env.limits.totalBytes
              && (NamedLikeManifest(env, r.value.name) ==> found.None?)
              && seen.Valid() && seen.members == PathsOf(ms + [r.value])
  {
    r := InspectEntry(env, es[n]);
    if r.None? || total + Size(es[n]) > env.limits.totalBytes {
      RefusedByEntry(env, es, n);
      return None;
    }
    var fits := seen.Admit(PathOf(r.value));
    if !fits {
      RefusedByPath(env, es, n);
      return None;
    }
    PathsAppend(ms, r.value);
    if NamedLikeManifest(env, r.value.name) && found.Some? {
      FoundEarlier(env, es, n, ms, total, found.value);
      RefusedByManifest(env, es, n, found.value);
      return None;
    }
  }

  lemma PathsAppend(ms: seq<Member>, m: Member)
    ensures PathsOf(ms + [m]) == PathsOf(ms) + [PathOf(m)]
  {
  }

  method InspectMembers(env: Env, es: seq<Entry>) returns (r: Option<(seq<Member>, Option<nat>)>)
    requires FoldsPaths(env.unicode.fold)
    ensures r.None? ==> Refused(env, es)
    ensures r.Some? ==>
              && Scanned(env, es, |es|, r.value.0, TotalSize(es), r.value.1) && |es| <= env.limits.members
              && PathCheck.AllCompatible(env.unicode.fold, PathsOf(r.value.0))
  {
    if |es| > env.limits.members { return None; }
    var members: seq<Member>, manifest: Option<nat>, total: nat := [], None, 0;
    var seen := new PathCheck.SeenPaths(env.unicode.fold);
    for n := 0 to |es|
      invariant Scanned(env, es, n, members, total, manifest)
      invariant seen.Valid() && seen.fold == env.unicode.fold && seen.members == PathsOf(members)
    {
      var m := InspectNext(env, es, n, seen, members, total, manifest);
      if m.None? { return None; }
      ScannedOneMore(env, es, n, members, total, manifest, m.value);
      members, total := members + [m.value], total + Size(es[n]);
      manifest := if NamedLikeManifest(env, m.value.name) then Some(n) else manifest;
    }
    assert es[..|es|] == es;
    r := Some((members, manifest));
  }

  /** Reads the archive member by member; it is accepted exactly when the rules on the whole hold. */
  method Inspect(env: Env, es: seq<Entry>) returns (r: Result<Inspection, ArchiveError>)
    requires FoldsPaths(env.unicode.fold)
    ensures r.Err? ==> Refused(env, es)
    ensures r.Ok? ==> Accepts(env, es, r.value.manifest) && r.value.members == MembersOf(env, es)
    ensures r.Ok? ==> env.parse(es[r.value.manifest].data) == Some(r.value.mapping)
  {
    var read := InspectMembers(env, es);
    if read.None? { return Err(Rejected); }
    var (members, manifest) := read.value;
    assert es[..|es|] == es;
    if manifest.None? || !Confined(members, members[manifest.value].name) {
      RefusedAtEnd(env, es, members, manifest);
      return Err(Rejected);
    }
    ManifestParses(env, es, manifest.value);
    r := Ok(Inspection(manifest.value, env.parse(es[manifest.value].data).value, members));
  }

  lemma ManifestParses(env: Env, es: seq<Entry>, k: nat)
    requires EntriesOk(env, es) && ManifestAt(env, MembersOf(env, es), k)
    ensures es[k].kind == Regular && env.parse(es[k].data).Some?
  {
    assert EntryOk(env, es[k]);
  }

  // ---------- the archive as a whole ----------

  /** The checks on the stream around the members. */
  predicate StreamOk(env: Env, t: Tarball) {
    && 0 < t.packed <= env.limits.archiveBytes && 0 < t.expanded <= env.limits.expandedBytes && t.terminated
  }

  ghost predicate AcceptsTarball(env: Env, t: Tarball, k: nat) {
    StreamOk(env, t) && Accepts(env, t.entries, k)
  }

  /** The whole inspection: exactly the archives whose stream and members keep the rules. */
  method InspectTarball(env: Env, t: Tarball) returns (r: Result<Inspection, ArchiveError>)
    requires FoldsPaths(env.unicode.fold)
    ensures r.Err? ==> forall k: nat :: !AcceptsTarball(env, t, k)
    ensures r.Ok? ==> AcceptsTarball(env, t, r.value.manifest) && r.value.members == MembersOf(env, t.entries)
    ensures r.Ok? ==> env.parse(t.entries[r.value.manifest].data) == Some(r.value.mapping)
  {
    if t.packed == 0 || t.expanded == 0 { return Err(Rejected); }
    if t.packed > env.limits.archiveBytes || t.expanded > env.limits.expandedBytes { return Err(LimitExceeded); }
    var inspected := Inspect(env, t.entries);
    if inspected.Err? { return inspected; }
    if !t.terminated { return Err(Rejected); }
    r := inspected;
  }
}
