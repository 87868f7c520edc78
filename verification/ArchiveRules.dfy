/** What the inspection promises about an accepted archive, and exactly which archives it accepts, said over the
    characters of the names: where each name leads when it is followed from the root, and which names are allowed. */
module ArchiveRules {
  import opened Wrappers
  import opened Paths
  import opened Archive
  import PathCheck

  // ---------- following a path ----------

  /** Where a path leads: below the root, by the names of the directories passed through, or outside it. */
  datatype Place = Outside | Below(path: seq<string>)

  /** One component: nothing and "." stay, ".." goes up, and from the root it leaves. */
  function Follow(at: Place, component: string): Place {
    match at
    case Outside => Outside
    case Below(path) =>
      if component == "" || component == "." then at
      else if component == ".." then if path == [] then Outside else Below(path[..|path| - 1])
      else Below(path + [component])
  }

  /** Follows a path character by character; `piece` is what has been read of the current component. */
  function Walk(at: Place, s: string, piece: string): Place
    decreases |s|
  {
    if s == "" then Follow(at, piece)
    else if s[0] == SLASH then Walk(Follow(at, piece), s[1..], "")
    else Walk(at, s[1..], piece + [s[0]])
  }

  /** Where a name leads; a leading slash leads to the root of the file system. */
  function Resolve(name: string): Place {
    if name != "" && name[0] == SLASH then Outside else Walk(Below([]), name, "")
  }

  /** How far a walk has come at each character: it never leaves and never goes up. */
  lemma {:induction false} WalkDescends(path: seq<string>, s: string, piece: string)
    requires Plain(piece + Split(s)[0]) && forall i | 1 <= i < |Split(s)| :: Plain(Split(s)[i])
    ensures Walk(Below(path), s, piece) == Below(path + [piece + Split(s)[0]] + Split(s)[1..])
    decreases |s|
  {
    if s == "" {
      assert piece + "" == piece;
    } else {
      var rest := Split(s[1..]);
      if s[0] == SLASH {
        assert Split(s)[1..] == rest && piece + "" == piece;
        assert forall i | 0 <= i < |rest| :: rest[i] == Split(s)[i + 1];
        assert "" + rest[0] == rest[0];
        WalkDescends(path + [piece], s[1..], "");
        assert path + [piece] + [rest[0]] + rest[1..] == path + [piece] + rest;
      } else {
        assert piece + [s[0]] + rest[0] == piece + Split(s)[0];
        assert forall i | 1 <= i < |rest| :: rest[i] == Split(s)[i];
        WalkDescends(path, s[1..], piece + [s[0]]);
      }
    }
  }

  /** A component that leads one directory down. */
  predicate Plain(c: string) {
    c != "" && c != "." && c != ".."
  }

  lemma PlainResolves(name: string)
    requires forall i | 0 <= i < |Split(name)| :: Plain(Split(name)[i])
    ensures Resolve(name) == Below(Split(name))
  {
    assert "" + Split(name)[0] == Split(name)[0];
    assert Plain(Split(name)[0]);
    WalkDescends([], name, "");
    assert [] + [Split(name)[0]] + Split(name)[1..] == Split(name);
  }

  lemma {:induction false} WalkEnds(at: Place, s: string, piece: string)
    ensures Walk(at, s + [SLASH], piece) == Walk(at, s, piece)
    decreases |s|
  {
    if s == "" {
      assert (s + [SLASH])[1..] == "";
    } else {
      assert (s + [SLASH])[1..] == s[1..] + [SLASH];
      WalkEnds(if s[0] == SLASH then Follow(at, piece) else at, s[1..], if s[0] == SLASH then "" else piece + [s[0]]);
    }
  }

  /** Final slashes lead nowhere else. */
  lemma {:induction false} FinalSlashesStay(s: string)
    requires StripSlashes(s) != ""
    ensures Resolve(StripSlashes(s)) == Resolve(s)
  {
    if s[|s| - 1] == SLASH {
      FinalSlashesStay(s[..|s| - 1]);
      WalkEnds(Below([]), s[..|s| - 1], "");
      assert s[..|s| - 1] + [SLASH] == s;
    }
  }

  lemma MemberResolves(env: Env, e: Entry)
    requires EntryOk(env, e)
    ensures var n := MemberOf(env, e).name;
            Resolve(n) == Below(Split(n)) && Resolve(e.name) == Below(Split(n)) && Join(Split(n)) == n
  {
    var raw, directory := RawName(e), e.kind == Directory;
    var kept, n := Kept(raw, directory), MemberOf(env, e).name;
    KeptParts(raw, directory);
    NoFinalSlash(env.unicode, kept);
    JoinSplit(n);
    assert forall i | 0 <= i < |kept| :: ComponentOk(env.unicode, kept[i]);
    PlainResolves(n);
    JoinSplit(raw);
    if Split(raw) == kept + [""] {
      JoinAppend(kept, [""]);
      assert raw == n + [SLASH] + "" == n + [SLASH];
      WalkEnds(Below([]), n, "");
    }
    FinalSlashesStay(e.name);
  }

  // ---------- which names are allowed ----------

  /** The characters from `i` to `j` are one component: no slash inside, and a slash or an end on either side. */
  predicate Between(s: string, i: nat, j: nat) {
    && i <= j <= |s| && (i == 0 || s[i - 1] == SLASH) && (j == |s| || s[j] == SLASH)
    && forall k | i <= k < j :: s[k] != SLASH
  }

  predicate StemOf(c: string, stem: string) {
    stem <= c && '.' !in stem && (stem == c || c[|stem|] == '.')
  }

  predicate Device(s: string) {
    || s == "aux" || s == "con" || s == "conin$" || s == "conout$" || s == "nul" || s == "prn"
    || exists d: char | '1' <= d <= '9' :: Numbered(s, d)
  }

  predicate Numbered(s: string, d: char) {
    s == "com" + [d] || s == "lpt" + [d]
  }

  /** A component that any file system takes as it is. */
  ghost predicate PartAllowed(u: Unicode, c: string) {
    && c != "" && c != "." && c != ".." && c[|c| - 1] != ' ' && c[|c| - 1] != '.' && Width(u, c) <= 255
    && forall stem | StemOf(c, stem) :: !Device(Fold(u.fold, stem))
  }

  ghost predicate EveryPartAllowed(u: Unicode, s: string) {
    forall i: nat, j: nat | Between(s, i, j) :: PartAllowed(u, s[i..j])
  }

  /** The name of a member that is kept: a directory's without one final slash. */
  function Unslashed(raw: string, directory: bool): string {
    if directory && raw != "" && raw[|raw| - 1] == SLASH then raw[..|raw| - 1] else raw
  }

  predicate PlainCharacters(u: Unicode, raw: string) {
    forall i | 0 <= i < |raw| :: raw[i] != '\\' && raw[i] != ':' && !u.control(raw[i])
  }

  ghost predicate NameAllowed(env: Env, raw: string, directory: bool) {
    var s := Unslashed(raw, directory);
    && PlainCharacters(env.unicode, raw)
    && EveryPartAllowed(env.unicode, s)
    && env.unicode.nfc(s) && Width(env.unicode, s) <= env.limits.pathBytes
  }

  lemma {:induction false} WidthAppends(u: Unicode, s: string, t: string)
    ensures Width(u, s + t) == Width(u, s) + Width(u, t)
    ensures forall c :: Width(u, [c]) == u.width(c)
  {
    forall c
      ensures Width(u, [c]) == u.width(c)
    {
      assert [c][1..] == "";
    }
    if s == "" {
      assert s + t == t;
    } else {
      assert (s + t)[1..] == s[1..] + t;
      WidthAppends(u, s[1..], t);
    }
  }

  lemma {:induction false} FoldAppends(fold: char -> string, s: string, t: string)
    ensures Fold(fold, s + t) == Fold(fold, s) + Fold(fold, t)
    ensures forall c :: Fold(fold, [c]) == fold(c)
  {
    forall c
      ensures Fold(fold, [c]) == fold(c)
    {
      assert [c][1..] == "";
    }
    if s == "" {
      assert s + t == t;
    } else {
      assert (s + t)[1..] == s[1..] + t;
      FoldAppends(fold, s[1..], t);
    }
  }

  lemma DeviceSpelled(s: string)
    ensures Device(s) <==> DeviceName(s)
  {
    if DeviceName(s) && |s| == 4 {
      assert s == s[..3] + [s[3]];
      assert Numbered(s, s[3]);
    }
  }

  lemma StemOfRest(c: string, stem: string)
    requires c != "" && c[0] != '.'
    ensures StemOf(c, stem) <==> stem != "" && stem[0] == c[0] && StemOf(c[1..], stem[1..])
  {
    if stem != "" && stem[0] == c[0] && stem[1..] <= c[1..] {
      assert stem == [stem[0]] + stem[1..] && c == [c[0]] + c[1..];
      assert |stem| < |c| ==> c[1..][|stem| - 1] == c[|stem|];
    }
  }

  lemma {:induction false} StemIsOnly(c: string)
    ensures forall stem :: StemOf(c, stem) <==> stem == Stem(c)
  {
    if c != "" && c[0] != '.' {
      StemIsOnly(c[1..]);
      forall stem
        ensures StemOf(c, stem) <==> stem == Stem(c)
      {
        StemOfRest(c, stem);
      }
    }
  }

  lemma SlashlessIsPart(c: string)
    requires Slashless(c)
    ensures Split(c) == [c]
  {
    SplitPrepend(c, "");
    assert c + "" == c;
  }

  /** A component of the characters is one of the split. */
  lemma BetweenIsPart(s: string, i: nat, j: nat)
    requires Between(s, i, j)
    ensures s[i..j] in Split(s)
  {
    var x, c, y := s[..i], s[i..j], s[j..];
    SlashlessIsPart(c);
    var tail := Split(c + y);
    if j < |s| {
      assert c + y == c + [SLASH] + y[1..];
      SplitAt(c, y[1..]);
    } else {
      assert c + y == c;
    }
    assert tail[0] == c;
    if i > 0 {
      assert s == x[..i - 1] + [SLASH] + (c + y);
      SplitAt(x[..i - 1], c + y);
      assert Split(s)[|Split(x[..i - 1])|] == c;
    } else {
      assert s == c + y;
    }
  }

  function Led(parts: seq<string>): string {
    if parts == [] then "" else Join(parts) + [SLASH]
  }

  function Trailed(parts: seq<string>): string {
    if parts == [] then "" else [SLASH] + Join(parts)
  }

  lemma JoinAround(before: seq<string>, c: string, after: seq<string>)
    ensures Join(before + [c] + after) == Led(before) + c + Trailed(after)
  {
    var tail := [c] + after;
    assert tail[1..] == after && Join(tail) == c + Trailed(after);
    assert before + [c] + after == before + tail;
    if before == [] {
      assert before + tail == tail;
    } else {
      JoinAppend(before, tail);
    }
  }

  lemma PartIsBetween(s: string, k: nat) returns (i: nat, j: nat)
    requires k < |Split(s)|
    ensures Between(s, i, j) && s[i..j] == Split(s)[k]
  {
    var parts := Split(s);
    SplitSlashless(s);
    JoinSplit(s);
    JoinAround(parts[..k], parts[k], parts[k + 1..]);
    assert parts == parts[..k] + [parts[k]] + parts[k + 1..];
    i := |Led(parts[..k])|;
    j := i + |parts[k]|;
  }

  // ---------- exactly the allowed names ----------

  lemma PartAllowedIff(u: Unicode, c: string)
    ensures ComponentOk(u, c) <==> PartAllowed(u, c) && ':' !in c && '\\' !in c
  {
    StemIsOnly(c);
    assert StemOf(c, Stem(c));
    DeviceSpelled(Fold(u.fold, Stem(c)));
  }

  ghost predicate InSomePart(x: char, parts: seq<string>) {
    exists k :: 0 <= k < |parts| && x in parts[k]
  }

  lemma HeadedContains(c: char, x: char, parts: seq<string>)
    requires parts != [] && x != SLASH
    ensures InSomePart(x, Headed(c, parts)) <==> x == c || InSomePart(x, parts)
  {
    var h := Headed(c, parts);
    if k :| 0 <= k < |parts| && x in parts[k] {
      assert h[if c == SLASH then k + 1 else k] == if c != SLASH && k == 0 then [c] + parts[0] else parts[k];
    }
    if x == c {
      assert x in h[0];
    }
    if k :| 0 <= k < |h| && x in h[k] {
      assert c == SLASH ==> k > 0 && h[k] == parts[k - 1];
      assert c != SLASH && k > 0 ==> h[k] == parts[k];
    }
  }

  lemma {:induction false} CharsAreInParts(s: string, x: char)
    requires x != SLASH
    ensures x in s <==> InSomePart(x, Split(s))
  {
    if s != "" {
      CharsAreInParts(s[1..], x);
      HeadedContains(s[0], x, Split(s[1..]));
      assert s == [s[0]] + s[1..];
    }
  }

  /** No colon and no backslash in any component, and every component allowed. */
  lemma PartsAllowedIff(u: Unicode, s: string)
    ensures ComponentsOk(u, Split(s)) <==> EveryPartAllowed(u, s) && ':' !in s && '\\' !in s
  {
    CharsAreInParts(s, ':');
    CharsAreInParts(s, '\\');
    forall k | 0 <= k < |Split(s)|
      ensures EveryPartAllowed(u, s) ==> PartAllowed(u, Split(s)[k])
      ensures ComponentOk(u, Split(s)[k]) <==>
                PartAllowed(u, Split(s)[k]) && ':' !in Split(s)[k] && '\\' !in Split(s)[k]
    {
      var i, j := PartIsBetween(s, k);
      PartAllowedIff(u, Split(s)[k]);
    }
    forall i: nat, j: nat | Between(s, i, j)
      ensures s[i..j] in Split(s)
    {
      BetweenIsPart(s, i, j);
    }
  }

  lemma LastIsEmptyIff(raw: string)
    requires raw != ""
    ensures Split(raw)[|Split(raw)| - 1] == "" <==> raw[|raw| - 1] == SLASH
  {
    var n := |Split(raw)| - 1;
    JoinSplit(raw);
    if Split(raw)[n] == "" {
      assert Split(raw) == Split(raw)[..n] + [""] + [];
      JoinAround(Split(raw)[..n], "", []);
    }
    if raw[|raw| - 1] == SLASH {
      FinalSlashSplits(raw);
    }
  }

  lemma KeptIsUnslashed(raw: string, directory: bool)
    ensures raw != "" ==> Kept(raw, directory) == Split(Unslashed(raw, directory))
    ensures raw == "" ==> Kept(raw, directory) == if directory then [] else [""]
  {
    if raw != "" {
      LastIsEmptyIff(raw);
      if raw[|raw| - 1] == SLASH {
        SplitAt(raw[..|raw| - 1], "");
        assert raw[..|raw| - 1] + [SLASH] + "" == raw;
      }
    }
  }

  lemma PlainCharactersIff(u: Unicode, raw: string, directory: bool)
    ensures PlainCharacters(u, raw) <==>
              Printable(u, raw) && ':' !in Unslashed(raw, directory) && '\\' !in Unslashed(raw, directory)
  {
    var s := Unslashed(raw, directory);
    assert raw == s || raw == s + [SLASH];
  }

  lemma EmptyIsRefused(env: Env, directory: bool)
    ensures CanonicalName(env, "", directory) == None && !NameAllowed(env, "", directory)
  {
    assert Between("", 0, 0);
    KeptIsUnslashed("", directory);
  }

  /** A member's name is taken exactly when it is allowed, as it stands but for a directory's final slash. In particular
      no name with a leading slash, an empty component, "." or ".." is. */
  lemma {:induction false} NamesAllowedIff(env: Env, raw: string, directory: bool)
    ensures CanonicalName(env, raw, directory) ==
              if NameAllowed(env, raw, directory) then Some(Unslashed(raw, directory)) else None
  {
    var s := Unslashed(raw, directory);
    if raw == "" {
      EmptyIsRefused(env, directory);
    } else {
      KeptIsUnslashed(raw, directory);
      PartsAllowedIff(env.unicode, s);
      PlainCharactersIff(env.unicode, raw, directory);
      JoinSplit(s);
      CanonicalUnfolds(env, raw, directory);
    }
  }

  lemma CanonicalUnfolds(env: Env, raw: string, directory: bool)
    requires Kept(raw, directory) != []
    ensures var kept := Kept(raw, directory);
            CanonicalName(env, raw, directory) ==
              if Printable(env.unicode, raw) && ComponentsOk(env.unicode, kept) && env.unicode.nfc(Join(kept)) &&
                  Width(env.unicode, Join(kept)) <= env.limits.pathBytes
              then Some(Join(kept)) else None
  {
  }

  // ---------- which archives are accepted ----------

  /** The name without final slashes. */
  predicate Trimmed(s: string, n: string) {
    n <= s && (n == "" || n[|n| - 1] != SLASH) && forall i | |n| <= i < |s| :: s[i] == SLASH
  }

  lemma {:induction false} StripTrims(s: string)
    ensures Trimmed(s, StripSlashes(s))
  {
    if s != "" && s[|s| - 1] == SLASH {
      StripTrims(s[..|s| - 1]);
    }
  }

  /** A directory's name without final slashes, and any other member's as it is. */
  ghost predicate Called(e: Entry, n: string) {
    if e.kind == Directory then Trimmed(e.name, n) else n == e.name
  }

  predicate KindAllowed(env: Env, e: Entry) {
    || (e.kind == Regular && |e.data| <= env.limits.fileBytes)
    || (e.kind == Directory && e.data == [])
  }

  const MANIFEST: string := "skill.yaml"

  /** The last component of a path. */
  predicate EndsIn(n: string, base: string) {
    Slashless(base) && (n == base || (|n| > |base| && n[|n| - |base| - 1..] == [SLASH] + base))
  }

  /** Up to case, the name of a manifest. */
  ghost predicate LikeManifest(env: Env, n: string) {
    exists base :: EndsIn(n, base) && Fold(env.unicode.fold, base) == MANIFEST
  }

  predicate InDirectory(n: string, d: string, base: string) {
    Slashless(d) && n == d + [SLASH] + base
  }

  /** At the root, or in one directory. */
  ghost predicate InPlace(n: string, base: string) {
    n == base || exists d :: InDirectory(n, d, base)
  }

  ghost predicate ManifestAllowed(env: Env, n: string, e: Entry) {
    e.kind == Regular && InPlace(n, MANIFEST) && |e.data| <= env.limits.yamlBytes && env.parse(e.data).Some?
  }

  lemma EndsInBasename(n: string)
    ensures forall base :: EndsIn(n, base) <==> base == Basename(n)
  {
    var parts := Split(n);
    var k := |parts| - 1;
    SplitSlashless(n);
    JoinSplit(n);
    assert parts == parts[..k] + [parts[k]] + [];
    JoinAround(parts[..k], parts[k], []);
    assert EndsIn(n, Basename(n)) by {
      if k > 0 {
        assert n == Join(parts[..k]) + [SLASH] + parts[k];
        assert n[|n| - |parts[k]| - 1..] == [SLASH] + parts[k];
      }
    }
    forall base | EndsIn(n, base)
      ensures base == Basename(n)
    {
      SlashlessIsPart(base);
      if n != base {
        var x := n[..|n| - |base| - 1];
        assert n == x + n[|n| - |base| - 1..] == x + [SLASH] + base;
        SplitAt(x, base);
      }
    }
  }

  lemma LikeManifestIff(env: Env, n: string)
    ensures LikeManifest(env, n) <==> NamedLikeManifest(env, n)
  {
    EndsInBasename(n);
  }

  lemma InDirectorySplits(n: string, d: string, base: string)
    requires InDirectory(n, d, base) && Slashless(base)
    ensures Split(n) == [d, base]
  {
    SlashlessIsPart(d);
    SlashlessIsPart(base);
    SplitAt(d, base);
  }

  lemma InPlaceIff(n: string, base: string)
    requires Slashless(base)
    ensures InPlace(n, base) <==> Basename(n) == base && |Split(n)| <= 2
  {
    SlashlessIsPart(base);
    if d :| InDirectory(n, d, base) {
      InDirectorySplits(n, d, base);
    }
    if Basename(n) == base && |Split(n)| <= 2 {
      JoinSplit(n);
      SplitSlashless(n);
      if |Split(n)| == 2 {
        assert Join(Split(n)) == Split(n)[0] + [SLASH] + base;
        assert InDirectory(n, Split(n)[0], base);
      }
    }
  }

  /** A member is taken exactly when its kind, its name and, if it could be the manifest, its place and content are. */
  ghost predicate EntryAllowed(env: Env, e: Entry, n: string) {
    Called(e, n) && KindAllowed(env, e) && NameAllowed(env, n, e.kind == Directory) &&
        (LikeManifest(env, n) ==> ManifestAllowed(env, n, e))
  }

  lemma CalledIff(e: Entry)
    ensures forall n :: Called(e, n) <==> n == RawName(e)
    ensures Unslashed(RawName(e), e.kind == Directory) == RawName(e)
  {
    StripTrims(e.name);
    forall n | Trimmed(e.name, n)
      ensures n == StripSlashes(e.name)
    {
      if |n| < |StripSlashes(e.name)| {
        TrimmedOnce(e.name, n, StripSlashes(e.name));
      } else if |n| > |StripSlashes(e.name)| {
        TrimmedOnce(e.name, StripSlashes(e.name), n);
      }
    }
  }

  lemma ManifestAllowedIff(env: Env, n: string, e: Entry)
    ensures YamlOk(env, n, e) <==> ManifestAllowed(env, n, e)
  {
    InPlaceIff(n, YAML_NAME);
  }

  lemma EntryAllowedIff(env: Env, e: Entry)
    ensures EntryOk(env, e) <==> EntryAllowed(env, e, RawName(e))
    ensures EntryOk(env, e) ==> MemberOf(env, e).name == RawName(e)
  {
    CalledIff(e);
    NamesAllowedIff(env, RawName(e), e.kind == Directory);
    LikeManifestIff(env, RawName(e));
    ManifestAllowedIff(env, RawName(e), e);
  }

  lemma TrimmedOnce(s: string, n: string, m: string)
    requires Trimmed(s, n) && |n| < |m| && m <= s
    ensures !Trimmed(s, m)
  {
    assert m[|m| - 1] == s[|m| - 1];
  }

  lemma {:induction false} TotalAppends(a: seq<Entry>, b: seq<Entry>)
    ensures TotalSize(a + b) == TotalSize(a) + TotalSize(b)
  {
    if b == [] {
      assert a + b == a;
    } else {
      assert (a + b)[..|a + b| - 1] == a + b[..|b| - 1];
      TotalAppends(a, b[..|b| - 1]);
    }
  }

  function Names(es: seq<Entry>): (r: seq<string>)
    ensures |r| == |es|
  {
    seq(|es|, i requires 0 <= i < |es| => RawName(es[i]))
  }

  function NamedPaths(es: seq<Entry>): (r: seq<PathCheck.Member>)
    ensures |r| == |es|
  {
    seq(|es|, i requires 0 <= i < |es| => PathCheck.Member(RawName(es[i]), es[i].kind == Directory))
  }

  /** If the manifest lies in a directory, so does everything else, or is it. */
  ghost predicate Enclosed(names: seq<string>, manifest: string) {
    forall d | InDirectory(manifest, d, MANIFEST) ::
      forall i | 0 <= i < |names| :: names[i] == d || d + [SLASH] <= names[i]
  }

  /** The rules for a whole archive whose manifest is member `k`. */
  ghost predicate Admissible(env: Env, t: Tarball, k: nat) {
    && 0 < t.packed <= env.limits.archiveBytes && 0 < t.expanded <= env.limits.expandedBytes && t.terminated
    && k < |t.entries| <= env.limits.members && TotalSize(t.entries) <= env.limits.totalBytes
    && (forall i | 0 <= i < |t.entries| :: EntryAllowed(env, t.entries[i], Names(t.entries)[i]))
    && Together(env, t.entries, k)
  }

  ghost predicate OnlyManifest(env: Env, names: seq<string>, k: nat) {
    forall i | 0 <= i < |names| :: LikeManifest(env, names[i]) <==> i == k
  }

  /** One manifest, which encloses the other members, and paths that can stand side by side. */
  ghost predicate Together(env: Env, es: seq<Entry>, k: nat)
    requires k < |es|
  {
    && OnlyManifest(env, Names(es), k)
    && Enclosed(Names(es), Names(es)[k]) && PathCheck.AllCompatible(env.unicode.fold, NamedPaths(es))
  }

  lemma EntriesAllowedIff(env: Env, es: seq<Entry>)
    ensures EntriesOk(env, es) <==> forall i | 0 <= i < |es| :: EntryAllowed(env, es[i], Names(es)[i])
    ensures EntriesOk(env, es) ==> PathsOf(MembersOf(env, es)) == NamedPaths(es)
    ensures EntriesOk(env, es) ==> SameNames(MembersOf(env, es), Names(es))
  {
    forall i | 0 <= i < |es|
      ensures EntryOk(env, es[i]) <==> EntryAllowed(env, es[i], Names(es)[i])
      ensures EntryOk(env, es[i]) ==> MemberOf(env, es[i]).name == Names(es)[i]
    {
      EntryAllowedIff(env, es[i]);
    }
  }

  ghost predicate SameNames(ms: seq<Member>, names: seq<string>) {
    |ms| == |names| && forall i | 0 <= i < |ms| :: ms[i].name == names[i]
  }

  lemma OnlyManifestIff(env: Env, ms: seq<Member>, names: seq<string>, k: nat)
    requires SameNames(ms, names) && k < |ms|
    ensures ManifestAt(env, ms, k) <==> OnlyManifest(env, names, k)
  {
    forall i | 0 <= i < |ms|
      ensures LikeManifest(env, names[i]) <==> NamedLikeManifest(env, ms[i].name)
    {
      LikeManifestIff(env, names[i]);
    }
  }

  lemma EnclosedIff(ms: seq<Member>, names: seq<string>, manifest: string)
    requires SameNames(ms, names) && InPlace(manifest, MANIFEST)
    ensures Confined(ms, manifest) <==> Enclosed(names, manifest)
  {
    if d :| InDirectory(manifest, d, MANIFEST) {
      InDirectorySplits(manifest, d, MANIFEST);
      assert forall c | InDirectory(manifest, c, MANIFEST) :: c == d by {
        forall c | InDirectory(manifest, c, MANIFEST)
          ensures c == d
        {
          InDirectorySplits(manifest, c, MANIFEST);
        }
      }
    }
  }

  lemma TogetherIff(env: Env, ms: seq<Member>, es: seq<Entry>, k: nat)
    requires SameNames(ms, Names(es)) && PathsOf(ms) == NamedPaths(es) && k < |es|
    requires LikeManifest(env, Names(es)[k]) ==> InPlace(Names(es)[k], MANIFEST)
    ensures MembersAccepted(env, ms, k) <==> Together(env, es, k)
  {
    OnlyManifestIff(env, ms, Names(es), k);
    if LikeManifest(env, Names(es)[k]) {
      EnclosedIff(ms, Names(es), Names(es)[k]);
    }
  }

  /** The inspection accepts exactly the archives that keep the rules. */
  lemma {:induction false} ArchivesAcceptedIff(env: Env, t: Tarball, k: nat)
    ensures AcceptsTarball(env, t, k) <==> Admissible(env, t, k)
  {
    EntriesAllowedIff(env, t.entries);
    if k < |t.entries| && EntriesOk(env, t.entries) {
      assert EntryAllowed(env, t.entries[k], Names(t.entries)[k]);
      TogetherIff(env, MembersOf(env, t.entries), t.entries, k);
    }
  }

  /** What is read of an accepted archive: its members in order, each with its name, kind, mode and content. */
  lemma {:induction false} MembersAreAsWritten(env: Env, t: Tarball, k: nat)
    requires AcceptsTarball(env, t, k)
    ensures |MembersOf(env, t.entries)| == |t.entries| && t.entries[k].kind == Regular
    ensures forall i | 0 <= i < |t.entries| ::
              var m, e := MembersOf(env, t.entries)[i], t.entries[i];
              && Called(e, m.name) && (m.isDirectory <==> e.kind == Directory) && m.mode == e.mode
              && m.data == (if e.kind == Regular then Some(e.data) else None)
  {
    ArchivesAcceptedIff(env, t, k);
    EntriesAllowedIff(env, t.entries);
    assert EntryAllowed(env, t.entries[k], Names(t.entries)[k]);
    forall i | 0 <= i < |t.entries|
      ensures Called(t.entries[i], MembersOf(env, t.entries)[i].name)
    {
      EntryAllowedIff(env, t.entries[i]);
      CalledIff(t.entries[i]);
    }
  }

  // ---------- where an accepted archive extracts to ----------

  /** Following any member's name from the root never leaves it, and ends at exactly the name's components; and
      below the manifest's own directory, if it has one. */
  lemma {:induction false} MembersStayInside(env: Env, t: Tarball, k: nat, i: nat)
    requires AcceptsTarball(env, t, k) && i < |t.entries|
    ensures var n := MembersOf(env, t.entries)[i].name;
            Resolve(n) == Below(Split(n)) == Resolve(t.entries[i].name) && Join(Split(n)) == n
    ensures forall d | InDirectory(MembersOf(env, t.entries)[k].name, d, MANIFEST) ::
              Resolve(MembersOf(env, t.entries)[i].name).path[0] == d
  {
    MemberResolves(env, t.entries[i]);
    ConfinedBelow(MembersOf(env, t.entries), MembersOf(env, t.entries)[k].name, i);
  }

  lemma ConfinedBelow(ms: seq<Member>, manifest: string, i: nat)
    requires Confined(ms, manifest) && i < |ms|
    ensures forall d | InDirectory(manifest, d, MANIFEST) :: Split(ms[i].name)[0] == d
  {
    forall d | InDirectory(manifest, d, MANIFEST)
      ensures Split(ms[i].name)[0] == d
    {
      InDirectorySplits(manifest, d, MANIFEST);
      assert manifest[|d|] == SLASH;
      BelowDirectory(d, ms[i].name);
    }
  }

  lemma BelowDirectory(d: string, n: string)
    requires Slashless(d) && (n == d || d + [SLASH] <= n)
    ensures Split(n)[0] == d
  {
    SlashlessIsPart(d);
    if n != d {
      assert n == d + [SLASH] + n[|d| + 1..];
      SplitAt(d, n[|d| + 1..]);
    }
  }
}
