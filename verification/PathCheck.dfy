/** The incremental check of archive paths: two dictionaries of what has been seen decide, member by member, what a
    pairwise comparison of all members would. */
module PathCheck {
  import opened Paths

  datatype Member = Member(name: string, isDirectory: bool)

  function Parts(m: Member): (r: seq<string>)
    ensures r != []
  {
    Split(m.name)
  }

  /** The member's path as a case-insensitive file system sees it. */
  function Folded(fold: char -> string, m: Member): (r: seq<string>)
    ensures |r| == |Parts(m)|
  {
    FoldParts(fold, Parts(m))
  }

  // ---------- when two members can be in one archive ----------

  predicate SamePath(fold: char -> string, a: Member, b: Member) {
    Folded(fold, a) == Folded(fold, b)
  }

  predicate SpellingAgreesTo(fold: char -> string, a: Member, b: Member, n: nat) {
    forall i | 1 <= i < n && i <= |Parts(a)| && i <= |Parts(b)| && Folded(fold, a)[..i] == Folded(fold, b)[..i] ::
        Parts(a)[..i] == Parts(b)[..i]
  }

  /** Wherever both paths pass through the same place, they spell it alike. */
  predicate SpellingAgrees(fold: char -> string, a: Member, b: Member) {
    SpellingAgreesTo(fold, a, b, |Parts(b)| + 1)
  }

  /** `a` is a regular file where `b` needs a directory. */
  predicate FileAbove(fold: char -> string, a: Member, b: Member) {
    !a.isDirectory && Folded(fold, a) < Folded(fold, b)
  }

  predicate Compatible(fold: char -> string, a: Member, b: Member) {
    !SamePath(fold, a, b) && SpellingAgrees(fold, a, b) && !FileAbove(fold, a, b) && !FileAbove(fold, b, a)
  }

  predicate AllCompatible(fold: char -> string, ms: seq<Member>) {
    forall i, j | 0 <= i < j < |ms| :: Compatible(fold, ms[i], ms[j])
  }

  // ---------- dictionary keys ----------

  function Key(fold: char -> string, m: Member, i: nat): string
    requires 1 <= i <= |Parts(m)|
  {
    Join(Folded(fold, m)[..i])
  }

  function Spelling(m: Member, i: nat): string
    requires 1 <= i <= |Parts(m)|
  {
    Join(Parts(m)[..i])
  }

  lemma PartsSlashless(fold: char -> string, m: Member)
    requires FoldsPaths(fold)
    ensures AllSlashless(Parts(m)) && AllSlashless(Folded(fold, m))
    ensures Fold(fold, m.name) == Join(Folded(fold, m)) && Split(Fold(fold, m.name)) == Folded(fold, m)
    ensures Join(Parts(m)) == m.name
  {
    SplitSlashless(m.name);
    SplitFolded(fold, m.name);
    SplitSlashless(Fold(fold, m.name));
    JoinSplit(Fold(fold, m.name));
    JoinSplit(m.name);
  }

  /** Keys and spellings stand for component prefixes. */
  lemma KeyMeaning(fold: char -> string, a: Member, b: Member, i: nat, j: nat)
    requires FoldsPaths(fold) && 1 <= i <= |Parts(a)| && 1 <= j <= |Parts(b)|
    ensures Key(fold, a, i) == Key(fold, b, j) <==> i == j && Folded(fold, a)[..i] == Folded(fold, b)[..j]
    ensures Spelling(a, i) == Spelling(b, j) <==> Parts(a)[..i] == Parts(b)[..j]
  {
    PartsSlashless(fold, a);
    PartsSlashless(fold, b);
    if Key(fold, a, i) == Key(fold, b, j) {
      JoinInjective(Folded(fold, a)[..i], Folded(fold, b)[..j]);
      assert |Folded(fold, a)[..i]| == |Folded(fold, b)[..j]|;
    }
    if Spelling(a, i) == Spelling(b, j) {
      JoinInjective(Parts(a)[..i], Parts(b)[..j]);
    }
  }

  /** The key of a whole path. */
  lemma WholeKey(fold: char -> string, m: Member)
    requires FoldsPaths(fold)
    ensures Key(fold, m, |Parts(m)|) == Fold(fold, m.name)
  {
    PartsSlashless(fold, m);
    assert Folded(fold, m)[..|Parts(m)|] == Folded(fold, m);
  }

  // ---------- what the two dictionaries hold ----------

  ghost predicate PathsHold(fold: char -> string, ms: seq<Member>, paths: map<string, bool>) {
    && (forall m | m in ms :: Fold(fold, m.name) in paths && paths[Fold(fold, m.name)] == m.isDirectory)
    && (forall k | k in paths :: exists m :: m in ms && Fold(fold, m.name) == k)
  }

  ghost predicate SpellingsHold(fold: char -> string, ms: seq<Member>, spellings: map<string, string>) {
    && (forall m, i | m in ms && 1 <= i <= |Parts(m)| ::
          Key(fold, m, i) in spellings && spellings[Key(fold, m, i)] == Spelling(m, i))
    && (forall k | k in spellings :: exists m, i :: m in ms && 1 <= i <= |Parts(m)| && Key(fold, m, i) == k)
  }

  /** The spellings with the first `n` - 1 prefixes of `m` added. */
  ghost predicate Extended(fold: char -> string, m: Member, n: nat, before: map<string, string>,
      after: map<string, string>)
    requires 1 <= n <= |Parts(m)| + 1
  {
    && (forall k | k in before :: k in after && after[k] == before[k])
    && (forall i | 1 <= i < n :: Key(fold, m, i) in after && after[Key(fold, m, i)] == Spelling(m, i))
    && (forall k | k in after && k !in before :: exists i :: 1 <= i < n && Key(fold, m, i) == k)
  }

  ghost predicate NoPathAmong(fold: char -> string, ms: seq<Member>, m: Member) {
    forall a | a in ms :: !SamePath(fold, a, m)
  }

  lemma PathSeen(fold: char -> string, ms: seq<Member>, paths: map<string, bool>, m: Member)
    requires FoldsPaths(fold) && PathsHold(fold, ms, paths)
    ensures Fold(fold, m.name) !in paths <==> NoPathAmong(fold, ms, m)
  {
    PartsSlashless(fold, m);
    forall a | a in ms
      ensures SamePath(fold, a, m) <==> Fold(fold, a.name) == Fold(fold, m.name)
    {
      PartsSlashless(fold, a);
    }
  }

  /** The dictionary knows the `i`-th prefix under another spelling exactly when some member spells it so. */
  lemma SpellingSeen(fold: char -> string, ms: seq<Member>, spellings: map<string, string>, m: Member, i: nat)
    requires FoldsPaths(fold) && SpellingsHold(fold, ms, spellings) && 1 <= i <= |Parts(m)|
    ensures Key(fold, m, i) in spellings && spellings[Key(fold, m, i)] != Spelling(m, i) <==>
            exists a :: a in ms && i <= |Parts(a)| && Folded(fold, a)[..i] == Folded(fold, m)[..i] &&
                Parts(a)[..i] != Parts(m)[..i]
  {
    forall a, j | a in ms && 1 <= j <= |Parts(a)|
      ensures Key(fold, a, j) == Key(fold, m, i) <==> i == j && Folded(fold, a)[..j] == Folded(fold, m)[..i]
      ensures Spelling(a, j) == Spelling(m, i) <==> Parts(a)[..j] == Parts(m)[..i]
    {
      KeyMeaning(fold, a, m, j, i);
    }
  }

  /** Adding all prefixes keeps the dictionary exact. */
  lemma SpellingsExtended(fold: char -> string, ms: seq<Member>, m: Member, before: map<string, string>,
      after: map<string, string>)
    requires SpellingsHold(fold, ms, before) && Extended(fold, m, |Parts(m)| + 1, before, after)
    ensures SpellingsHold(fold, ms + [m], after)
  {
    forall k | k in after
      ensures exists a, i :: a in ms + [m] && 1 <= i <= |Parts(a)| && Key(fold, a, i) == k
    {
      if k in before {
        var a, i :| a in ms && 1 <= i <= |Parts(a)| && Key(fold, a, i) == k;
        assert a in ms + [m];
      } else {
        assert m in ms + [m];
      }
    }
  }

  ghost predicate AllAgreeTo(fold: char -> string, ms: seq<Member>, m: Member, n: nat) {
    forall a | a in ms :: SpellingAgreesTo(fold, a, m, n)
  }

  /** The prefixes of one member have different keys. */
  lemma OwnKeys(fold: char -> string, m: Member, n: nat)
    requires FoldsPaths(fold) && 1 <= n <= |Parts(m)|
    ensures forall i | 1 <= i < n :: Key(fold, m, i) != Key(fold, m, n)
  {
    forall i | 1 <= i < n
      ensures Key(fold, m, i) != Key(fold, m, n)
    {
      KeyMeaning(fold, m, m, i, n);
    }
  }

  lemma ExtendedOnce(
      fold: char -> string, m: Member, n: nat, before: map<string, string>, after: map<string, string>)
    requires 1 <= n <= |Parts(m)| && Extended(fold, m, n, before, after)
    requires forall i | 1 <= i < n :: Key(fold, m, i) != Key(fold, m, n)
    requires Key(fold, m, n) in after ==> after[Key(fold, m, n)] == Spelling(m, n)
    ensures Extended(fold, m, n + 1, before, after[Key(fold, m, n) := Spelling(m, n)])
  {
  }

  /** One look-up decides whether every earlier member spells the `n`-th prefix alike. */
  lemma PrefixDecides(fold: char -> string, ms: seq<Member>, before: map<string, string>, now: map<string, string>,
      m: Member, n: nat)
    requires FoldsPaths(fold) && SpellingsHold(fold, ms, before) && 1 <= n <= |Parts(m)|
    requires Extended(fold, m, n, before, now) && AllAgreeTo(fold, ms, m, n)
    ensures !(Key(fold, m, n) in now && now[Key(fold, m, n)] != Spelling(m, n)) <==> AllAgreeTo(fold, ms, m, n + 1)
    ensures AllAgreeTo(fold, ms, m, |Parts(m)| + 1) ==> AllAgreeTo(fold, ms, m, n + 1)
  {
    OwnKeys(fold, m, n);
    SpellingSeen(fold, ms, before, m, n);
  }

  lemma ParentSeen(fold: char -> string, ms: seq<Member>, paths: map<string, bool>, m: Member, i: nat)
    requires FoldsPaths(fold) && PathsHold(fold, ms, paths) && 1 <= i < |Parts(m)|
    ensures Key(fold, m, i) in paths && !paths[Key(fold, m, i)] <==>
            exists a :: a in ms && !a.isDirectory && Folded(fold, a) == Folded(fold, m)[..i]
  {
    forall a | a in ms
      ensures Fold(fold, a.name) == Key(fold, m, i) <==> Folded(fold, a) == Folded(fold, m)[..i]
    {
      WholeKey(fold, a);
      KeyMeaning(fold, a, m, |Parts(a)|, i);
      assert Folded(fold, a)[..|Parts(a)|] == Folded(fold, a);
    }
  }

  lemma FileAboveIffPrefix(fold: char -> string, a: Member, m: Member)
    ensures FileAbove(fold, a, m) <==>
              !a.isDirectory && exists i :: 1 <= i < |Parts(m)| && Folded(fold, a) == Folded(fold, m)[..i]
  {
    if FileAbove(fold, a, m) {
      assert Folded(fold, a) == Folded(fold, m)[..|Parts(a)|];
    }
  }

  lemma ChildSeen(fold: char -> string, ms: seq<Member>, paths: map<string, bool>, m: Member)
    requires FoldsPaths(fold) && PathsHold(fold, ms, paths)
    ensures (exists k :: k in paths && Fold(fold, m.name) + [SLASH] <= k) <==>
              exists a :: a in ms && Folded(fold, m) < Folded(fold, a)
  {
    PartsSlashless(fold, m);
    forall a | a in ms
      ensures Fold(fold, m.name) + [SLASH] <= Fold(fold, a.name) <==> Folded(fold, m) < Folded(fold, a)
    {
      PartsSlashless(fold, a);
      StartsWithIffBelow(Folded(fold, m), Folded(fold, a));
    }
  }

  // ---------- the check ----------

  ghost predicate FitsIn(fold: char -> string, ms: seq<Member>, m: Member) {
    forall a | a in ms :: Compatible(fold, a, m)
  }

  /** The four questions that decide whether a member fits. */
  lemma FitsInMeans(fold: char -> string, ms: seq<Member>, m: Member)
    ensures FitsIn(fold, ms, m) <==>
              && NoPathAmong(fold, ms, m) && AllAgreeTo(fold, ms, m, |Parts(m)| + 1)
              && (forall a | a in ms :: !FileAbove(fold, a, m)) && (forall a | a in ms :: !FileAbove(fold, m, a))
  {
  }

  lemma AdmittedPaths(fold: char -> string, ms: seq<Member>, paths: map<string, bool>, m: Member)
    requires PathsHold(fold, ms, paths) && Fold(fold, m.name) !in paths
    ensures PathsHold(fold, ms + [m], paths[Fold(fold, m.name) := m.isDirectory])
  {
    var after := paths[Fold(fold, m.name) := m.isDirectory];
    forall k | k in after
      ensures exists a :: a in ms + [m] && Fold(fold, a.name) == k
    {
      if k in paths {
        var a :| a in ms && Fold(fold, a.name) == k;
        assert a in ms + [m];
      } else {
        assert m in ms + [m];
      }
    }
  }

  lemma AdmittedCompatible(fold: char -> string, ms: seq<Member>, m: Member)
    requires AllCompatible(fold, ms) && FitsIn(fold, ms, m)
    ensures AllCompatible(fold, ms + [m])
  {
  }

  class SeenPaths {
    const fold: char -> string
    var paths: map<string, bool>
    var spellings: map<string, string>
    ghost var members: seq<Member>

    ghost predicate Valid()
      reads this
    {
      FoldsPaths(fold) && PathsHold(fold, members, paths) && SpellingsHold(fold, members, spellings) &&
          AllCompatible(fold, members)
    }

    constructor (fold: char -> string)
      requires FoldsPaths(fold)
      ensures Valid() && members == [] && this.fold == fold
    {
      this.fold, paths, spellings, members := fold, map[], map[], [];
    }

    /** Record the spelling of every prefix, unless one was seen spelled otherwise. */
    method RecordSpellings(m: Member) returns (ok: bool)
      requires FoldsPaths(fold) && SpellingsHold(fold, members, spellings)
      modifies this`spellings
      ensures ok <==> AllAgreeTo(fold, members, m, |Parts(m)| + 1)
      ensures ok ==> SpellingsHold(fold, members + [m], spellings)
    {
      PartsSlashless(fold, m);
      var original, folded := Split(m.name), Split(Fold(fold, m.name));
      ghost var before := spellings;
      var index := 1;
      while index < |folded| + 1
        invariant 1 <= index <= |folded| + 1
        invariant Extended(fold, m, index, before, spellings)
        invariant AllAgreeTo(fold, members, m, index)
      {
        var key, spelling := Join(folded[..index]), Join(original[..index]);
        PrefixDecides(fold, members, before, spellings, m, index);
        if key in spellings && spellings[key] != spelling {
          return false;
        }
        OwnKeys(fold, m, index);
        ExtendedOnce(fold, m, index, before, spellings);
        spellings := spellings[key := spelling];
        index := index + 1;
      }
      SpellingsExtended(fold, members, m, before, spellings);
      ok := true;
    }

    method HasFileParent(m: Member) returns (found: bool)
      requires FoldsPaths(fold) && PathsHold(fold, members, paths)
      ensures found <==> exists a :: a in members && FileAbove(fold, a, m)
    {
      PartsSlashless(fold, m);
      forall a | a in members {
        FileAboveIffPrefix(fold, a, m);
      }
      var folded := Split(Fold(fold, m.name));
      var index := 1;
      while index < |folded|
        invariant 1 <= index <= |folded|
        invariant forall a, i | a in members && !a.isDirectory && 1 <= i < index ::
                    Folded(fold, a) != Folded(fold, m)[..i]
      {
        var parent := Join(folded[..index]);
        ParentSeen(fold, members, paths, m, index);
        if parent in paths && !paths[parent] {
          return true;
        }
        index := index + 1;
      }
      found := false;
    }

    /** Admit one more member, or refuse the archive. */
    method Admit(m: Member) returns (ok: bool)
      requires Valid()
      modifies this
      ensures ok <==> FitsIn(fold, old(members), m)
      ensures ok ==> Valid() && members == old(members) + [m]
    {
      var folded := Fold(fold, m.name);
      FitsInMeans(fold, members, m);
      PathSeen(fold, members, paths, m);
      if folded in paths {
        return false;
      }
      var agreed := RecordSpellings(m);
      if !agreed {
        return false;
      }
      var blocked := HasFileParent(m);
      if blocked {
        return false;
      }
      ChildSeen(fold, members, paths, m);
      if !m.isDirectory && exists k :: k in paths && folded + [SLASH] <= k {
        return false;
      }
      AdmittedPaths(fold, members, paths, m);
      AdmittedCompatible(fold, members, m);
      paths := paths[folded := m.isDirectory];
      members := members + [m];
      ok := true;
    }
  }

  lemma EarlierFit(fold: char -> string, ms: seq<Member>, n: nat)
    requires n < |ms|
    ensures AllCompatible(fold, ms) ==> FitsIn(fold, ms[..n], ms[n])
  {
    forall a | AllCompatible(fold, ms) && a in ms[..n]
      ensures Compatible(fold, a, ms[n])
    {
      var i :| 0 <= i < n && ms[i] == a;
    }
  }

  /** The whole archive: accepted exactly when its members are pairwise compatible. */
  method CheckAll(fold: char -> string, ms: seq<Member>) returns (ok: bool)
    requires FoldsPaths(fold)
    ensures ok <==> AllCompatible(fold, ms)
  {
    var seen := new SeenPaths(fold);
    var n := 0;
    while n < |ms|
      invariant 0 <= n <= |ms|
      invariant seen.Valid() && seen.fold == fold && seen.members == ms[..n]
    {
      EarlierFit(fold, ms, n);
      assert ms[..n + 1] == ms[..n] + [ms[n]];
      var fits := seen.Admit(ms[n]);
      if !fits {
        return false;
      }
      n := n + 1;
    }
    assert ms[..n] == ms;
    ok := true;
  }
}
