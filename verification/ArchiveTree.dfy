/** What the path check is for: an accepted archive extracts to one tree, in any order, even on a file system that
    ignores case. */
module ArchiveTree {
  import opened Wrappers
  import opened PathCheck

  // ---------- acceptance does not depend on the order ----------

  ghost predicate Pairwise<T(!new)>(related: (T, T) -> bool, ms: seq<T>) {
    forall i, j | 0 <= i < j < |ms| :: related(ms[i], ms[j])
  }

  /** The same without positions: nothing occurs twice, and any two different elements are related. */
  ghost predicate PairwiseBag<T(!new)>(related: (T, T) -> bool, bag: multiset<T>) {
    && (forall a | a in bag :: bag[a] == 1)
    && (forall a, b | a in bag && b in bag && a != b :: related(a, b))
  }

  lemma OccursOnce<T(!new)>(ms: seq<T>, i: nat)
    requires i < |ms| && forall j | 0 <= j < |ms| && j != i :: ms[j] != ms[i]
    ensures multiset(ms)[ms[i]] == 1
  {
    assert ms == ms[..i] + [ms[i]] + ms[i + 1..];
    assert ms[i] !in ms[..i] && ms[i] !in ms[i + 1..];
  }

  lemma OccursTwice<T(!new)>(ms: seq<T>, i: nat, j: nat)
    requires i < j < |ms| && ms[i] == ms[j]
    ensures multiset(ms)[ms[i]] >= 2
  {
    assert ms == ms[..j] + ms[j..];
    assert ms[..j][i] == ms[i] && ms[j..][0] == ms[i];
    assert ms[i] in multiset(ms[..j]) && ms[i] in multiset(ms[j..]);
  }

  lemma BagDecides<T(!new)>(related: (T, T) -> bool, ms: seq<T>)
    requires forall a, b :: related(a, b) ==> related(b, a) && a != b
    ensures Pairwise(related, ms) <==> PairwiseBag(related, multiset(ms))
  {
    if Pairwise(related, ms) {
      forall a | a in multiset(ms)
        ensures multiset(ms)[a] == 1
      {
        var i :| 0 <= i < |ms| && ms[i] == a;
        OccursOnce(ms, i);
      }
      forall a, b | a in multiset(ms) && b in multiset(ms) && a != b
        ensures related(a, b)
      {
        var i :| 0 <= i < |ms| && ms[i] == a;
        var j :| 0 <= j < |ms| && ms[j] == b;
        assert i < j ==> related(ms[i], ms[j]);
      }
    }
    if PairwiseBag(related, multiset(ms)) {
      forall i, j | 0 <= i < j < |ms|
        ensures related(ms[i], ms[j])
      {
        assert ms[i] in multiset(ms) && ms[j] in multiset(ms);
        if ms[i] == ms[j] {
          OccursTwice(ms, i, j);
        }
      }
    }
  }

  /** Reordering an archive does not change whether it is accepted. */
  lemma {:induction false} OrderIsIrrelevant(fold: char -> string, ms: seq<Member>, ns: seq<Member>)
    requires multiset(ms) == multiset(ns)
    ensures AllCompatible(fold, ms) <==> AllCompatible(fold, ns)
  {
    var related := (a, b) => Compatible(fold, a, b);
    BagDecides(related, ms);
    BagDecides(related, ns);
    assert AllCompatible(fold, ms) <==> Pairwise(related, ms);
    assert AllCompatible(fold, ns) <==> Pairwise(related, ns);
  }

  // ---------- extraction ----------

  datatype Node = Node(spelling: seq<string>, directory: bool)

  /** A file system that ignores case: nodes under their folded paths, keeping the spelling they were created with. */
  type Tree = map<seq<string>, Node>

  predicate Blocked(fold: char -> string, t: Tree, m: Member) {
    var f := Folded(fold, m);
    || (exists i :: 1 <= i < |f| && f[..i] in t && !t[f[..i]].directory)
    || (f in t && !(m.isDirectory && t[f].directory))
  }

  /** Create the missing parents of a member, then the member; what exists keeps its spelling. Nothing may be
      overwritten. */
  function Place(fold: char -> string, t: Tree, m: Member): Option<Tree> {
    if Blocked(fold, t, m) then None
    else
      var f := Folded(fold, m);
      var prefixes := set i | 1 <= i <= |f| :: f[..i];
      Some(map p | p in t.Keys + prefixes :: if p in t then t[p] else Node(Parts(m)[..|p|], p != f || m.isDirectory))
  }

  function Extract(fold: char -> string, ms: seq<Member>): Option<Tree> {
    if ms == [] then Some(map[])
    else
      var t := Extract(fold, ms[..|ms| - 1]);
      if t.None? then None else Place(fold, t.value, ms[|ms| - 1])
  }

  /** The place that the first `i` components of a member name. */
  predicate At(fold: char -> string, m: Member, i: nat, p: seq<string>) {
    1 <= i <= |Parts(m)| && Folded(fold, m)[..i] == p
  }

  /** The tree has that place, spelled as the member spells it, and a directory unless it is the regular file itself. */
  predicate Present(fold: char -> string, t: Tree, m: Member, i: nat)
    requires 1 <= i <= |Parts(m)|
  {
    var p := Folded(fold, m)[..i];
    p in t && t[p] == Node(Parts(m)[..i], i < |Parts(m)| || m.isDirectory)
  }

  ghost predicate AllPresent(fold: char -> string, t: Tree, m: Member) {
    forall i | 1 <= i <= |Parts(m)| :: Present(fold, t, m, i)
  }

  /** The tree an archive describes: every member with its parents, and nothing else. */
  ghost predicate Describes(fold: char -> string, ms: seq<Member>, t: Tree) {
    && (forall m | m in ms :: AllPresent(fold, t, m))
    && (forall p | p in t :: exists m, i: nat :: m in ms && At(fold, m, i, p))
  }

  /** What compatibility says about one place that both members name. */
  lemma SharedPlace(fold: char -> string, a: Member, b: Member, i: nat)
    requires Compatible(fold, a, b) && 1 <= i <= |Parts(a)| && i <= |Parts(b)| &&
               Folded(fold, a)[..i] == Folded(fold, b)[..i]
    ensures Parts(a)[..i] == Parts(b)[..i]
    ensures i == |Parts(a)| ==> a.isDirectory && i < |Parts(b)|
    ensures i == |Parts(b)| ==> b.isDirectory && i < |Parts(a)|
  {
    if i == |Parts(a)| {
      assert Folded(fold, a) == Folded(fold, a)[..i];
    }
    if i == |Parts(b)| {
      assert Folded(fold, b) == Folded(fold, b)[..i];
    }
  }

  /** Where the tree already has a node, the new member finds the node it needs. */
  lemma KnownPlace(fold: char -> string, ms: seq<Member>, t: Tree, m: Member, i: nat)
    requires Describes(fold, ms, t) && FitsIn(fold, ms, m) && 1 <= i <= |Parts(m)| && Folded(fold, m)[..i] in t
    ensures Present(fold, t, m, i) && t[Folded(fold, m)[..i]].directory
  {
    var p := Folded(fold, m)[..i];
    var a, j: nat :| a in ms && At(fold, a, j, p);
    assert |Folded(fold, a)[..j]| == j && |p| == i;
    assert Present(fold, t, a, i);
    assert Compatible(fold, a, m);
    SharedPlace(fold, a, m, i);
  }

  lemma NotBlocked(fold: char -> string, ms: seq<Member>, t: Tree, m: Member)
    requires Describes(fold, ms, t) && FitsIn(fold, ms, m)
    ensures !Blocked(fold, t, m)
  {
    var f := Folded(fold, m);
    forall i | 1 <= i <= |f| && f[..i] in t
      ensures t[f[..i]].directory && (i == |f| ==> m.isDirectory)
    {
      KnownPlace(fold, ms, t, m, i);
    }
    assert f[..|f|] == f;
  }

  lemma PlacedNodes(fold: char -> string, t: Tree, m: Member)
    requires Place(fold, t, m).Some?
    ensures var n := Place(fold, t, m).value;
            && (forall p | p in t :: p in n && n[p] == t[p])
            && (forall p | p in n && p !in t :: At(fold, m, |p|, p))
            && (forall i | 1 <= i <= |Parts(m)| :: Folded(fold, m)[..i] in t || Present(fold, n, m, i))
  {
    var f := Folded(fold, m);
    var n := Place(fold, t, m).value;
    forall i | 1 <= i <= |Parts(m)| && f[..i] !in t
      ensures Present(fold, n, m, i)
    {
      assert f[..i] in (set k | 1 <= k <= |f| :: f[..k]);
      assert f[..i] == f <==> i == |f|;
    }
  }

  lemma {:induction false} PlacedDescribes(fold: char -> string, ms: seq<Member>, t: Tree, m: Member)
    requires Describes(fold, ms, t) && FitsIn(fold, ms, m) && Place(fold, t, m).Some?
    ensures Describes(fold, ms + [m], Place(fold, t, m).value)
  {
    PlacedNodes(fold, t, m);
    var n := Place(fold, t, m).value;
    forall i | 1 <= i <= |Parts(m)|
      ensures Present(fold, n, m, i)
    {
      if Folded(fold, m)[..i] in t {
        KnownPlace(fold, ms, t, m, i);
      }
    }
    forall a | a in ms
      ensures AllPresent(fold, n, a)
    {
      StillPresent(fold, t, n, a);
    }
    forall p | p in n
      ensures exists a, i: nat :: a in ms + [m] && At(fold, a, i, p)
    {
      if p in t {
        var a, i: nat :| a in ms && At(fold, a, i, p);
        assert a in ms + [m];
      } else {
        assert At(fold, m, |p|, p) && m in ms + [m];
      }
    }
  }

  lemma StillPresent(fold: char -> string, t: Tree, n: Tree, a: Member)
    requires AllPresent(fold, t, a) && forall p | p in t :: p in n && n[p] == t[p]
    ensures AllPresent(fold, n, a)
  {
    forall i | 1 <= i <= |Parts(a)|
      ensures Present(fold, n, a, i)
    {
      assert Present(fold, t, a, i);
    }
  }

  /** An accepted archive extracts without a conflict, to the tree it describes: no two members share a node, every
      member is found under its own spelling, and no parent is a regular file. */
  lemma {:induction false} AcceptedExtracts(fold: char -> string, ms: seq<Member>)
    requires AllCompatible(fold, ms)
    ensures Extract(fold, ms).Some? && Describes(fold, ms, Extract(fold, ms).value)
  {
    if ms != [] {
      var init, last := ms[..|ms| - 1], ms[|ms| - 1];
      LastFits(fold, ms);
      AcceptedExtracts(fold, init);
      NotBlocked(fold, init, Extract(fold, init).value, last);
      PlacedDescribes(fold, init, Extract(fold, init).value, last);
      assert ms == init + [last];
    }
  }

  lemma LastFits(fold: char -> string, ms: seq<Member>)
    requires AllCompatible(fold, ms) && ms != []
    ensures AllCompatible(fold, ms[..|ms| - 1]) && FitsIn(fold, ms[..|ms| - 1], ms[|ms| - 1])
  {
  }

  lemma DescriptionContained(fold: char -> string, ms: seq<Member>, ns: seq<Member>, t: Tree, u: Tree)
    requires (forall m :: m in ms <==> m in ns) && Describes(fold, ms, t) && Describes(fold, ns, u)
    ensures forall p | p in t :: p in u && t[p] == u[p]
  {
    forall p | p in t
      ensures p in u && t[p] == u[p]
    {
      var m, i: nat :| m in ms && At(fold, m, i, p);
      assert AllPresent(fold, t, m) && AllPresent(fold, u, m);
      assert Present(fold, t, m, i) && Present(fold, u, m, i);
    }
  }

  lemma {:induction false} DescriptionsAgree(fold: char -> string, ms: seq<Member>, ns: seq<Member>, t: Tree, u: Tree)
    requires (forall m :: m in ms <==> m in ns) && Describes(fold, ms, t) && Describes(fold, ns, u)
    ensures t == u
  {
    DescriptionContained(fold, ms, ns, t, u);
    DescriptionContained(fold, ns, ms, u, t);
  }

  /** So the tree is the same in any order. */
  lemma {:induction false} ExtractionIsUnambiguous(fold: char -> string, ms: seq<Member>, ns: seq<Member>)
    requires multiset(ms) == multiset(ns) && AllCompatible(fold, ms)
    ensures Extract(fold, ms).Some? && Extract(fold, ns) == Extract(fold, ms)
  {
    OrderIsIrrelevant(fold, ms, ns);
    AcceptedExtracts(fold, ms);
    AcceptedExtracts(fold, ns);
    SameMembers(ms, ns);
    DescriptionsAgree(fold, ms, ns, Extract(fold, ms).value, Extract(fold, ns).value);
  }

  lemma SameMembers<T(!new)>(ms: seq<T>, ns: seq<T>)
    requires multiset(ms) == multiset(ns)
    ensures forall m :: m in ms <==> m in ns
  {
    forall m
      ensures m in ms <==> m in ns
    {
      assert m in multiset(ms) <==> m in multiset(ns);
    }
  }
}
