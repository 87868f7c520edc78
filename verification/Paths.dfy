/** Slash-separated names: splitting, joining and folding case, character by character. */
module Paths {
  const SLASH: char := '/'

  predicate Slashless(s: string) {
    SLASH !in s
  }

  predicate AllSlashless(parts: seq<string>) {
    forall i | 0 <= i < |parts| :: Slashless(parts[i])
  }

  function Split(s: string): (parts: seq<string>)
    ensures parts != []
  {
    if s == "" then [""]
    else if s[0] == SLASH then [""] + Split(s[1..])
    else var rest := Split(s[1..]); [[s[0]] + rest[0]] + rest[1..]
  }

  function Join(parts: seq<string>): string
    requires parts != []
  {
    if |parts| == 1 then parts[0] else parts[0] + [SLASH] + Join(parts[1..])
  }

  /** Case folding maps every character to a string. */
  function Fold(fold: char -> string, s: string): string {
    if s == "" then "" else fold(s[0]) + Fold(fold, s[1..])
  }

  function FoldParts(fold: char -> string, parts: seq<string>): (r: seq<string>)
    ensures |r| == |parts| && forall i | 0 <= i < |parts| :: r[i] == Fold(fold, parts[i])
  {
    seq(|parts|, i requires 0 <= i < |parts| => Fold(fold, parts[i]))
  }

  /** No character but the slash folds to something with a slash in it. */
  ghost predicate FoldsPaths(fold: char -> string) {
    fold(SLASH) == [SLASH] && forall c | c != SLASH :: Slashless(fold(c))
  }

  lemma {:induction false} SplitSlashless(s: string)
    ensures AllSlashless(Split(s))
  {
    if s != "" {
      SplitSlashless(s[1..]);
    }
  }

  lemma {:induction false} SplitPrepend(x: string, t: string)
    requires Slashless(x)
    ensures Split(x + t) == [x + Split(t)[0]] + Split(t)[1..]
  {
    if x == "" {
      assert x + t == t && x + Split(t)[0] == Split(t)[0];
    } else {
      assert (x + t)[1..] == x[1..] + t;
      SplitPrepend(x[1..], t);
      assert [x[0]] + (x[1..] + Split(t)[0]) == x + Split(t)[0];
    }
  }

  lemma {:induction false} SplitJoined(parts: seq<string>)
    requires parts != [] && AllSlashless(parts)
    ensures Split(Join(parts)) == parts
  {
    if |parts| == 1 {
      SplitPrepend(parts[0], "");
      assert parts[0] + "" == parts[0];
    } else {
      SplitJoined(parts[1..]);
      var t := [SLASH] + Join(parts[1..]);
      assert t[1..] == Join(parts[1..]);
      SplitPrepend(parts[0], t);
      assert Join(parts) == parts[0] + t;
      assert Split(t) == [""] + parts[1..];
      assert parts[0] + "" == parts[0];
    }
  }

  lemma JoinPrepend(c: char, parts: seq<string>)
    requires parts != []
    ensures Join([[c] + parts[0]] + parts[1..]) == [c] + Join(parts)
  {
    var p := [[c] + parts[0]] + parts[1..];
    assert p[1..] == parts[1..];
    if |parts| > 1 {
      assert Join(p) == ([c] + parts[0]) + [SLASH] + Join(parts[1..]);
    }
  }

  /** Splitting loses nothing. */
  lemma {:induction false} JoinSplit(s: string)
    ensures Join(Split(s)) == s
  {
    if s != "" {
      JoinSplit(s[1..]);
      var rest := Split(s[1..]);
      if s[0] == SLASH {
        assert ([""] + rest)[1..] == rest;
      } else {
        JoinPrepend(s[0], rest);
      }
    }
  }

  lemma JoinInjective(p: seq<string>, q: seq<string>)
    requires p != [] && q != [] && AllSlashless(p) && AllSlashless(q) && Join(p) == Join(q)
    ensures p == q
  {
    SplitJoined(p);
    SplitJoined(q);
  }

  /** A character in front goes to the first component, or starts a new one. */
  function Headed(c: char, parts: seq<string>): seq<string>
    requires parts != []
  {
    if c == SLASH then [""] + parts else [[c] + parts[0]] + parts[1..]
  }

  lemma HeadedAppend(c: char, a: seq<string>, b: seq<string>)
    requires a != []
    ensures Headed(c, a + b) == Headed(c, a) + b
  {
  }

  lemma SplitCons(c: char, s: string)
    ensures Split([c] + s) == Headed(c, Split(s))
  {
    assert ([c] + s)[1..] == s;
  }

  lemma {:induction false} SplitAt(x: string, y: string)
    ensures Split(x + [SLASH] + y) == Split(x) + Split(y)
  {
    if x == "" {
      assert x + [SLASH] + y == [SLASH] + y;
      SplitCons(SLASH, y);
    } else {
      SplitAt(x[1..], y);
      HeadedSplit(x[0], x[1..], y);
      assert x == [x[0]] + x[1..];
    }
  }

  lemma HeadedSplit(c: char, x: string, y: string)
    requires Split(x + [SLASH] + y) == Split(x) + Split(y)
    ensures Split([c] + x + [SLASH] + y) == Split([c] + x) + Split(y)
  {
    SplitCons(c, x);
    SplitCons(c, x + [SLASH] + y);
    HeadedAppend(c, Split(x), Split(y));
    assert [c] + x + [SLASH] + y == [c] + (x + [SLASH] + y);
  }

  lemma {:induction false} JoinAppend(p: seq<string>, q: seq<string>)
    requires p != [] && q != []
    ensures Join(p + q) == Join(p) + [SLASH] + Join(q)
  {
    assert (p + q)[1..] == p[1..] + q;
    if |p| > 1 {
      JoinAppend(p[1..], q);
    }
  }

  /** A joined path starts with another one and a slash exactly when it lies below it. */
  lemma {:induction false} StartsWithIffBelow(p: seq<string>, q: seq<string>)
    requires p != [] && q != [] && AllSlashless(p) && AllSlashless(q)
    ensures Join(p) + [SLASH] <= Join(q) <==> p < q
  {
    if p < q {
      var h := q[|p|..];
      assert q == p + h;
      JoinAppend(p, h);
    }
    if Join(p) + [SLASH] <= Join(q) {
      var y := Join(q)[|Join(p)| + 1..];
      assert Join(q) == Join(p) + [SLASH] + y;
      SplitAt(Join(p), y);
      SplitJoined(p);
      SplitJoined(q);
      assert q == p + Split(y);
    }
  }

  lemma {:induction false} FoldSlashless(fold: char -> string, s: string)
    requires FoldsPaths(fold) && Slashless(s)
    ensures Slashless(Fold(fold, s))
  {
    if s != "" {
      FoldSlashless(fold, s[1..]);
    }
  }

  /** Folding a path folds its components. */
  lemma {:induction false} SplitFolded(fold: char -> string, s: string)
    requires FoldsPaths(fold)
    ensures Split(Fold(fold, s)) == FoldParts(fold, Split(s))
  {
    if s == "" {
    } else {
      SplitFolded(fold, s[1..]);
      var rest := Split(s[1..]);
      if s[0] == SLASH {
        assert Fold(fold, s)[1..] == Fold(fold, s[1..]);
        assert Fold(fold, "") == "";
      } else {
        SplitPrepend(fold(s[0]), Fold(fold, s[1..]));
        var first := [s[0]] + rest[0];
        assert first[1..] == rest[0];
        assert Fold(fold, first) == fold(s[0]) + Fold(fold, rest[0]);
      }
    }
  }
}
