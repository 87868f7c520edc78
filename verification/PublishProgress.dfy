/** No reachable state of the object directory stands in the way of a publication: whatever has happened, a
    publisher that is left alone from there on stores its archives and commits exactly their digests. */
module PublishProgress {
  import opened Wrappers
  import opened ObjectStore
  import opened PublishOrder

  lemma {:induction false} FreshNumber(used: set<nat>) returns (n: nat)
    ensures n !in used && forall x | x in used :: x < n
    decreases |used|
  {
    n := 0;
    if used != {} {
      var x :| x in used;
      var m := FreshNumber(used - {x});
      n := m + x + 1;
      assert forall y | y in used :: y == x || y in used - {x};
    }
  }

  // ---------- one call that is left alone ----------

  /** A call that can still return its bytes. */
  predicate Live(th: Thread) {
    match th
    case Started(b) => b != []
    case Writing(b, _, _, n) => n <= |b|
    case Closing(_, _, ok) => ok
    case Returned(_) => false
    case Failed => false
    case _ => true
  }

  /** How many steps are left. */
  function Left(th: Thread): nat {
    match th
    case Started(_) => 7
    case Writing(b, _, _, n) => if n < |b| then 6 else 5
    case Flushed(_, _, _) => 4
    case Colliding(_, _) => 3
    case Visible(_, _) => 2
    case Closing(_, _, _) => 1
    case _ => 0
  }

  /** The thread has gone one step on, and is live or has returned the same bytes. */
  predicate GoneOn(s: System, after: System, t: nat, bytes: Bytes)
    requires t in s.threads
  {
    && t in after.threads && after.threads == s.threads[t := after.threads[t]]
    && ((Live(after.threads[t]) && after.threads[t].bytes == bytes) || after.threads[t] == Returned(bytes))
    && Left(after.threads[t]) < Left(s.threads[t])
  }

  lemma OpensNext(hash: Bytes -> Digest, s: System, t: nat, bytes: Bytes) returns (step: Step)
    requires t in s.threads && s.threads[t] == Started(bytes) && bytes != []
    ensures !step.Crash? && GoneOn(s, Next(hash, s, step), t, bytes)
  {
    var unique := FreshNumber(s.used + set n | n in s.disk.entries.Keys && n.Temp? :: n.unique);
    var ino := FreshNumber(s.disk.files.Keys);
    step := Open(t, unique, ino);
    assert TempName(hash, bytes, unique) !in s.disk.entries;
  }

  lemma WritesNext(hash: Bytes -> Digest, s: System, t: nat) returns (step: Step)
    requires t in s.threads && ThreadOk(hash, s.disk, s.used, s.threads[t]) && s.threads[t].Writing?
    ensures !step.Crash? && GoneOn(s, Next(hash, s, step), t, s.threads[t].bytes)
  {
    var left := |s.threads[t].bytes| - s.threads[t].written;
    step := if left > 0 then Write(t, left) else Flush(t);
  }

  lemma LinksNext(hash: Bytes -> Digest, s: System, t: nat) returns (step: Step)
    requires t in s.threads && ThreadOk(hash, s.disk, s.used, s.threads[t]) && s.threads[t].Flushed?
    ensures !step.Crash? && GoneOn(s, Next(hash, s, step), t, s.threads[t].bytes)
  {
    step := TryLink(t);
  }

  lemma ComparesNext(hash: Bytes -> Digest, s: System, t: nat) returns (step: Step)
    requires t in s.threads && ThreadOk(hash, s.disk, s.used, s.threads[t]) && s.threads[t].Colliding?
    requires ObjectsSound(hash, s.disk)
    ensures !step.Crash? && GoneOn(s, Next(hash, s, step), t, s.threads[t].bytes)
  {
    var name := Object(hash(s.threads[t].bytes));
    assert Sound(hash, s.disk, name.digest, s.disk.entries[name]);
    step := Compare(t);
  }

  lemma EndsNext(hash: Bytes -> Digest, s: System, t: nat) returns (step: Step)
    requires t in s.threads && Live(s.threads[t]) && (s.threads[t].Visible? || s.threads[t].Closing?)
    ensures !step.Crash? && GoneOn(s, Next(hash, s, step), t, s.threads[t].bytes)
  {
    step := if s.threads[t].Visible? then SyncEntry(t) else Remove(t);
  }

  /** A live call always has a step that brings it nearer to its return. */
  lemma {:induction false} LiveGoesOn(hash: Bytes -> Digest, s: System, t: nat) returns (step: Step)
    requires Inv(hash, s) && t in s.threads && Live(s.threads[t])
    ensures !step.Crash? && GoneOn(s, Next(hash, s, step), t, s.threads[t].bytes)
  {
    assert ThreadOk(hash, s.disk, s.used, s.threads[t]);
    match s.threads[t]
    case Started(b) => step := OpensNext(hash, s, t, b);
    case Writing(_, _, _, _) => step := WritesNext(hash, s, t);
    case Flushed(_, _, _) => step := LinksNext(hash, s, t);
    case Colliding(_, _) => step := ComparesNext(hash, s, t);
    case _ => step := EndsNext(hash, s, t);
  }

  /** Only the call has moved, to its return. */
  ghost predicate Returns(hash: Bytes -> Digest, w: World, after: World, t: nat) {
    && WorldOk(hash, after) && after.publishers == w.publishers && after.committed == w.committed
    && t in w.store.threads && Live(w.store.threads[t])
    && after.store.threads == w.store.threads[t := Returned(w.store.threads[t].bytes)]
  }

  lemma RunAllFirst(hash: Bytes -> Digest, w: World, m: Move, rest: seq<Move>)
    ensures RunAll(hash, w, [m] + rest) == RunAll(hash, Advance(hash, w, m), rest)
  {
    RunAllAppends(hash, w, [m], rest);
    assert [m][..0] == [];
    assert RunAll(hash, w, [m]) == Advance(hash, w, m);
  }

  lemma {:induction false} LiveCallReturns(hash: Bytes -> Digest, w: World, t: nat) returns (moves: seq<Move>)
    requires WorldOk(hash, w) && t in w.store.threads && Live(w.store.threads[t])
    ensures Returns(hash, w, RunAll(hash, w, moves), t)
    decreases Left(w.store.threads[t])
  {
    var step := LiveGoesOn(hash, w.store, t);
    var next := Advance(hash, w, Store(step));
    AdvanceKeepsWorld(hash, w, Store(step));
    var rest := [];
    if Live(next.store.threads[t]) {
      rest := LiveCallReturns(hash, next, t);
    }
    moves := [Store(step)] + rest;
    RunAllFirst(hash, w, Store(step), rest);
  }

  // ---------- one publication that is left alone ----------

  /** What the publication commits. */
  function Committed(hash: Bytes -> Digest, upload: Bytes, final: Bytes, deferred: bool): set<Digest> {
    if deferred then {hash(upload), hash(final)} else {hash(final)}
  }

  /** A publisher whose final archive is being stored. */
  ghost predicate Storing(w: World, p: nat, q: Publisher) {
    && p in w.publishers && w.publishers[p] == q && q.stage == StoringFinal && q.call in w.store.threads
    && Live(w.store.threads[q.call])
  }

  lemma FinalStoreCommits(hash: Bytes -> Digest, w: World, p: nat, q: Publisher) returns (moves: seq<Move>)
    requires WorldOk(hash, w) && Storing(w, p, q)
    ensures RunAll(hash, w, moves).committed == w.committed + Committed(hash, q.upload, q.final, q.deferred)
  {
    var stored := LiveCallReturns(hash, w, q.call);
    var done := RunAll(hash, w, stored);
    RunAllFirst(hash, done, Proceed(p, 0), [Persist(p)]);
    RunAllFirst(hash, Advance(hash, done, Proceed(p, 0)), Persist(p), []);
    moves := stored + ([Proceed(p, 0)] + [Persist(p)]);
    RunAllAppends(hash, w, stored, [Proceed(p, 0)] + [Persist(p)]);
    assert [Persist(p)] + [] == [Persist(p)];
  }

  lemma UploadStoreCommits(hash: Bytes -> Digest, w: World, p: nat, q: Publisher) returns (moves: seq<Move>)
    requires WorldOk(hash, w) && p in w.publishers && w.publishers[p] == q && q.stage == StoringUpload && q.deferred
    requires q.call in w.store.threads && Live(w.store.threads[q.call]) && q.final != []
    ensures RunAll(hash, w, moves).committed == w.committed + Committed(hash, q.upload, q.final, q.deferred)
  {
    var stored := LiveCallReturns(hash, w, q.call);
    var done := RunAll(hash, w, stored);
    var call := FreshNumber(done.store.threads.Keys);
    var next := Advance(hash, done, Proceed(p, call));
    AdvanceKeepsWorld(hash, done, Proceed(p, call));
    var rest := FinalStoreCommits(hash, next, p, q.(call := call, stage := StoringFinal));
    moves := stored + ([Proceed(p, call)] + rest);
    RunAllAppends(hash, w, stored, [Proceed(p, call)] + rest);
    RunAllFirst(hash, done, Proceed(p, call), rest);
  }

  /** After any moves at all, a new publication can still be carried through, and then commits exactly the digest of its
      final archive and, when the scan is deferred, that of the author's upload. */
  lemma {:induction false} PublicationsCanComplete(hash: Bytes -> Digest, before: seq<Move>, p: nat, upload: Bytes,
      final: Bytes, deferred: bool) returns (moves: seq<Move>)
    requires p !in RunAll(hash, BEGINNING, before).publishers && final != [] && (deferred ==> upload != [])
    ensures RunAll(hash, BEGINNING, before + moves).committed ==
              RunAll(hash, BEGINNING, before).committed + Committed(hash, upload, final, deferred)
  {
    var w := RunAll(hash, BEGINNING, before);
    RunKeepsWorld(hash, BEGINNING, before);
    var call := FreshNumber(w.store.threads.Keys);
    var start := Start(p, upload, final, deferred, call);
    var next := Advance(hash, w, start);
    AdvanceKeepsWorld(hash, w, start);
    var rest;
    if deferred {
      rest := UploadStoreCommits(hash, next, p, next.publishers[p]);
    } else {
      rest := FinalStoreCommits(hash, next, p, next.publishers[p]);
    }
    moves := [start] + rest;
    RunAllAppends(hash, BEGINNING, before, moves);
    RunAllFirst(hash, w, start, rest);
  }
}
