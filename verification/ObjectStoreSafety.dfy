/** Crash safety of the object store over every interleaving. */
module ObjectStoreSafety {
  import opened Wrappers
  import opened ObjectStore

  /** A change of the disk that leaves all files but `ino` alone, takes no name away but possibly the temporary name
      `unique`, and makes nothing less durable. */
  ghost predicate Frame(d: Disk, e: Disk, ino: Option<nat>, unique: Option<nat>) {
    && (forall i | i in d.files :: i in e.files && (ino == Some(i) || e.files[i] == d.files[i]))
    && (forall n | n in d.entries && !(n.Temp? && Some(n.unique) == unique) ::
          n in e.entries && e.entries[n] == d.entries[n])
    && (forall n | n in d.stable && n.Object? :: n in e.stable && e.stable[n] == d.stable[n])
  }

  lemma OtherThreadKept(hash: Bytes -> Digest, d: Disk, e: Disk, ino: Option<nat>, unique: Option<nat>, used: set<nat>,
      more: set<nat>, th: Thread)
    requires ThreadOk(hash, d, used, th) && Frame(d, e, ino, unique) && used <= more
    requires unique.Some? ==> UniqueOf(th) != unique
    requires (th.Writing? || th.Flushed?) ==> ino != Some(th.ino)
    ensures ThreadOk(hash, e, more, th)
  {
  }

  lemma CreateKeepsSound(hash: Bytes -> Digest, d: Disk, name: Name, ino: nat)
    requires ObjectsSound(hash, d) && name.Temp? && name !in d.entries && ino !in d.files
    ensures ObjectsSound(hash, Create(d, name, ino)) && Frame(d, Create(d, name, ino), None, None)
  {
  }

  lemma FileKeepsSound(hash: Bytes -> Digest, d: Disk, ino: nat, f: File)
    requires ObjectsSound(hash, d) && ino in d.files && !d.files[ino].synced
    ensures ObjectsSound(hash, d.(files := d.files[ino := f])) &&
              Frame(d, d.(files := d.files[ino := f]), Some(ino), None)
  {
  }

  lemma LinkKeepsSound(hash: Bytes -> Digest, d: Disk, digest: Digest, ino: nat)
    requires ObjectsSound(hash, d) && Object(digest) !in d.entries && Sound(hash, d, digest, ino)
    ensures ObjectsSound(hash, Link(d, Object(digest), ino)) && Frame(d, Link(d, Object(digest), ino), None, None)
  {
  }

  lemma SyncKeepsSound(hash: Bytes -> Digest, d: Disk)
    requires ObjectsSound(hash, d)
    ensures ObjectsSound(hash, SyncDirectory(d)) && Frame(d, SyncDirectory(d), None, None)
  {
  }

  lemma UnlinkKeepsSound(hash: Bytes -> Digest, d: Disk, name: Name)
    requires ObjectsSound(hash, d) && name.Temp?
    ensures ObjectsSound(hash, Unlink(d, name)) && Frame(d, Unlink(d, name), None, Some(name.unique))
  {
  }

  /** One thread moved on a framed change of the disk; what it now says is right, and keeps apart from the others. */
  ghost predicate Moves(hash: Bytes -> Digest, s: System, e: System, t: nat, ino: Option<nat>, unique: Option<nat>) {
    && t in s.threads && e.threads == s.threads[t := if t in e.threads then e.threads[t] else s.threads[t]]
    && Frame(s.disk, e.disk, ino, unique) && s.used <= e.used
    && ThreadOk(hash, e.disk, e.used, e.threads[t])
    && (unique.Some? ==> UniqueOf(s.threads[t]) == unique)
    && (ino.Some? ==> s.threads[t].Writing? && ino == Some(s.threads[t].ino))
  }

  lemma MoveKeepsThreads(hash: Bytes -> Digest, s: System, e: System, t: nat, ino: Option<nat>, unique: Option<nat>)
    requires ThreadsOk(hash, s) && AllSeparate(s.threads) && Moves(hash, s, e, t, ino, unique)
    ensures ThreadsOk(hash, e)
  {
    forall u | u in e.threads
      ensures ThreadOk(hash, e.disk, e.used, e.threads[u])
    {
      if u != t {
        assert Separate(s.threads[t], s.threads[u]) && Separate(s.threads[u], s.threads[t]);
        OtherThreadKept(hash, s.disk, e.disk, ino, unique, s.used, e.used, s.threads[u]);
      }
    }
  }

  /** The thread keeps apart from all others. */
  ghost predicate KeepsApart(threads: map<nat, Thread>, t: nat, th: Thread) {
    forall u | u in threads && u != t :: Separate(th, threads[u]) && Separate(threads[u], th)
  }

  lemma MoveKeepsSeparate(threads: map<nat, Thread>, t: nat, th: Thread)
    requires AllSeparate(threads) && KeepsApart(threads, t, th)
    ensures AllSeparate(threads[t := th])
  {
    var after := threads[t := th];
    forall u, v | u in after && v in after && u != v
      ensures Separate(after[u], after[v])
    {
      assert u != t && v != t ==> Separate(threads[u], threads[v]);
    }
  }

  ghost predicate ReturnsStable(hash: Bytes -> Digest, s: System, e: System) {
    forall b | b in e.returned :: b in s.returned || Object(hash(b)) in e.disk.stable
  }

  lemma MoveKeepsInv(hash: Bytes -> Digest, s: System, e: System, t: nat, ino: Option<nat>, unique: Option<nat>)
    requires Inv(hash, s) && Moves(hash, s, e, t, ino, unique) && ObjectsSound(hash, e.disk)
    requires KeepsApart(s.threads, t, e.threads[t]) && ReturnsStable(hash, s, e)
    ensures Inv(hash, e)
  {
    MoveKeepsThreads(hash, s, e, t, ino, unique);
    MoveKeepsSeparate(s.threads, t, e.threads[t]);
  }

  /** A thread that keeps its numbers, or gives them up, keeps apart from the others. */
  lemma StaysAlone(threads: map<nat, Thread>, t: nat, th: Thread)
    requires t in threads && AllSeparate(threads)
    requires UniqueOf(th).Some? ==> UniqueOf(th) == UniqueOf(threads[t])
    requires th.Writing? ==> threads[t].Writing? && th.ino == threads[t].ino
    ensures KeepsApart(threads, t, th)
  {
    forall u | u in threads && u != t
      ensures Separate(th, threads[u]) && Separate(threads[u], th)
    {
      assert Separate(threads[t], threads[u]) && Separate(threads[u], threads[t]);
    }
  }

  lemma OpensAlone(hash: Bytes -> Digest, s: System, t: nat, b: Bytes, u: nat, i: nat)
    requires ThreadsOk(hash, s) && u !in s.used && i !in s.disk.files
    ensures KeepsApart(s.threads, t, Writing(b, u, i, 0))
  {
    forall v | v in s.threads && v != t
      ensures Separate(Writing(b, u, i, 0), s.threads[v]) && Separate(s.threads[v], Writing(b, u, i, 0))
    {
      assert ThreadOk(hash, s.disk, s.used, s.threads[v]);
    }
  }

  lemma OpenKeepsInv(hash: Bytes -> Digest, s: System, t: nat, u: nat, i: nat)
    requires Inv(hash, s) && t in s.threads && s.threads[t].Started?
    ensures Inv(hash, ThreadStep(hash, s, t, Open(t, u, i)))
  {
    var e := ThreadStep(hash, s, t, Open(t, u, i));
    var b := s.threads[t].bytes;
    if e != s {
      CreateKeepsSound(hash, s.disk, TempName(hash, b, u), i);
      OpensAlone(hash, s, t, b, u, i);
      MoveKeepsInv(hash, s, e, t, None, None);
    }
  }

  lemma WriteKeepsInv(hash: Bytes -> Digest, s: System, t: nat, count: nat)
    requires Inv(hash, s) && t in s.threads && s.threads[t].Writing?
    ensures Inv(hash, ThreadStep(hash, s, t, Write(t, count)))
  {
    var e := ThreadStep(hash, s, t, Write(t, count));
    assert ThreadOk(hash, s.disk, s.used, s.threads[t]);
    var Writing(b, u, i, n) := s.threads[t];
    if e != s {
      assert b[..n] + b[n..n + count] == b[..n + count];
      FileKeepsSound(hash, s.disk, i, File(b[..n + count], false));
      StaysAlone(s.threads, t, e.threads[t]);
      MoveKeepsInv(hash, s, e, t, Some(i), None);
    }
  }

  lemma FlushKeepsInv(hash: Bytes -> Digest, s: System, t: nat)
    requires Inv(hash, s) && t in s.threads && s.threads[t].Writing?
    ensures Inv(hash, ThreadStep(hash, s, t, Flush(t)))
  {
    var e := ThreadStep(hash, s, t, Flush(t));
    assert ThreadOk(hash, s.disk, s.used, s.threads[t]);
    var Writing(b, u, i, n) := s.threads[t];
    if e != s {
      assert b[..n] == b;
      FileKeepsSound(hash, s.disk, i, File(b, true));
      StaysAlone(s.threads, t, e.threads[t]);
      MoveKeepsInv(hash, s, e, t, Some(i), None);
    }
  }

  lemma LinkKeepsInv(hash: Bytes -> Digest, s: System, t: nat)
    requires Inv(hash, s) && t in s.threads && s.threads[t].Flushed?
    ensures Inv(hash, ThreadStep(hash, s, t, TryLink(t)))
  {
    var e := ThreadStep(hash, s, t, TryLink(t));
    assert ThreadOk(hash, s.disk, s.used, s.threads[t]);
    var Flushed(b, u, i) := s.threads[t];
    if Object(hash(b)) !in s.disk.entries {
      LinkKeepsSound(hash, s.disk, hash(b), i);
    }
    StaysAlone(s.threads, t, e.threads[t]);
    MoveKeepsInv(hash, s, e, t, None, None);
  }

  lemma SyncKeepsInv(hash: Bytes -> Digest, s: System, t: nat)
    requires Inv(hash, s) && t in s.threads && s.threads[t].Visible?
    ensures Inv(hash, ThreadStep(hash, s, t, SyncEntry(t)))
  {
    var e := ThreadStep(hash, s, t, SyncEntry(t));
    assert ThreadOk(hash, s.disk, s.used, s.threads[t]);
    SyncKeepsSound(hash, s.disk);
    StaysAlone(s.threads, t, e.threads[t]);
    MoveKeepsInv(hash, s, e, t, None, None);
  }

  lemma RemoveKeepsInv(hash: Bytes -> Digest, s: System, t: nat)
    requires Inv(hash, s) && t in s.threads && s.threads[t].Closing?
    ensures Inv(hash, ThreadStep(hash, s, t, Remove(t)))
  {
    var e := ThreadStep(hash, s, t, Remove(t));
    assert ThreadOk(hash, s.disk, s.used, s.threads[t]);
    UnlinkKeepsSound(hash, s.disk, TempName(hash, s.threads[t].bytes, s.threads[t].unique));
    StaysAlone(s.threads, t, e.threads[t]);
    MoveKeepsInv(hash, s, e, t, None, Some(s.threads[t].unique));
  }

  /** A thread that compares or fails touches no file and no entry. */
  lemma LocalKeepsInv(hash: Bytes -> Digest, s: System, t: nat, th: Thread)
    requires Inv(hash, s) && t in s.threads && UniqueOf(th) == UniqueOf(s.threads[t]) && !th.Writing?
    requires ThreadOk(hash, s.disk, s.used, th)
    ensures Inv(hash, Put(s, t, th))
  {
    StaysAlone(s.threads, t, th);
    MoveKeepsInv(hash, s, Put(s, t, th), t, None, None);
  }

  lemma CompareKeepsInv(hash: Bytes -> Digest, s: System, t: nat)
    requires Inv(hash, s) && t in s.threads
    ensures Inv(hash, ThreadStep(hash, s, t, Compare(t)))
  {
    assert ThreadOk(hash, s.disk, s.used, s.threads[t]);
    if s.threads[t].Colliding? {
      LocalKeepsInv(hash, s, t, ThreadStep(hash, s, t, Compare(t)).threads[t]);
    }
  }

  lemma FaultKeepsInv(hash: Bytes -> Digest, s: System, t: nat)
    requires Inv(hash, s) && t in s.threads
    ensures Inv(hash, ThreadStep(hash, s, t, Fault(t)))
  {
    assert ThreadOk(hash, s.disk, s.used, s.threads[t]);
    var e := ThreadStep(hash, s, t, Fault(t));
    if e != s {
      LocalKeepsInv(hash, s, t, e.threads[t]);
    }
  }

  /** A thread step is enabled only at its own point of the call. */
  predicate AtPoint(th: Thread, step: Step) {
    match step
    case Open(_, _, _) => th.Started?
    case Write(_, _) => th.Writing?
    case Flush(_) => th.Writing?
    case TryLink(_) => th.Flushed?
    case Compare(_) => true
    case SyncEntry(_) => th.Visible?
    case Remove(_) => th.Closing?
    case Fault(_) => true
    case _ => false
  }

  lemma OffPointIdle(hash: Bytes -> Digest, s: System, t: nat, step: Step)
    requires t in s.threads && !AtPoint(s.threads[t], step)
    ensures ThreadStep(hash, s, t, step) == s
  {
  }

  lemma ThreadKeepsInv(hash: Bytes -> Digest, s: System, t: nat, step: Step)
    requires Inv(hash, s) && t in s.threads && (step.Begin? || step.Crash? || step.t == t)
    ensures Inv(hash, ThreadStep(hash, s, t, step))
  {
    if !AtPoint(s.threads[t], step) {
      OffPointIdle(hash, s, t, step);
      return;
    }
    match step
    case Open(_, u, i) => OpenKeepsInv(hash, s, t, u, i);
    case Write(_, count) => WriteKeepsInv(hash, s, t, count);
    case Flush(_) => FlushKeepsInv(hash, s, t);
    case TryLink(_) => LinkKeepsInv(hash, s, t);
    case SyncEntry(_) => SyncKeepsInv(hash, s, t);
    case Remove(_) => RemoveKeepsInv(hash, s, t);
    case Compare(_) => CompareKeepsInv(hash, s, t);
    case Fault(_) => FaultKeepsInv(hash, s, t);
  }

  lemma CrashKeepsInv(hash: Bytes -> Digest, s: System, after: Disk)
    requires Inv(hash, s) && CrashLeaves(s.disk, after)
    ensures Inv(hash, s.(disk := after, threads := map[]))
  {
    forall n | n in after.entries && n.Object?
      ensures Sound(hash, after, n.digest, after.entries[n])
    {
      if n in s.disk.stable && after.entries[n] == s.disk.stable[n] {
        assert Sound(hash, s.disk, n.digest, s.disk.entries[n]);
      } else {
        assert Sound(hash, s.disk, n.digest, after.entries[n]) by {
          var entry := (n, after.entries[n]);
          assert entry in s.disk.loose && entry.0.Object?;
        }
      }
    }
  }

  lemma StepKeepsInv(hash: Bytes -> Digest, s: System, step: Step)
    requires Inv(hash, s)
    ensures Inv(hash, Next(hash, s, step))
  {
    match step
    case Begin(t, bytes) =>
    case Crash(after) =>
      if CrashLeaves(s.disk, after) {
        CrashKeepsInv(hash, s, after);
      }
    case _ =>
      if step.t in s.threads {
        ThreadKeepsInv(hash, s, step.t, step);
      }
  }

  lemma {:induction false} RunKeepsInv(hash: Bytes -> Digest, s: System, steps: seq<Step>)
    requires Inv(hash, s)
    ensures Inv(hash, Run(hash, s, steps))
  {
    if steps != [] {
      RunKeepsInv(hash, s, steps[..|steps| - 1]);
      StepKeepsInv(hash, Run(hash, s, steps[..|steps| - 1]), steps[|steps| - 1]);
    }
  }

  /** At every moment, whatever was interrupted before, each entry named by a digest is completely written and
      synced, and its bytes hash to its name; the same holds for every such entry a crash might bring back. */
  lemma {:induction false} EveryObjectIsSound(hash: Bytes -> Digest, steps: seq<Step>, digest: Digest)
    ensures var d := Run(hash, START, steps).disk;
            && (Object(digest) in d.entries ==> Sound(hash, d, digest, d.entries[Object(digest)]))
            && (forall ino | (Object(digest), ino) in d.loose :: Sound(hash, d, digest, ino))
            && (Read(hash, d, digest).Ok? <==> Object(digest) in d.entries)
            && Read(hash, d, digest) != Err(IntegrityError)
  {
    RunKeepsInv(hash, START, steps);
    var d := Run(hash, START, steps).disk;
    forall ino | (Object(digest), ino) in d.loose
      ensures Sound(hash, d, digest, ino)
    {
      var entry := (Object(digest), ino);
      assert entry in d.loose && entry.0.Object?;
    }
  }

  // ---------- durability ----------

  ghost predicate Injective(hash: Bytes -> Digest) {
    forall a, b :: hash(a) == hash(b) ==> a == b
  }

  lemma StepKeepsHistory(hash: Bytes -> Digest, s: System, step: Step)
    ensures s.returned <= Next(hash, s, step).returned
  {
  }

  lemma {:induction false} RunKeepsHistory(hash: Bytes -> Digest, s: System, steps: seq<Step>)
    ensures s.returned <= Run(hash, s, steps).returned
  {
    if steps != [] {
      RunKeepsHistory(hash, s, steps[..|steps| - 1]);
      StepKeepsHistory(hash, Run(hash, s, steps[..|steps| - 1]), steps[|steps| - 1]);
    }
  }

  lemma {:induction false} RunAppends(hash: Bytes -> Digest, s: System, a: seq<Step>, b: seq<Step>)
    ensures Run(hash, s, a + b) == Run(hash, Run(hash, s, a), b)
  {
    if b == [] {
      assert a + b == a;
    } else {
      assert (a + b)[..|a + b| - 1] == a + b[..|b| - 1];
      RunAppends(hash, s, a, b[..|b| - 1]);
    }
  }

  /** Once a call of store has returned, its payload can be read back exactly, through every later crash and every
      later call, also when the call found the object already there. */
  lemma {:induction false} ReturnedDigestsAreDurable(hash: Bytes -> Digest, steps: seq<Step>, later: seq<Step>,
      bytes: Bytes)
    requires Injective(hash) && bytes in Run(hash, START, steps).returned
    ensures Read(hash, Run(hash, START, steps + later).disk, hash(bytes)) == Ok(bytes)
  {
    RunAppends(hash, START, steps, later);
    RunKeepsHistory(hash, Run(hash, START, steps), later);
    RunKeepsInv(hash, START, steps + later);
    var d := Run(hash, START, steps + later).disk;
    assert Object(hash(bytes)) in d.entries;
    assert Sound(hash, d, hash(bytes), d.entries[Object(hash(bytes))]);
  }

  // ---------- how bad a crash may be ----------

  /** The files after a crash that tears every content not synced. */
  function Torn(d: Disk, torn: map<nat, Bytes>): map<nat, File> {
    map i | i in d.files :: if d.files[i].synced || i !in torn then d.files[i] else File(torn[i], false)
  }

  /** A crash may lose every entry since the last sync of the directory, keep every visible one that it could keep,
      and in either case leave any bytes at all in files that were not synced. */
  lemma CrashesMayLoseOrKeep(d: Disk, torn: map<nat, Bytes>)
    ensures CrashLeaves(d, Disk(Torn(d, torn), d.stable, d.stable, {}))
    ensures (forall n | n in d.stable :: n in d.entries && d.entries[n] == d.stable[n]) &&
            (forall n | n in d.entries ::
                (n in d.stable && d.stable[n] == d.entries[n]) || (n, d.entries[n]) in d.loose) ==>
              CrashLeaves(d, Disk(Torn(d, torn), d.entries, d.entries, {}))
  {
  }
}
