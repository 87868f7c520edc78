/** Publishing stores the author's upload, when its scan is deferred, then the final archive, and only then commits
    the publication with their digests. Any number of publishers share the object directory with other callers of
    store, and crash with them. */
module PublishOrder {
  import opened Wrappers
  import opened ObjectStore
  import opened ObjectStoreSafety

  datatype Stage = StoringUpload | StoringFinal | Persisting

  /** One publication under way; `call` is its latest call of store. */
  datatype Publisher = Publisher(upload: Bytes, final: Bytes, deferred: bool, call: nat, stage: Stage)

  /** `committed` holds the stored digests named by committed publications and scan jobs. */
  datatype World = World(store: System, publishers: map<nat, Publisher>, committed: set<Digest>)

  datatype Move =
    | Store(step: Step)
    | Start(publisher: nat, upload: Bytes, final: Bytes, deferred: bool, call: nat)
    | Proceed(publisher: nat, call: nat)
    | Persist(publisher: nat)

  const BEGINNING: World := World(START, map[], {})

  predicate HasReturned(s: System, t: nat) {
    t in s.threads && s.threads[t].Returned?
  }

  function StartMove(hash: Bytes -> Digest, w: World, m: Move): World
    requires m.Start?
  {
    if m.publisher in w.publishers || m.call in w.store.threads then w
    else
      var stage := if m.deferred then StoringUpload else StoringFinal;
      w.(store := Next(hash, w.store, Begin(m.call, if m.deferred then m.upload else m.final)),
         publishers := w.publishers[m.publisher := Publisher(m.upload, m.final, m.deferred, m.call, stage)])
  }

  function ProceedMove(hash: Bytes -> Digest, w: World, p: nat, call: nat): World {
    if p !in w.publishers || !HasReturned(w.store, w.publishers[p].call) then w
    else
      match w.publishers[p].stage
      case StoringUpload =>
        if call in w.store.threads then w
        else w.(store := Next(hash, w.store, Begin(call, w.publishers[p].final)),
                publishers := w.publishers[p := w.publishers[p].(call := call, stage := StoringFinal)])
      case StoringFinal => w.(publishers := w.publishers[p := w.publishers[p].(stage := Persisting)])
      case Persisting => w
  }

  function StoredDigests(hash: Bytes -> Digest, p: Publisher): set<Digest> {
    {hash(p.final)} + if p.deferred then {hash(p.upload)} else {}
  }

  function PersistMove(hash: Bytes -> Digest, w: World, p: nat): World {
    if p !in w.publishers || w.publishers[p].stage != Persisting then w
    else w.(publishers := w.publishers - {p}, committed := w.committed + StoredDigests(hash, w.publishers[p]))
  }

  /** A crash also ends every publication under way; what is committed stays. */
  function Advance(hash: Bytes -> Digest, w: World, m: Move): World {
    match m
    case Store(step) =>
      var crashed := step.Crash? && CrashLeaves(w.store.disk, step.after);
      w.(store := Next(hash, w.store, step), publishers := if crashed then map[] else w.publishers)
    case Start(_, _, _, _, _) => StartMove(hash, w, m)
    case Proceed(p, call) => ProceedMove(hash, w, p, call)
    case Persist(p) => PersistMove(hash, w, p)
  }

  function RunAll(hash: Bytes -> Digest, w: World, moves: seq<Move>): World {
    if moves == [] then w else Advance(hash, RunAll(hash, w, moves[..|moves| - 1]), moves[|moves| - 1])
  }

  // ---------- what every reachable world satisfies ----------

  /** Thread `t` is a call of store for these bytes, or has failed. */
  predicate CallOf(s: System, t: nat, bytes: Bytes) {
    && t in s.threads
    && (s.threads[t].Failed? || s.threads[t].bytes == bytes)
    && (s.threads[t].Returned? ==> bytes in s.returned)
  }

  predicate PublisherOk(s: System, p: Publisher) {
    && (p.stage == StoringUpload ==> p.deferred && CallOf(s, p.call, p.upload))
    && (p.stage == StoringFinal ==> CallOf(s, p.call, p.final))
    && (p.stage == Persisting ==> p.final in s.returned)
    && (p.stage != StoringUpload && p.deferred ==> p.upload in s.returned)
  }

  predicate PublishersOk(w: World) {
    forall p | p in w.publishers :: PublisherOk(w.store, w.publishers[p])
  }

  ghost predicate CommittedStored(hash: Bytes -> Digest, w: World) {
    forall c | c in w.committed :: exists b :: b in w.store.returned && hash(b) == c
  }

  ghost predicate WorldOk(hash: Bytes -> Digest, w: World) {
    Inv(hash, w.store) && PublishersOk(w) && CommittedStored(hash, w)
  }

  lemma ThreadStepKeepsCall(hash: Bytes -> Digest, s: System, u: nat, step: Step, t: nat, bytes: Bytes)
    requires u in s.threads && CallOf(s, t, bytes)
    ensures CallOf(ThreadStep(hash, s, u, step), t, bytes)
  {
  }

  /** Any step but a crash keeps what is known about a call. */
  lemma StepKeepsCall(hash: Bytes -> Digest, s: System, step: Step, t: nat, bytes: Bytes)
    requires CallOf(s, t, bytes) && !(step.Crash? && CrashLeaves(s.disk, step.after))
    ensures CallOf(Next(hash, s, step), t, bytes)
  {
    match step
    case Begin(_, _) =>
    case Crash(_) =>
    case _ =>
      if step.t in s.threads {
        ThreadStepKeepsCall(hash, s, step.t, step, t, bytes);
      }
  }

  lemma StepKeepsPublisher(hash: Bytes -> Digest, s: System, step: Step, p: Publisher)
    requires PublisherOk(s, p) && !(step.Crash? && CrashLeaves(s.disk, step.after))
    ensures PublisherOk(Next(hash, s, step), p)
  {
    StepKeepsHistory(hash, s, step);
    if p.stage == StoringUpload {
      StepKeepsCall(hash, s, step, p.call, p.upload);
    }
    if p.stage == StoringFinal {
      StepKeepsCall(hash, s, step, p.call, p.final);
    }
  }

  lemma StepKeepsPublishers(hash: Bytes -> Digest, w: World, step: Step)
    requires PublishersOk(w) && !(step.Crash? && CrashLeaves(w.store.disk, step.after))
    ensures PublishersOk(w.(store := Next(hash, w.store, step)))
  {
    forall p | p in w.publishers
      ensures PublisherOk(Next(hash, w.store, step), w.publishers[p])
    {
      StepKeepsPublisher(hash, w.store, step, w.publishers[p]);
    }
  }

  lemma BegunIsCall(hash: Bytes -> Digest, s: System, t: nat, bytes: Bytes)
    requires t !in s.threads
    ensures CallOf(Next(hash, s, Begin(t, bytes)), t, bytes)
  {
  }

  /** A call that has returned has returned its own bytes. */
  lemma ReturnedCall(s: System, t: nat, bytes: Bytes)
    requires CallOf(s, t, bytes) && HasReturned(s, t)
    ensures bytes in s.returned
  {
  }

  lemma StartKeepsPublishers(hash: Bytes -> Digest, w: World, m: Move)
    requires PublishersOk(w) && m.Start?
    ensures PublishersOk(StartMove(hash, w, m))
  {
    if m.publisher !in w.publishers && m.call !in w.store.threads {
      var bytes := if m.deferred then m.upload else m.final;
      StepKeepsPublishers(hash, w, Begin(m.call, bytes));
      BegunIsCall(hash, w.store, m.call, bytes);
    }
  }

  lemma ProceedKeepsPublishers(hash: Bytes -> Digest, w: World, p: nat, call: nat)
    requires PublishersOk(w)
    ensures PublishersOk(ProceedMove(hash, w, p, call))
  {
    if p in w.publishers && HasReturned(w.store, w.publishers[p].call) {
      var q := w.publishers[p];
      assert PublisherOk(w.store, q);
      if q.stage == StoringUpload && call !in w.store.threads {
        ReturnedCall(w.store, q.call, q.upload);
        StepKeepsPublishers(hash, w, Begin(call, q.final));
        BegunIsCall(hash, w.store, call, q.final);
        StepKeepsHistory(hash, w.store, Begin(call, q.final));
      }
    }
  }

  lemma PersistCommitsStored(hash: Bytes -> Digest, w: World, p: nat)
    requires PublishersOk(w) && CommittedStored(hash, w)
    ensures CommittedStored(hash, PersistMove(hash, w, p))
  {
    if p in w.publishers && w.publishers[p].stage == Persisting {
      var q := w.publishers[p];
      assert PublisherOk(w.store, q);
      forall c | c in StoredDigests(hash, q)
        ensures exists b :: b in w.store.returned && hash(b) == c
      {
        var b := if c == hash(q.final) then q.final else q.upload;
        assert b in w.store.returned && hash(b) == c;
      }
    }
  }

  /** Only the object directory moved, by one step or not at all. */
  lemma StoreMoves(hash: Bytes -> Digest, w: World, m: Move) returns (step: Option<Step>)
    ensures Advance(hash, w, m).store == if step.Some? then Next(hash, w.store, step.value) else w.store
  {
    match m
    case Store(s) => step := Some(s);
    case Start(p, upload, final, deferred, call) =>
      step := if p in w.publishers || call in w.store.threads then None
              else Some(Begin(call, if deferred then upload else final));
    case Proceed(p, call) =>
      var begins := p in w.publishers && HasReturned(w.store, w.publishers[p].call) &&
                    w.publishers[p].stage == StoringUpload && call !in w.store.threads;
      step := if begins then Some(Begin(call, w.publishers[p].final)) else None;
    case Persist(_) => step := None;
  }

  lemma AdvanceKeepsStore(hash: Bytes -> Digest, w: World, m: Move)
    requires Inv(hash, w.store)
    ensures Inv(hash, Advance(hash, w, m).store) && w.store.returned <= Advance(hash, w, m).store.returned
  {
    var step := StoreMoves(hash, w, m);
    if step.Some? {
      StepKeepsInv(hash, w.store, step.value);
      StepKeepsHistory(hash, w.store, step.value);
    }
  }

  lemma AdvanceKeepsPublishers(hash: Bytes -> Digest, w: World, m: Move)
    requires PublishersOk(w)
    ensures PublishersOk(Advance(hash, w, m))
  {
    match m
    case Store(step) =>
      if !(step.Crash? && CrashLeaves(w.store.disk, step.after)) {
        StepKeepsPublishers(hash, w, step);
      }
    case Start(_, _, _, _, _) => StartKeepsPublishers(hash, w, m);
    case Proceed(p, call) => ProceedKeepsPublishers(hash, w, p, call);
    case Persist(_) =>
  }

  lemma StaysStored(hash: Bytes -> Digest, w: World, after: World)
    requires CommittedStored(hash, w) && after.committed == w.committed && w.store.returned <= after.store.returned
    ensures CommittedStored(hash, after)
  {
    forall c | c in after.committed
      ensures exists b :: b in after.store.returned && hash(b) == c
    {
      var b :| b in w.store.returned && hash(b) == c;
      assert b in after.store.returned;
    }
  }

  lemma AdvanceKeepsWorld(hash: Bytes -> Digest, w: World, m: Move)
    requires WorldOk(hash, w)
    ensures WorldOk(hash, Advance(hash, w, m)) && w.committed <= Advance(hash, w, m).committed
  {
    AdvanceKeepsStore(hash, w, m);
    AdvanceKeepsPublishers(hash, w, m);
    if m.Persist? {
      PersistCommitsStored(hash, w, m.publisher);
    } else {
      StaysStored(hash, w, Advance(hash, w, m));
    }
  }

  lemma {:induction false} RunKeepsWorld(hash: Bytes -> Digest, w: World, moves: seq<Move>)
    requires WorldOk(hash, w)
    ensures WorldOk(hash, RunAll(hash, w, moves)) && w.committed <= RunAll(hash, w, moves).committed
  {
    if moves != [] {
      var earlier := moves[..|moves| - 1];
      RunKeepsWorld(hash, w, earlier);
      AdvanceKeepsWorld(hash, RunAll(hash, w, earlier), moves[|moves| - 1]);
    }
  }

  lemma {:induction false} RunAllAppends(hash: Bytes -> Digest, w: World, a: seq<Move>, b: seq<Move>)
    ensures RunAll(hash, w, a + b) == RunAll(hash, RunAll(hash, w, a), b)
  {
    if b == [] {
      assert a + b == a;
    } else {
      assert (a + b)[..|a + b| - 1] == a + b[..|b| - 1];
      RunAllAppends(hash, w, a, b[..|b| - 1]);
    }
  }

  lemma StoredIsReadable(hash: Bytes -> Digest, s: System, bytes: Bytes)
    requires Inv(hash, s) && bytes in s.returned
    ensures var r := Read(hash, s.disk, hash(bytes)); r.Ok? && hash(r.value) == hash(bytes)
  {
    var name := Object(hash(bytes));
    assert name in s.disk.stable && name in s.disk.entries;
    assert Sound(hash, s.disk, hash(bytes), s.disk.entries[name]);
  }

  /** Whatever other publishers and callers do, and wherever a crash falls: once a publication is committed, the
      digests of the archives it stored, its final archive and, when the scan is deferred, the author's upload, stay
      readable for ever. */
  lemma {:induction false} CommittedDigestsAreReadable(hash: Bytes -> Digest, moves: seq<Move>, later: seq<Move>,
      digest: Digest)
    requires digest in RunAll(hash, BEGINNING, moves).committed
    ensures var r := Read(hash, RunAll(hash, BEGINNING, moves + later).store.disk, digest);
              r.Ok? && hash(r.value) == digest
  {
    RunKeepsWorld(hash, BEGINNING, moves);
    RunAllAppends(hash, BEGINNING, moves, later);
    RunKeepsWorld(hash, RunAll(hash, BEGINNING, moves), later);
    var w := RunAll(hash, BEGINNING, moves + later);
    var b :| b in w.store.returned && hash(b) == digest;
    StoredIsReadable(hash, w.store, b);
  }
}
