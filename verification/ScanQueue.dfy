/** Fairness of the claim order: a due job waits for every other job at most once. */
module ScanQueue {
  import opened Wrappers
  import opened ScanTables
  import opened WorkerDecisions
  import opened ScanProtocol
  import opened ScanSafety
  import opened ScanBudget

  /** A job that could be claimed at any clock reading from `due` on. */
  predicate Waiting(db: Db, x: string, due: Time) {
    x in db.jobs && !Terminal(db.jobs[x].state) && db.jobs[x].leaseOwner.None? && db.jobs[x].nextAttempt <= due
  }

  /** A step of a run in which the clock has reached `due`, no claim takes over an expired lease, and `x` is not
      claimed. */
  predicate Passes(s: System, step: Step, x: string, due: Time) {
    && (step.Claim? ==> due <= step.now)
    && (step.Act? ==> due <= step.now)
    && !Takes(s, step, x)
    && (step.Claim? && Takes(s, step, step.id) ==> s.db.jobs[step.id].leaseOwner.None?)
  }

  ghost predicate AllPass(p: Policy, s: System, steps: seq<Step>, x: string, due: Time)
  {
    forall i | 0 <= i < |steps| :: Passes(Run(p, s, steps[..i]), steps[i], x, due)
  }

  function AttemptsAt(db: Db, id: string): nat {
    if id in db.jobs then db.jobs[id].attempts else 0
  }

  /** A job that cannot be claimed ahead of the waiting one again. */
  predicate Behind(j: Job, due: Time) {
    Terminal(j.state) || j.leaseOwner.Some? || due < j.nextAttempt
  }

  /** Another job since the start of the wait: not claimed, or claimed once and now behind. */
  predicate Overtook(start: Db, db: Db, x: string, id: string)
    requires x in start.jobs
  {
    id in db.jobs && id != x ==>
      || AttemptsAt(db, id) == AttemptsAt(start, id)
      || (AttemptsAt(db, id) == AttemptsAt(start, id) + 1 && Behind(db.jobs[id], start.jobs[x].nextAttempt))
  }

  /** A decision about a claim made during the wait reschedules past the waiting job. */
  predicate LandsBehind(start: Db, x: string, l: Local)
    requires x in start.jobs
  {
    l.Decided? && l.rec.attempts > AttemptsAt(start, l.id) && NextRun(l.action).Some? ==>
      start.jobs[x].nextAttempt < NextRun(l.action).value
  }

  /** Another job that was unleased and queued strictly after the waiting one. */
  predicate Later(start: Db, x: string, id: string)
    requires x in start.jobs
  {
    id in start.jobs && start.jobs[id].leaseOwner.None? && !QueuedNoLater(start.jobs[id], start.jobs[x])
  }

  ghost predicate RowsWait(start: Db, db: Db, x: string)
    requires x in start.jobs
  {
    && (forall id | id in start.jobs :: id in db.jobs)
    && db.jobs[x] == start.jobs[x]
    && (forall id | id in db.jobs :: Overtook(start, db, x, id))
    && (forall id | id in start.jobs && Later(start, x, id) :: db.jobs[id] == start.jobs[id])
  }

  ghost predicate LocalsWait(start: Db, workers: map<string, Local>, x: string)
    requires x in start.jobs
  {
    forall w | w in workers :: LandsBehind(start, x, workers[w])
  }

  /** Changing one row, other than the waiting one and the ones queued after it. */
  lemma OneRowWaits(start: Db, db: Db, after: Db, x: string, id: string)
    requires x in start.jobs && RowsWait(start, db, x)
    requires id in db.jobs && id in after.jobs && after.jobs == db.jobs[id := after.jobs[id]]
    requires id != x && !Later(start, x, id) && Overtook(start, after, x, id)
    ensures RowsWait(start, after, x)
  {
    forall other | other in after.jobs
      ensures Overtook(start, after, x, other)
    {
      assert Overtook(start, db, x, other);
    }
  }

  lemma NewRowsWait(start: Db, db: Db, after: Db, x: string)
    requires x in start.jobs && RowsWait(start, db, x)
    requires forall id | id in db.jobs :: id in after.jobs && after.jobs[id] == db.jobs[id]
    requires forall id | id in after.jobs && id !in db.jobs :: after.jobs[id].attempts == 0
    ensures RowsWait(start, after, x)
  {
    forall other | other in after.jobs
      ensures Overtook(start, after, x, other)
    {
      assert other in db.jobs ==> Overtook(start, db, x, other);
    }
  }

  /** A claim during the wait takes a job that has not passed yet. */
  lemma ClaimWaits(max: nat, start: Db, db: Db, x: string, due: Time, w: string, id: string, now: Time, lease: Time)
    requires DbOk(max, db) && Waiting(start, x, due) && RowsWait(start, db, x)
    requires IsCandidate(db, id, now) && due <= now && id != x && db.jobs[id].leaseOwner.None?
    ensures ClaimDue(db, id, w, now, lease).Ok? && RowsWait(start, ClaimDue(db, id, w, now, lease).value.0, x)
  {
    ClaimKeepsDb(max, db, id, w, now, lease);
    assert JobOk(max, db.jobs[x]);
    assert Claimable(db.jobs[x], now);
    assert QueuedNoLater(db.jobs[id], db.jobs[x]);
    assert Overtook(start, db, x, id);
    OneRowWaits(start, db, ClaimDue(db, id, w, now, lease).value.0, x, id);
  }

  lemma NextAttemptWritten(max: nat, db: Db, id: string, w: string, rec: Job, a: Action, now: Time)
    requires DbOk(max, db) && Fenced(max, db, w, Decided(id, rec, a)) && !a.Retry? && id in db.jobs
    requires Kept(db, CommitAction(db, id, w, a, now)).jobs != db.jobs
    ensures var after := Kept(db, CommitAction(db, id, w, a, now));
            id in after.jobs && (Terminal(after.jobs[id].state) ||
                (NextRun(a).Some? && after.jobs[id].nextAttempt == NextRun(a).value))
  {
    if a.Finish? {
      assert HoldsLease(db, id, w, now) && !Terminal(db.jobs[id].state);
      CompletionKeepsDb(max, db, id, w, a.outcome, now);
    }
  }

  lemma CommitWaits(max: nat, start: Db, db: Db, x: string, due: Time, id: string, w: string, rec: Job, a: Action,
      now: Time)
    requires DbOk(max, db) && Waiting(start, x, due) && RowsWait(start, db, x)
    requires Fenced(max, db, w, Decided(id, rec, a)) && !a.Retry? && LandsBehind(start, x, Decided(id, rec, a))
    ensures RowsWait(start, Kept(db, CommitAction(db, id, w, a, now)), x)
  {
    var after := Kept(db, CommitAction(db, id, w, a, now));
    CommitEffect(max, db, id, w, rec, a, now);
    if after.jobs != db.jobs {
      NextAttemptWritten(max, db, id, w, rec, a, now);
      assert Overtook(start, db, x, id);
      OneRowWaits(start, db, after, x, id);
    } else {
      NewRowsWait(start, db, after, x);
    }
  }

  lemma ActWaits(p: Policy, start: Db, s: System, x: string, due: Time, w: string, reply: Reply, now: Time,
      jitter: real)
    requires ValidPolicy(p) && Waiting(start, x, due) && LocalsWait(start, s.workers, x) && due <= now
    ensures LocalsWait(start, ActStep(p, s, w, reply, now, jitter).workers, x)
  {
    var l := LocalOf(s, w);
    if l.Claimed? && 0.0 <= jitter <= p.jitter {
      RescheduleIsBounded(p, l.rec, l.at, reply, now, jitter);
    }
  }

  lemma LocalsKeepWaiting(p: Policy, start: Db, s: System, x: string, step: Step)
    requires x in start.jobs && LocalsWait(start, s.workers, x) && !step.Act?
    ensures LocalsWait(start, Next(p, s, step).workers, x)
  {
    if step.ReadBack? {
      assert LocalOf(s, step.worker).Decided? ==> LandsBehind(start, x, LocalOf(s, step.worker));
    }
  }

  lemma PublishRowsWait(start: Db, db: Db, x: string, u: Upload, now: Time)
    requires x in start.jobs && RowsWait(start, db, x)
    ensures RowsWait(start, Kept(db, CreatePublication(db, u, now)), x)
  {
    if CreatePublication(db, u, now).Ok? {
      PublishEffect(db, u, now);
      NewRowsWait(start, db, CreatePublication(db, u, now).value, x);
    }
  }

  lemma ReviewRowsWait(max: nat, start: Db, db: Db, x: string, pub: string, target: SkillStatus, actor: string,
      key: string)
    requires DbOk(max, db) && x in start.jobs && RowsWait(start, db, x)
    ensures RowsWait(start, Kept(db, TransitionSkill(db, pub, target, actor, key)), x)
  {
    if TransitionSkill(db, pub, target, actor, key).Ok? {
      ReviewKeepsDb(max, db, pub, target, actor, key);
      NewRowsWait(start, db, TransitionSkill(db, pub, target, actor, key).value, x);
    }
  }

  lemma CommitRowsWait(p: Policy, start: Db, s: System, x: string, due: Time, w: string, now: Time)
    requires Inv(p, s) && Waiting(start, x, due) && RowsWait(start, s.db, x) && LocalsWait(start, s.workers, x)
    ensures RowsWait(start, CommitStep(s, w, now).db, x)
  {
    var l := LocalOf(s, w);
    if l.Decided? && !l.action.Retry? {
      assert Fenced(p.maximumAttempts, s.db, w, l) && LandsBehind(start, x, l);
      CommitWaits(p.maximumAttempts, start, s.db, x, due, l.id, w, l.rec, l.action, now);
    }
  }

  lemma ClaimRowsWait(p: Policy, start: Db, s: System, x: string, due: Time, w: string, id: string, now: Time)
    requires Inv(p, s) && Waiting(start, x, due) && RowsWait(start, s.db, x) && Passes(s, Claim(w, id, now), x, due)
    ensures RowsWait(start, ClaimStep(p, s, w, id, now).db, x)
  {
    if Takes(s, Claim(w, id, now), id) {
      ClaimWaits(p.maximumAttempts, start, s.db, x, due, w, id, now, p.leaseSeconds as real);
    }
  }

  lemma RowsKeepWaiting(p: Policy, start: Db, s: System, x: string, due: Time, step: Step)
    requires Inv(p, s) && Waiting(start, x, due) && RowsWait(start, s.db, x) && LocalsWait(start, s.workers, x)
    requires Passes(s, step, x, due)
    ensures RowsWait(start, NextDb(p, s, step), x)
  {
    match step
    case Publish(u, now) => PublishRowsWait(start, s.db, x, u, now);
    case Review(pub, target, actor, key) => ReviewRowsWait(p.maximumAttempts, start, s.db, x, pub, target, actor, key);
    case Claim(w, id, now) => ClaimRowsWait(p, start, s, x, due, w, id, now);
    case Commit(w, now) => CommitRowsWait(p, start, s, x, due, w, now);
    case _ =>
  }

  lemma StepWaits(p: Policy, start: Db, s: System, x: string, due: Time, step: Step)
    requires ValidPolicy(p) && Inv(p, s) && Waiting(start, x, due) && Passes(s, step, x, due)
    requires RowsWait(start, s.db, x) && LocalsWait(start, s.workers, x)
    ensures RowsWait(start, Next(p, s, step).db, x) && LocalsWait(start, Next(p, s, step).workers, x)
  {
    RowsKeepWaiting(p, start, s, x, due, step);
    NextTables(p, s, step);
    match step
    case Act(w, reply, now, jitter) => ActWaits(p, start, s, x, due, w, reply, now, jitter);
    case _ => LocalsKeepWaiting(p, start, s, x, step);
  }

  lemma EarlierPass(p: Policy, s: System, steps: seq<Step>, x: string, due: Time)
    requires AllPass(p, s, steps, x, due) && steps != []
    ensures AllPass(p, s, steps[..|steps| - 1], x, due)
    ensures Passes(Run(p, s, steps[..|steps| - 1]), steps[|steps| - 1], x, due)
  {
    var earlier := steps[..|steps| - 1];
    forall i | 0 <= i < |earlier|
      ensures Passes(Run(p, s, earlier[..i]), earlier[i], x, due)
    {
      assert earlier[..i] == steps[..i];
      assert Passes(Run(p, s, steps[..i]), steps[i], x, due);
    }
  }

  lemma {:induction false} RunWaits(p: Policy, s: System, x: string, due: Time, steps: seq<Step>)
    requires ValidPolicy(p) && Inv(p, s) && Waiting(s.db, x, due) && AllPass(p, s, steps, x, due)
    ensures RowsWait(s.db, Run(p, s, steps).db, x) && LocalsWait(s.db, Run(p, s, steps).workers, x)
  {
    if steps == [] {
      forall w | w in s.workers
        ensures LandsBehind(s.db, x, s.workers[w])
      {
        assert Fenced(p.maximumAttempts, s.db, w, s.workers[w]);
      }
    } else {
      var n := |steps| - 1;
      var earlier := steps[..n];
      EarlierPass(p, s, steps, x, due);
      RunWaits(p, s, x, due, earlier);
      RunKeepsInv(p, s, earlier);
      StepWaits(p, s.db, Run(p, s, earlier), x, due, steps[n]);
    }
  }

  ghost predicate PassedOnce(p: Policy, s: System, later: seq<Step>, x: string, other: string)
    requires x in s.db.jobs
  {
    && (other in s.db.jobs ==> Claims(p, s, later, other) <= 1)
    && (Later(s.db, x, other) ==> Claims(p, s, later, other) == 0)
    && AttemptsAt(Run(p, s, later).db, other) <= AttemptsAt(s.db, other) + 1
  }

  lemma {:induction false} PassedOnceFrom(p: Policy, s: System, later: seq<Step>, x: string, due: Time, other: string)
    requires ValidPolicy(p) && Inv(p, s) && Waiting(s.db, x, due) && AllPass(p, s, later, x, due) && other != x
    ensures PassedOnce(p, s, later, x, other)
  {
    RunWaits(p, s, x, due, later);
    var t := Run(p, s, later).db;
    assert other in t.jobs ==> Overtook(s.db, t, x, other);
    if other in s.db.jobs {
      ClaimsCountAttempts(p, s, later, other);
    }
  }

  /** Bounded bypass. Take any reachable state with a due, unleased job, and any continuation in which the clock
      does not run back before that moment, no claim takes over an expired lease, and the job itself is not claimed.
      Then every other job is claimed at most once meanwhile, and a job that was unleased and queued strictly after
      it is not claimed at all. A crash by itself does no harm: the crashed worker's job stays leased and so cannot
      pass again. */
  lemma {:induction false} WaitingJobIsPassedOnceByEach(p: Policy, steps: seq<Step>, later: seq<Step>, x: string,
      due: Time, other: string)
    requires ValidPolicy(p) && Waiting(Run(p, START, steps).db, x, due)
    requires AllPass(p, Run(p, START, steps), later, x, due) && other != x
    ensures PassedOnce(p, Run(p, START, steps), later, x, other)
  {
    ReachableInv(p, steps);
    PassedOnceFrom(p, Run(p, START, steps), later, x, due, other);
  }
}
