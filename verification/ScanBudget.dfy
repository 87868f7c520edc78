/** The attempt budget: how often a job can reach the provider, and how many claims it can take. */
module ScanBudget {
  import opened Wrappers
  import opened ScanTables
  import opened WorkerDecisions
  import opened ScanProtocol
  import opened ScanSafety
  import opened ScanVisibility
  import opened ScanKeys

  // ---------- provider calls ----------

  ghost predicate CallsBounded(max: nat, s: System) {
    forall c | c in s.calls :: c.job in s.db.jobs && 1 <= c.attempt <= max && c.attempt <= s.db.jobs[c.job].attempts
  }

  ghost predicate NotYetCalled(s: System) {
    forall w | w in s.workers && s.workers[w].Claimed? :: Call(s.workers[w].id, s.workers[w].rec.attempts) !in s.calls
  }

  ghost predicate SameAttempt(a: Local, b: Local) {
    !a.Idle? && !b.Idle? && a.id == b.id && a.rec.attempts == b.rec.attempts
  }

  ghost predicate AttemptsApart(s: System) {
    forall v, w | v in s.workers && w in s.workers && SameAttempt(s.workers[v], s.workers[w]) :: v == w
  }

  /** Calls are made at distinct attempt numbers within the budget; a worker that has not acted yet has not called;
      and no two workers hold records of one job with the same attempt number. */
  ghost predicate CallsOk(p: Policy, s: System) {
    CallsBounded(p.maximumAttempts, s) && Distinct(s.calls) && NotYetCalled(s) && AttemptsApart(s)
  }

  /** A worker takes up a row with a new attempt number; nothing else that matters for calls changes. */
  ghost predicate TakesUp(max: nat, s: System, after: System, w: string, id: string) {
    && id in s.db.jobs && id in after.db.jobs && after.calls == s.calls
    && (forall j | j in s.db.jobs :: j in after.db.jobs && s.db.jobs[j].attempts <= after.db.jobs[j].attempts)
    && w in after.workers && after.workers == s.workers[w := after.workers[w]]
    && after.workers[w].Claimed? && after.workers[w].id == id
    && after.workers[w].rec.attempts == s.db.jobs[id].attempts + 1
  }

  lemma TakingUpKeepsCalls(p: Policy, s: System, after: System, w: string, id: string)
    requires Inv(p, s) && CallsOk(p, s) && TakesUp(p.maximumAttempts, s, after, w, id)
    ensures CallsOk(p, after)
  {
    forall v | v in s.workers
      ensures !SameAttempt(s.workers[v], after.workers[w])
    {
      assert Fenced(p.maximumAttempts, s.db, v, s.workers[v]);
    }
    TakingUpKeepsApart(s, after, w);
  }

  lemma TakingUpKeepsApart(s: System, after: System, w: string)
    requires AttemptsApart(s) && w in after.workers && after.workers == s.workers[w := after.workers[w]]
    requires forall v | v in s.workers :: !SameAttempt(s.workers[v], after.workers[w])
    ensures AttemptsApart(after)
  {
  }

  lemma ClaimTakesUp(p: Policy, s: System, w: string, id: string, now: Time)
    requires Inv(p, s) && LocalOf(s, w).Idle? && IsCandidate(s.db, id, now)
    ensures TakesUp(p.maximumAttempts, s, ClaimStep(p, s, w, id, now), w, id)
  {
    var rec := ClaimLeases(p, s, w, id, now);
    LeaseTakesUp(p.maximumAttempts, s, ClaimStep(p, s, w, id, now), w, id, now, rec);
  }

  lemma LeaseTakesUp(max: nat, s: System, after: System, w: string, id: string, now: Time, rec: Job)
    requires Leases(max, s, after, w, id, now, rec)
    ensures TakesUp(max, s, after, w, id)
  {
  }

  lemma ClaimKeepsCalls(p: Policy, s: System, w: string, id: string, now: Time)
    requires Inv(p, s) && CallsOk(p, s)
    ensures CallsOk(p, ClaimStep(p, s, w, id, now))
  {
    if LocalOf(s, w).Idle? && IsCandidate(s.db, id, now) {
      ClaimTakesUp(p, s, w, id, now);
      TakingUpKeepsCalls(p, s, ClaimStep(p, s, w, id, now), w, id);
    }
  }

  lemma ActKeepsCalls(p: Policy, s: System, w: string, reply: Reply, now: Time, jitter: real)
    requires CallsOk(p, s)
    requires Fenced(p.maximumAttempts, s.db, w, LocalOf(s, w))
    ensures CallsOk(p, ActStep(p, s, w, reply, now, jitter))
  {
    var l := LocalOf(s, w);
    var after := ActStep(p, s, w, reply, now, jitter);
    if after != s {
      forall v, u | v in after.workers && u in after.workers && SameAttempt(after.workers[v], after.workers[u])
        ensures v == u
      {
        assert SameAttempt(s.workers[v], s.workers[u]);
      }
      forall v | v in after.workers && after.workers[v].Claimed?
        ensures Call(after.workers[v].id, after.workers[v].rec.attempts) !in after.calls
      {
        assert !SameAttempt(s.workers[v], l);
      }
    }
  }

  /** Apart from claiming and acting, a step only lets workers keep their record or drop it. */
  ghost predicate LocalsShrink(s: System, t: System) {
    && t.calls == s.calls
    && forall w | w in t.workers && !t.workers[w].Idle? ::
         && w in s.workers && !s.workers[w].Idle?
         && t.workers[w].id == s.workers[w].id && t.workers[w].rec == s.workers[w].rec
         && (t.workers[w].Claimed? ==> s.workers[w].Claimed?)
  }

  lemma OtherStepsShrink(p: Policy, s: System, step: Step)
    requires !step.Claim? && !step.Act?
    ensures LocalsShrink(s, Next(p, s, step))
  {
  }

  lemma CallsSurvive(p: Policy, s: System, t: System)
    requires CallsOk(p, s) && Evolves(s.db, t.db) && LocalsShrink(s, t)
    ensures CallsOk(p, t)
  {
    forall v, w | v in t.workers && w in t.workers && SameAttempt(t.workers[v], t.workers[w])
      ensures v == w
    {
      assert SameAttempt(s.workers[v], s.workers[w]);
    }
  }

  lemma StepKeepsCalls(p: Policy, s: System, step: Step)
    requires Inv(p, s) && CallsOk(p, s)
    ensures CallsOk(p, Next(p, s, step))
  {
    if step.Claim? {
      ClaimKeepsCalls(p, s, step.worker, step.id, step.now);
    } else if step.Act? {
      assert Fenced(p.maximumAttempts, s.db, step.worker, LocalOf(s, step.worker));
      ActKeepsCalls(p, s, step.worker, step.reply, step.now, step.jitter);
    } else {
      StepEvolves(p, s, step);
      OtherStepsShrink(p, s, step);
      CallsSurvive(p, s, Next(p, s, step));
    }
  }

  lemma {:induction false} ReachableCalls(p: Policy, steps: seq<Step>)
    ensures CallsOk(p, Run(p, START, steps))
  {
    if steps != [] {
      var earlier := steps[..|steps| - 1];
      ReachableCalls(p, earlier);
      ReachableInv(p, earlier);
      StepKeepsCalls(p, Run(p, START, earlier), steps[|steps| - 1]);
    }
  }

  function CallsFor(calls: seq<Call>, id: string): seq<nat> {
    if calls == [] then []
    else
      var c := calls[|calls| - 1];
      CallsFor(calls[..|calls| - 1], id) + (if c.job == id then [c.attempt] else [])
  }

  lemma {:induction false} CallsForMembers(calls: seq<Call>, id: string)
    requires Distinct(calls)
    ensures Distinct(CallsFor(calls, id))
    ensures forall a | a in CallsFor(calls, id) :: Call(id, a) in calls
  {
    if calls != [] {
      var front := calls[..|calls| - 1];
      var c := calls[|calls| - 1];
      CallsForMembers(front, id);
      assert c !in front;
    }
  }

  /** Distinct numbers from 1 to n are at most n many. */
  lemma {:induction false} Pigeonhole(xs: seq<nat>, n: nat)
    requires Distinct(xs)
    requires forall x | x in xs :: 1 <= x <= n
    ensures |xs| <= n
  {
    if xs == [] {
      return;
    }
    var first := xs[0];
    assert first in xs;
    if n !in xs {
      Pigeonhole(xs, n - 1);
    } else {
      var k :| 0 <= k < |xs| && xs[k] == n;
      var rest := xs[..k] + xs[k + 1..];
      forall x | x in rest
        ensures 1 <= x <= n - 1
      {
        assert x in xs;
      }
      Pigeonhole(rest, n - 1);
    }
  }

  /** Across all workers, crashes and restarts, a job reaches the provider at most as often as the policy allows. */
  lemma {:induction false} ProviderCallsWithinBudget(p: Policy, steps: seq<Step>, id: string)
    ensures |CallsFor(Run(p, START, steps).calls, id)| <= p.maximumAttempts
  {
    ReachableCalls(p, steps);
    var calls := Run(p, START, steps).calls;
    CallsForMembers(calls, id);
    Pigeonhole(CallsFor(calls, id), p.maximumAttempts);
  }

  // ---------- claims ----------

  /** Whether a step is a claim of the job that succeeds. */
  predicate Takes(s: System, step: Step, id: string) {
    step.Claim? && step.id == id && LocalOf(s, step.worker).Idle? && IsCandidate(s.db, id, step.now)
  }

  function Claims(p: Policy, s: System, steps: seq<Step>, id: string): nat {
    if steps == [] then 0
    else
      var earlier := steps[..|steps| - 1];
      Claims(p, s, earlier, id) + (if Takes(Run(p, s, earlier), steps[|steps| - 1], id) then 1 else 0)
  }

  lemma CommitKeepsAttempts(db: Db, id: string, w: string, a: Action, now: Time, job: string)
    requires job in db.jobs
    ensures var after := Kept(db, CommitAction(db, id, w, a, now));
            job in after.jobs && after.jobs[job].attempts == db.jobs[job].attempts
  {
    if a.Finish? && Complete(db, id, w, a.outcome, now).Ok? && HoldsLease(db, id, w, now) &&
        !Terminal(db.jobs[id].state) {
      var done := Finished(db, id, w, a.outcome, now);
      var row := CompletionAudit(done, id, w, a.outcome.state);
      if row.Some? {
        InsertAuditEvolves(done, row.value);
      }
    }
  }

  lemma ClaimAttempts(p: Policy, s: System, w: string, other: string, now: Time, id: string)
    requires DbOk(p.maximumAttempts, s.db) && id in s.db.jobs
    ensures var t := ClaimStep(p, s, w, other, now).db;
            id in t.jobs && t.jobs[id].attempts ==
                s.db.jobs[id].attempts + (if Takes(s, Claim(w, other, now), id) then 1 else 0)
  {
    if LocalOf(s, w).Idle? && IsCandidate(s.db, other, now) {
      var rec := ClaimLeases(p, s, w, other, now);
    }
  }

  lemma PublishAttempts(db: Db, u: Upload, now: Time, id: string)
    requires id in db.jobs
    ensures var t := Kept(db, CreatePublication(db, u, now)); id in t.jobs && t.jobs[id] == db.jobs[id]
  {
    if CreatePublication(db, u, now).Ok? {
      PublishEffect(db, u, now);
    }
  }

  lemma ReviewAttempts(db: Db, pub: string, target: SkillStatus, actor: string, key: string)
    ensures Kept(db, TransitionSkill(db, pub, target, actor, key)).jobs == db.jobs
  {
    if TransitionSkill(db, pub, target, actor, key).Ok? {
      InsertAuditEvolves(db, AuditRow(pub, db.skills[pub].revision + 1, actor, PriorStatus(target), target, key));
    }
  }

  lemma CommitAttempts(s: System, w: string, now: Time, id: string)
    requires id in s.db.jobs
    ensures var t := CommitStep(s, w, now).db; id in t.jobs && t.jobs[id].attempts == s.db.jobs[id].attempts
  {
    var l := LocalOf(s, w);
    if l.Decided? {
      CommitKeepsAttempts(s.db, l.id, w, l.action, now, id);
    }
  }

  lemma StepAttempts(p: Policy, s: System, step: Step, id: string)
    requires DbOk(p.maximumAttempts, s.db) && id in s.db.jobs
    ensures var t := Next(p, s, step).db;
            id in t.jobs && t.jobs[id].attempts == s.db.jobs[id].attempts + (if Takes(s, step, id) then 1 else 0)
  {
    NextTables(p, s, step);
    TablesAttempts(p, s, step, id);
  }

  lemma TablesAttempts(p: Policy, s: System, step: Step, id: string)
    requires DbOk(p.maximumAttempts, s.db) && id in s.db.jobs
    ensures var t := NextDb(p, s, step);
            id in t.jobs && t.jobs[id].attempts == s.db.jobs[id].attempts + (if Takes(s, step, id) then 1 else 0)
  {
    match step
    case Publish(u, now) => PublishAttempts(s.db, u, now, id);
    case Review(pub, target, actor, key) => ReviewAttempts(s.db, pub, target, actor, key);
    case Claim(w, other, now) => ClaimAttempts(p, s, w, other, now, id);
    case Commit(w, now) => CommitAttempts(s, w, now, id);
    case _ =>
  }

  /** Claims, and nothing else, use up attempts. */
  lemma {:induction false} ClaimsCountAttempts(p: Policy, s: System, steps: seq<Step>, id: string)
    requires Inv(p, s) && id in s.db.jobs
    ensures var t := Run(p, s, steps).db;
            id in t.jobs && t.jobs[id].attempts == s.db.jobs[id].attempts + Claims(p, s, steps, id)
  {
    if steps != [] {
      var earlier := steps[..|steps| - 1];
      ClaimsCountAttempts(p, s, earlier, id);
      RunKeepsInv(p, s, earlier);
      StepAttempts(p, Run(p, s, earlier), steps[|steps| - 1], id);
    }
  }

  /** Beyond the budget a released job is finished: no job can be unleased, unfinished and out of attempts. */
  lemma ReleasedBeyondBudgetIsFinished(p: Policy, s: System, later: seq<Step>, id: string)
    requires Inv(p, s) && id in s.db.jobs
    ensures var t := Run(p, s, later).db;
            && id in t.jobs
            && (s.db.jobs[id].attempts + Claims(p, s, later, id) > p.maximumAttempts && t.jobs[id].leaseOwner.None? ==>
                  Terminal(t.jobs[id].state))
            && (Terminal(s.db.jobs[id].state) ==> Claims(p, s, later, id) == 0)
  {
    ClaimsCountAttempts(p, s, later, id);
    RunKeepsInv(p, s, later);
    RunEvolves(p, s, later);
    assert JobOk(p.maximumAttempts, Run(p, s, later).db.jobs[id]);
  }

  lemma FurtherClaimsFrom(p: Policy, s: System, later: seq<Step>, w: string, now: Time, id: string)
    requires Inv(p, s) && id in s.db.jobs && InTime(Run(p, s, later), w, now) && LocalOf(Run(p, s, later), w).id == id
    requires Written(Next(p, Run(p, s, later), Commit(w, now)).db, LocalOf(Run(p, s, later), w))
    requires s.db.jobs[id].attempts + Claims(p, s, later, id) > p.maximumAttempts
    ensures Terminal(Next(p, Run(p, s, later), Commit(w, now)).db.jobs[id].state)
  {
    var m := Run(p, s, later);
    var t := Next(p, m, Commit(w, now));
    ClaimsCountAttempts(p, s, later, id);
    RunKeepsInv(p, s, later);
    StepAttempts(p, m, Commit(w, now), id);
    StepKeepsInv(p, m, Commit(w, now));
    assert JobOk(p.maximumAttempts, t.db.jobs[id]);
  }

  /** Termination of every job whose last worker finishes within its lease. Take any reachable state in which the
      job has had k attempts, and any continuation in which it is claimed at least maximumAttempts + 1 - k times and
      at whose end a worker writes its outcome under an unexpired lease. Then the job is finished, however many of
      the other workers crashed; and a finished job is never claimed again. */
  lemma {:induction false} FurtherClaimsAreBounded(
      p: Policy, ids: set<string>, steps: seq<Step>, later: seq<Step>, w: string, now: Time, id: string)
    requires AllApart(ids, steps + later) && w in ids && id in Run(p, START, steps).db.jobs
    requires var t := Run(p, START, steps + later); InTime(t, w, now) && LocalOf(t, w).id == id
    ensures var k := Run(p, START, steps).db.jobs[id].attempts;
            var n := Claims(p, Run(p, START, steps), later, id);
            var after := Next(p, Run(p, START, steps + later), Commit(w, now)).db;
            && id in after.jobs && after.jobs[id].leaseOwner.None?
            && (k + n >= p.maximumAttempts + 1 ==> Terminal(after.jobs[id].state))
            && (Terminal(Run(p, START, steps).db.jobs[id].state) ==> n == 0)
  {
    var s := Run(p, START, steps);
    ReachableInv(p, steps);
    RunAppends(p, START, steps, later);
    SeparateWorkersCommit(p, ids, steps + later, w, now);
    ReleasedBeyondBudgetIsFinished(p, s, later, id);
    if s.db.jobs[id].attempts + Claims(p, s, later, id) > p.maximumAttempts {
      FurtherClaimsFrom(p, s, later, w, now, id);
    }
  }

  // ---------- runs in which every worker finishes within its lease ----------

  /** Every claim of the job, but for the first, finds it released by the worker before. */
  ghost predicate Punctual(p: Policy, s: System, steps: seq<Step>, id: string) {
    forall i | 0 <= i < |steps| && Takes(Run(p, s, steps[..i]), steps[i], id) && Claims(p, s, steps[..i], id) > 0 ::
      Run(p, s, steps[..i]).db.jobs[id].leaseOwner.None?
  }

  lemma EarlierPunctual(p: Policy, s: System, steps: seq<Step>, id: string)
    requires Punctual(p, s, steps, id) && steps != []
    ensures Punctual(p, s, steps[..|steps| - 1], id)
  {
    var earlier := steps[..|steps| - 1];
    forall i | 0 <= i < |earlier|
      ensures earlier[..i] == steps[..i] && earlier[i] == steps[i]
    {
    }
  }

  lemma {:induction false} PunctualClaims(p: Policy, s: System, steps: seq<Step>, id: string)
    requires Inv(p, s) && id in s.db.jobs && Punctual(p, s, steps, id)
    ensures Claims(p, s, steps, id) <= 1 || s.db.jobs[id].attempts + Claims(p, s, steps, id) <= p.maximumAttempts + 1
  {
    if steps != [] {
      var earlier := steps[..|steps| - 1];
      EarlierPunctual(p, s, steps, id);
      PunctualClaims(p, s, earlier, id);
      RunKeepsInv(p, s, earlier);
      ClaimsCountAttempts(p, s, earlier, id);
      assert JobOk(p.maximumAttempts, Run(p, s, earlier).db.jobs[id]);
    }
  }

  /** When every worker finishes within its lease, a job that has had k attempts is claimed at most
      max(1, maximumAttempts + 1 - k) more times, for ever. */
  lemma {:induction false} PunctualClaimsAreBounded(p: Policy, steps: seq<Step>, later: seq<Step>, id: string)
    requires id in Run(p, START, steps).db.jobs && Punctual(p, Run(p, START, steps), later, id)
    ensures var k := Run(p, START, steps).db.jobs[id].attempts;
            var n := Claims(p, Run(p, START, steps), later, id);
            n <= 1 || n <= p.maximumAttempts + 1 - k
  {
    ReachableInv(p, steps);
    PunctualClaims(p, Run(p, START, steps), later, id);
  }
}
