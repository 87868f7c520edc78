/** The worker as an object. Its methods are the stretches of one run between two points where other workers may
    act, so a protocol step is one call; `RunOnce` makes the calls of one run in a row. */
module ScanWorker {
  import opened Wrappers
  import opened ScanEvidence
  import opened ScanTables
  import opened WorkerDecisions
  import opened ScanProtocol
  import opened ScanRepository

  /** Whether a decided completion finishes its job. */
  predicate Changes(db: Db, l: Local, w: string, now: Time)
    requires l.Decided?
  {
    l.action.Finish? && var r := Complete(db, l.id, w, l.action.outcome, now); r.Ok? && r.value.1
  }

  predicate GaveUp(l: Local) {
    l.Decided? && l.action.Finish? && l.action.outcome.state == Exhausted
  }

  predicate WasJudged(l: Local) {
    l.Decided? && l.action.Finish? && l.action.outcome.state != Exhausted && l.action.outcome.verdict != UNAVAILABLE
  }

  class Worker {
    const id: string
    const policy: Policy
    const repository: Repository
    var local: Local
    var claims: nat
    var submissions: nat
    var polls: nat
    var rateLimits: nat
    var exhausted: nat
    var completed: nat

    constructor (id: string, policy: Policy, repository: Repository)
      ensures this.id == id && this.policy == policy && this.repository == repository && local == Idle
      ensures claims == submissions == polls == rateLimits == exhausted == completed == 0
    {
      this.id, this.policy, this.repository := id, policy, repository;
      local := Idle;
      claims, submissions, polls, rateLimits, exhausted, completed := 0, 0, 0, 0, 0, 0;
    }

    ghost predicate Valid() {
      0 < |id| <= MAX_WORKER_ID && ValidPolicy(policy)
    }

    /** This worker and its tables as a system of one worker. */
    ghost function Alone(): System
      reads this, repository
    {
      System(repository.Tables(), map[id := local], [])
    }

    /** Whether the object now agrees with a system state. */
    ghost predicate Shows(s: System)
      reads this, repository
    {
      repository.Tables() == s.db && local == LocalOf(s, id)
    }

    method Begin(now: Time) returns (job: Option<string>)
      requires Valid() && local.Idle?
      modifies this`local, this`claims, repository
      ensures job.None? ==> repository.Tables() == old(repository.Tables()) && local == Idle && claims == old(claims)
      ensures job.Some? ==>
                && IsCandidate(old(repository.Tables()), job.value, now)
                && Shows(ClaimStep(policy, old(Alone()), id, job.value, now))
                && local.Claimed? && claims == old(claims) + 1
      ensures (forall j | j in old(repository.jobs) :: !Claimable(old(repository.jobs)[j], now)) ==> job.None?
    {
      var r := repository.Claim(id, now, policy.leaseSeconds);
      if r.Err? || r.value.None? {
        return None;
      }
      var (taken, rec) := r.value.value;
      local := Claimed(taken, rec, now);
      claims := claims + 1;
      return Some(taken);
    }

    /** The provider interaction and the decision that follows from it. */
    method Proceed(reply: Reply, now: Time, jitter: real)
      requires Valid() && local.Claimed? && 0.0 <= jitter <= policy.jitter
      modifies this`local, this`submissions, this`polls, this`rateLimits
      ensures Shows(ActStep(policy, old(Alone()), id, reply, now, jitter))
      ensures var rec := old(local).rec;
              var called := CallsProvider(policy, rec, old(local).at, reply);
              var answered := reply.InProgress? || (reply.Analysed? && Assess(reply.raw).Some?);
              && submissions == old(submissions) + (if called && rec.state == PendingSubmission &&
                    reply.Accepted? then 1 else 0)
              && polls == old(polls) + (if called && rec.state != PendingSubmission && answered then 1 else 0)
              && rateLimits == old(rateLimits) + (if called && reply.RateLimited? then 1 else 0)
    {
      var at, job, rec := local.at, local.id, local.rec;
      var action := Decide(policy, rec, at, reply, now, jitter);
      if CallsProvider(policy, rec, at, reply) {
        if rec.state == PendingSubmission {
          if reply.Accepted? {
            submissions := submissions + 1;
          }
        } else if reply.InProgress? || (reply.Analysed? && Assess(reply.raw).Some?) {
          polls := polls + 1;
        }
        if reply.RateLimited? {
          rateLimits := rateLimits + 1;
        }
      }
      local := if action.Abandon? then Idle else Decided(job, rec, action);
    }

    /** The read of a retry; any other decision skips it. */
    method Reread()
      requires Valid()
      modifies this`local
      ensures Shows(ReadBackStep(old(Alone()), id))
    {
      if local.Decided? && local.action.Retry? {
        var r := repository.Get(local.id);
        match r
        case Ok(row) => local := local.(action := Tell(RetryReport(row, local.action.next)));
        case Err(_) => local := Idle;
      }
    }

    /** The outcome transaction. A lost lease raises and leaves the tables alone. */
    method Conclude(now: Time) returns (r: Result<(), DbError>)
      requires Valid() && local.Decided? && !local.action.Retry?
      modifies this`local, this`exhausted, this`completed, repository
      ensures Shows(CommitStep(old(Alone()), id, now))
      ensures r.Ok? <==> CommitAction(old(repository.Tables()), old(local).id, id, old(local).action, now).Ok?
      ensures exhausted == old(exhausted) + (if Changes(old(repository.Tables()), old(local), id, now) &&
                GaveUp(old(local)) then 1 else 0)
      ensures completed == old(completed) + (if Changes(old(repository.Tables()), old(local), id, now) &&
                WasJudged(old(local)) then 1 else 0)
    {
      var job, action := local.id, local.action;
      local := Idle;
      r := Ok(());
      match action
      case Finish(outcome) =>
        var done := repository.Finish(job, id, outcome, now);
        if done.Err? {
          r := Err(done.error);
        } else if done.value {
          if outcome.state == Exhausted {
            exhausted := exhausted + 1;
          } else if outcome.verdict != UNAVAILABLE {
            completed := completed + 1;
          }
        }
      case Tell(report) =>
        r := repository.Record(job, id, report, now);
      case _ =>
    }

    /** One whole run without interference: exactly the protocol's steps, in order. */
    method RunOnce(claimAt: Time, reply: Reply, replyAt: Time, jitter: real, commitAt: Time) returns (worked: bool)
      requires Valid() && local.Idle? && 0.0 <= jitter <= policy.jitter
      modifies this, repository
      ensures local == Idle
      ensures !worked ==> repository.Tables() == old(repository.Tables())
      ensures worked ==>
                exists job :: IsCandidate(old(repository.Tables()), job, claimAt) &&
                  repository.Tables() ==
                  Run(policy, old(Alone()),
                      [ScanProtocol.Claim(id, job, claimAt), Act(id, reply, replyAt, jitter), ReadBack(id),
                          Commit(id, commitAt)]).db
    {
      ghost var start := Alone();
      var job := Begin(claimAt);
      if job.None? {
        return false;
      }
      OneRun(policy, start, id, job.value, claimAt, reply, replyAt, jitter, commitAt);
      ghost var s1 := ClaimStep(policy, start, id, job.value, claimAt);
      ActsAlike(policy, Alone(), s1, id, reply, replyAt, jitter);
      Proceed(reply, replyAt, jitter);
      ghost var s2 := ActStep(policy, s1, id, reply, replyAt, jitter);
      ReadsAlike(Alone(), s2, id);
      Reread();
      ghost var s3 := ReadBackStep(s2, id);
      CommitsAlike(Alone(), s3, id, commitAt);
      if local.Decided? {
        var _ := Conclude(commitAt);
      }
      return true;
    }
  }

  lemma OneRun(p: Policy, s: System, w: string, job: string, claimAt: Time, reply: Reply, replyAt: Time, jitter: real,
      commitAt: Time)
    ensures Run(p, s, [Claim(w, job, claimAt), Act(w, reply, replyAt, jitter), ReadBack(w), Commit(w, commitAt)]) ==
            CommitStep(ReadBackStep(ActStep(p, ClaimStep(p, s, w, job, claimAt), w, reply, replyAt, jitter), w), w,
                commitAt)
  {
    var steps := [Claim(w, job, claimAt), Act(w, reply, replyAt, jitter), ReadBack(w), Commit(w, commitAt)];
    assert steps[..3][..2][..1] == [steps[0]];
    assert Run(p, s, steps[..3][..2][..1]) == Next(p, s, steps[0]);
    assert Run(p, s, steps[..3][..2]) == Next(p, Next(p, s, steps[0]), steps[1]);
    assert Run(p, s, steps[..3]) == Next(p, Next(p, Next(p, s, steps[0]), steps[1]), steps[2]);
  }

  /** A worker's own steps depend only on the tables and on its own place in the run. */
  predicate Alike(a: System, b: System, w: string) {
    a.db == b.db && LocalOf(a, w) == LocalOf(b, w)
  }

  lemma ActsAlike(p: Policy, a: System, b: System, w: string, reply: Reply, now: Time, jitter: real)
    requires Alike(a, b, w)
    ensures Alike(ActStep(p, a, w, reply, now, jitter), ActStep(p, b, w, reply, now, jitter), w)
  {
  }

  lemma ReadsAlike(a: System, b: System, w: string)
    requires Alike(a, b, w)
    ensures Alike(ReadBackStep(a, w), ReadBackStep(b, w), w)
  {
  }

  lemma CommitsAlike(a: System, b: System, w: string, now: Time)
    requires Alike(a, b, w)
    ensures Alike(CommitStep(a, w, now), CommitStep(b, w, now), w)
  {
  }
}
